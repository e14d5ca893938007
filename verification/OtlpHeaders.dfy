/** The telemetry exporter's header list: `key=value` pairs joined by commas, values percent-encoded. */
module OtlpHeaders {
  import opened Text
  import opened UriComponent
  import opened Basics

  type Headers = map<string, string>

  /** Assigning a string to this property of a plain object does nothing. */
  const RESERVED: string := "__proto__"

  /** The trimmed key and still encoded value of one segment, unless it has no '=' or no key. */
  function Segment(pair: string): Option<(string, string)> {
    var eq := IndexOf(pair, '=');
    if eq == |pair| then None
    else
      var key := Trim(pair[..eq]);
      if key == "" then None else Some((key, Trim(pair[eq + 1..])))
  }

  /** The header one segment sets, if any; `None` when its value cannot be decoded, at which the parser
      throws. */
  function ReadOne(pair: string): Option<Headers> {
    match Segment(pair)
    case None => Some(map[])
    case Some((key, encoded)) =>
      match Decode(encoded)
      case None => None
      case Some(value) => Some(if key == RESERVED then map[] else map[key := value])
  }

  function Merge(a: Option<Headers>, b: Option<Headers>): Option<Headers> {
    if a.None? || b.None? then None else Some(a.value + b.value)
  }

  function Read(pairs: seq<string>): Option<Headers> {
    if pairs == [] then Some(map[]) else Merge(Read(pairs[..|pairs| - 1]), ReadOne(pairs[|pairs| - 1]))
  }

  function Parse(raw: Option<string>): Option<Headers> {
    if raw.None? || raw.value == "" then Some(map[]) else Read(Split(raw.value, ','))
  }

  method ParseOtlpHeaders(raw: Option<string>) returns (r: Option<Headers>)
    ensures r == Parse(raw)
  {
    if raw.None? || raw.value == "" {
      return Some(map[]);
    }
    var headers: Headers := map[];
    var pairs := Split(raw.value, ',');
    EmptyMerge(Read(pairs));
    for i := 0 to |pairs|
      invariant Read(pairs) == Merge(Some(headers), Read(pairs[i..]))
    {
      var pair := pairs[i];
      ReadFrom(pairs, i, headers);
      var eqIndex := IndexOf(pair, '=');
      if eqIndex == |pair| {
        continue;
      }
      var key := Trim(pair[..eqIndex]);
      var value := Trim(pair[eqIndex + 1..]);
      if key != "" {
        var decoded := Decode(value);
        if decoded.None? {
          return None;
        }
        if key != RESERVED {
          AddOne(headers, key, decoded.value);
          headers := headers[key := decoded.value];
        }
      }
    }
    MergeLaws(Some(headers), None, None);
    return Some(headers);
  }

  /** Reading on from segment `i` with what the segments before it gave. */
  lemma ReadFrom(pairs: seq<string>, i: nat, headers: Headers)
    requires i < |pairs|
    ensures ReadOne(pairs[i]).None? ==> Merge(Some(headers), Read(pairs[i..])).None?
    ensures ReadOne(pairs[i]).Some? ==>
      Merge(Some(headers), Read(pairs[i..])) == Merge(Some(headers + ReadOne(pairs[i]).value), Read(pairs[i + 1..]))
    ensures headers + map[] == headers
  {
    assert pairs[i..] == [pairs[i]] + pairs[i + 1..];
    ReadConcat([pairs[i]], pairs[i + 1..]);
    ReadLast([], pairs[i]);
    assert [] + [pairs[i]] == [pairs[i]];
    MergeLaws(Some(map[]), ReadOne(pairs[i]), None);
    MergeLaws(Some(headers), ReadOne(pairs[i]), Read(pairs[i + 1..]));
    MergeLaws(Some(headers), None, None);
    EmptyMerge(ReadOne(pairs[i]));
  }

  lemma EmptyMerge(a: Option<Headers>)
    ensures Merge(Some(map[]), a) == a
  {
    if a.Some? {
      assert map[] + a.value == a.value;
    }
  }

  lemma AddOne(headers: Headers, key: string, value: string)
    ensures headers + map[] == headers
    ensures headers + map[key := value] == headers[key := value]
  {
  }

  lemma ReadLast(init: seq<string>, last: string)
    ensures Read(init + [last]) == Merge(Read(init), ReadOne(last))
  {
    assert (init + [last])[..|init|] == init;
  }

  lemma MergeLaws(a: Option<Headers>, b: Option<Headers>, c: Option<Headers>)
    ensures Merge(Merge(a, b), c) == Merge(a, Merge(b, c))
    ensures Merge(a, Some(map[])) == a
  {
    if a.Some? {
      assert a.value + map[] == a.value;
      if b.Some? && c.Some? {
        assert (a.value + b.value) + c.value == a.value + (b.value + c.value);
      }
    }
  }

  lemma {:induction false} ReadConcat(a: seq<string>, b: seq<string>)
    ensures Read(a + b) == Merge(Read(a), Read(b))
  {
    if b == [] {
      assert a + b == a;
      MergeLaws(Read(a), None, None);
    } else {
      var n := |b| - 1;
      assert (a + b)[..|a| + n] == a + b[..n] && (a + b)[|a| + n] == b[n];
      ReadConcat(a, b[..n]);
      MergeLaws(Read(a), Read(b[..n]), ReadOne(b[n]));
    }
  }

  /** Parsing respects the commas: a list means its parts, later ones winning, and one undecodable
      value anywhere fails the whole. */
  lemma {:induction false} ParseIsPiecewise(a: string, b: string)
    ensures Parse(Some(a + "," + b)) == Merge(Parse(Some(a)), Parse(Some(b)))
  {
    SplitConcat(a, ',', b);
    ReadConcat(Split(a, ','), Split(b, ','));
    EmptySegment();
  }

  lemma EmptySegment()
    ensures Read(Split("", ',')) == Some(map[])
  {
    assert Split("", ',') == [""] && [""][..0] == [];
    assert Segment("") == None;
  }

  /** What one segment means: the text before its first '=' is the key, the text after it the value, both
      trimmed; a blank key sets nothing, and a value that cannot be decoded fails the parse. */
  lemma {:induction false} SegmentMeaning(key: string, value: string)
    requires '=' !in key && ',' !in key && ',' !in value
    ensures Parse(Some(key + "=" + value)) ==
      if Trim(key) == "" then Some(map[])
      else if Decode(Trim(value)).None? then None
      else if Trim(key) == "__proto__" then Some(map[])
      else Some(map[Trim(key) := Decode(Trim(value)).value])
    ensures Parse(Some(key)) == Some(map[])
  {
    var pair := key + "=" + value;
    SplitHead(pair, ',', "");
    SplitHead(key, ',', "");
    IndexOfFirst(key, '=', value);
    assert pair[..|key|] == key && pair[|key| + 1..] == value;
    ReadSingle(pair);
    ReadSingle(key);
  }

  lemma ReadSingle(pair: string)
    ensures Read([pair]) == ReadOne(pair)
  {
    assert [pair][..0] == [] && Read([]) == Some(map[]);
    EmptyMerge(ReadOne(pair));
  }

  /** One value that cannot be decoded, anywhere in the list, fails the whole. */
  lemma {:induction false} UndecodableValueFailsAll(a: string, key: string, value: string, b: string)
    requires '=' !in key && ',' !in key && ',' !in value && Trim(key) != "" && Decode(Trim(value)).None?
    ensures Parse(Some(a + "," + (key + "=" + value) + "," + b)) == None
  {
    SegmentMeaning(key, value);
    ParseIsPiecewise(a, key + "=" + value);
    ParseIsPiecewise(a + "," + (key + "=" + value), b);
  }

  /** A segment with no '=' or with a blank key might as well not be there. */
  lemma {:induction false} MalformedSegmentIsIgnored(a: string, junk: string, b: string)
    requires ',' !in junk && ('=' !in junk || Blank(junk[..IndexOf(junk, '=')]))
    ensures Parse(Some(a + "," + junk + "," + b)) == Parse(Some(a + "," + b))
  {
    if '=' in junk {
      TrimBlank(junk[..IndexOf(junk, '=')]);
    }
    assert Segment(junk) == None;
    ParseIsPiecewise(a, b);
    ParseIsPiecewise(a + "," + junk, b);
    ParseIsPiecewise(a, junk);
    JunkMeansNothing(junk);
    MergeLaws(Parse(Some(a)), None, None);
  }

  lemma JunkMeansNothing(junk: string)
    requires ',' !in junk && Segment(junk) == None
    ensures Parse(Some(junk)) == Some(map[])
  {
    SplitHead(junk, ',', "");
    ReadSingle(junk);
  }

  // ----- Parsing undoes printing

  /** A header to print, with the whitespace to put around its key and its value. */
  datatype Header = Header(key: string, value: string, pads: (string, string, string, string))

  predicate Printable(h: Header) {
    && h.key != "" && Trimmed(h.key) && ',' !in h.key && '=' !in h.key && h.key != RESERVED
    && Blank(h.pads.0) && Blank(h.pads.1) && Blank(h.pads.2) && Blank(h.pads.3)
  }

  function PrintOne(h: Header): string {
    (h.pads.0 + h.key + h.pads.1) + "=" + (h.pads.2 + Encode(h.value) + h.pads.3)
  }

  function PrintAll(hs: seq<Header>): seq<string> {
    if hs == [] then [] else PrintAll(hs[..|hs| - 1]) + [PrintOne(hs[|hs| - 1])]
  }

  function Print(hs: seq<Header>): string { Join(PrintAll(hs), ",") }

  /** What the printed headers mean: the last value given for a key. */
  function Meaning(hs: seq<Header>): Headers {
    if hs == [] then map[] else Meaning(hs[..|hs| - 1])[hs[|hs| - 1].key := hs[|hs| - 1].value]
  }

  lemma EncodedIsPlain(s: string)
    ensures Trimmed(Encode(s)) && ',' !in Encode(s)
  {
    EncodeAlphabet(s);
    forall c | IsSpace(c)
      ensures !IsEncodedChar(c)
    {
    }
    if Encode(s) != "" {
      assert Encode(s)[0] in Encode(s) && Encode(s)[|Encode(s)| - 1] in Encode(s);
    }
  }

  lemma SegmentOf(left: string, right: string)
    requires '=' !in left && Trim(left) != ""
    ensures Segment(left + "=" + right) == Some((Trim(left), Trim(right)))
  {
    IndexOfFirst(left, '=', right);
    var pair := left + ['='] + right;
    assert pair[..|left|] == left && pair[|left| + 1..] == right;
  }

  lemma BlankIsPlain(s: string, c: char)
    requires Blank(s) && !IsSpace(c)
    ensures c !in s
  {
  }

  lemma AbsentFromConcat(a: string, b: string, c: string, x: char)
    requires x !in a && x !in b && x !in c
    ensures x !in a + b + c
  {
  }

  lemma PrintedSegment(h: Header)
    requires Printable(h)
    ensures Segment(PrintOne(h)) == Some((h.key, Encode(h.value)))
  {
    var (a, b, c, d) := h.pads;
    EncodedIsPlain(h.value);
    TrimPadded(a, h.key, b);
    TrimPadded(c, Encode(h.value), d);
    BlankIsPlain(a, '=');
    BlankIsPlain(b, '=');
    AbsentFromConcat(a, h.key, b, '=');
    SegmentOf(a + h.key + b, c + Encode(h.value) + d);
  }

  lemma PrintedHasNoComma(h: Header)
    requires Printable(h)
    ensures ',' !in PrintOne(h)
  {
    var (a, b, c, d) := h.pads;
    EncodedIsPlain(h.value);
    BlankIsPlain(a, ',');
    BlankIsPlain(b, ',');
    BlankIsPlain(c, ',');
    BlankIsPlain(d, ',');
    AbsentFromConcat(a, h.key, b, ',');
    AbsentFromConcat(c, Encode(h.value), d, ',');
    AbsentFromConcat(a + h.key + b, "=", c + Encode(h.value) + d, ',');
  }

  lemma PrintedReads(h: Header)
    requires Printable(h)
    ensures ReadOne(PrintOne(h)) == Some(map[h.key := h.value])
  {
    PrintedSegment(h);
    DecodeUndoesEncode(h.value);
  }

  /** The reserved key is read and decoded like any other, and then sets nothing. */
  lemma {:induction false} ReservedKeySetsNothing(h: Header)
    requires h.key == RESERVED && Printable(h.(key := "k"))
    ensures ReadOne(PrintOne(h)) == Some(map[])
  {
    var (a, b, c, d) := h.pads;
    EncodedIsPlain(h.value);
    TrimPadded(a, h.key, b);
    TrimPadded(c, Encode(h.value), d);
    BlankIsPlain(a, '=');
    BlankIsPlain(b, '=');
    AbsentFromConcat(a, h.key, b, '=');
    SegmentOf(a + h.key + b, c + Encode(h.value) + d);
    DecodeUndoesEncode(h.value);
  }

  lemma {:induction false} ReadPrinted(hs: seq<Header>)
    requires forall i :: 0 <= i < |hs| ==> Printable(hs[i])
    ensures Read(PrintAll(hs)) == Some(Meaning(hs))
  {
    if hs != [] {
      var n := |hs| - 1;
      ReadPrinted(hs[..n]);
      PrintedReads(hs[n]);
      ReadLast(PrintAll(hs[..n]), PrintOne(hs[n]));
      AddOne(Meaning(hs[..n]), hs[n].key, hs[n].value);
    }
  }

  lemma {:induction false} PrintedPieces(hs: seq<Header>)
    requires forall i :: 0 <= i < |hs| ==> Printable(hs[i])
    ensures |PrintAll(hs)| == |hs|
    ensures forall i :: 0 <= i < |hs| ==> ',' !in PrintAll(hs)[i]
  {
    if hs != [] {
      PrintedPieces(hs[..|hs| - 1]);
      PrintedHasNoComma(hs[|hs| - 1]);
    }
  }

  /** Whatever headers are printed, however padded, parsing gives back exactly what they mean. */
  lemma {:induction false} ParseUndoesPrint(hs: seq<Header>)
    requires forall i :: 0 <= i < |hs| ==> Printable(hs[i])
    ensures Parse(Some(Print(hs))) == Some(Meaning(hs))
  {
    ReadPrinted(hs);
    PrintedPieces(hs);
    if hs != [] {
      SplitJoin(PrintAll(hs), ',');
    }
    EmptySegment();
  }
}
