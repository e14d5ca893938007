/**
 * Percent-encoding of one URI component over UTF-8 (RFC 3986, section 2.1): the runtime's encoder
 * and its strict decoder, which refuses malformed escapes and octets that are not valid UTF-8.
 *
 * A Dafny `char` is a Unicode scalar value, so every string here is one the encoder accepts.
 */
module UriComponent {
  import opened Text
  import opened Basics

  predicate IsUnreserved(c: char) {
    'A' <= c <= 'Z' || 'a' <= c <= 'z' || '0' <= c <= '9'
    || c in {'-', '_', '.', '!', '~', '*', '\'', '(', ')'}
  }

  /** What the encoder leaves alone. */
  lemma UnreservedAlphabet(c: char)
    ensures IsUnreserved(c) <==> IsAlphanumeric(c) || c in "-_.!~*'()"
  {
    Alphabets(c);
  }

  function HexDigit(n: int): char
    requires 0 <= n < 16
  {
    if n < 10 then (48 + n) as char else (55 + n) as char
  }

  function HexValue(c: char): Option<int> {
    if '0' <= c <= '9' then Some(c as int - 48)
    else if 'A' <= c <= 'F' then Some(c as int - 55)
    else if 'a' <= c <= 'f' then Some(c as int - 87)
    else None
  }

  function Utf8(c: char): seq<Octet> {
    var n := c as int;
    if n < 0x80 then [n]
    else
      var q := n / 64;
      if n < 0x800 then [0xC0 + q, 0x80 + n % 64]
      else
        var r := q / 64;
        if n < 0x1_0000 then [0xE0 + r, 0x80 + q % 64, 0x80 + n % 64]
        else [0xF0 + r / 64, 0x80 + r % 64, 0x80 + q % 64, 0x80 + n % 64]
  }

  function PercentEncode(octets: seq<Octet>): string {
    if octets == [] then ""
    else ['%', HexDigit(octets[0] / 16), HexDigit(octets[0] % 16)] + PercentEncode(octets[1..])
  }

  function EncodeChar(c: char): string {
    if IsUnreserved(c) then [c] else PercentEncode(Utf8(c))
  }

  function Encode(s: string): string {
    if s == "" then "" else EncodeChar(s[0]) + Encode(s[1..])
  }

  /** The octet spelled by an escape at the start of `s`. */
  function ReadEscape(s: string): Option<Octet> {
    if |s| < 3 || s[0] != '%' then None
    else
      match (HexValue(s[1]), HexValue(s[2]))
      case (Some(h), Some(l)) => Some(16 * h + l)
      case _ => None
  }

  /** How many octets a character starting with `b` takes; 0 when no character starts so. */
  function SequenceLength(b: Octet): nat {
    if b < 0x80 then 1
    else if b < 0xC0 then 0
    else if b < 0xE0 then 2
    else if b < 0xF0 then 3
    else if b < 0xF8 then 4
    else 0
  }

  function ReadEscapes(s: string, n: nat): (r: Option<seq<Octet>>)
    ensures r.Some? ==> 3 * n <= |s| && |r.value| == n
  {
    if n == 0 then Some([])
    else
      match ReadEscape(s)
      case None => None
      case Some(b) =>
        match ReadEscapes(s[3..], n - 1)
        case None => None
        case Some(bs) => Some([b] + bs)
  }

  predicate IsContinuation(b: Octet) { 0x80 <= b < 0xC0 }

  /** The number whose base-64 digits are a leading one and the low six bits of continuations. */
  function Digits(lead: int, octets: seq<Octet>): int {
    if octets == [] then lead
    else Digits(lead, octets[..|octets| - 1]) * 64 + (octets[|octets| - 1] as int - 0x80)
  }

  /** The code point that well-formed octets spell. */
  function CodePoint(octets: seq<Octet>): Option<int> {
    if octets == [] || exists i :: 1 <= i < |octets| && !IsContinuation(octets[i]) then None
    else
      var b: int := octets[0];
      var lead :=
        if |octets| == 1 then b
        else if |octets| == 2 then b - 0xC0
        else if |octets| == 3 then b - 0xE0
        else b - 0xF0;
      Some(Digits(lead, octets[1..]))
  }

  /** Overlong spellings, surrogates and values beyond Unicode are not UTF-8. */
  function CharOf(octets: seq<Octet>): Option<char> {
    match CodePoint(octets)
    case None => None
    case Some(n) =>
      if (0 <= n < 0xD800 || 0xE000 <= n < 0x11_0000) && Utf8(n as char) == octets then Some(n as char) else None
  }

  function Prepend(c: char, rest: Option<string>): Option<string> {
    match rest
    case None => None
    case Some(s) => Some([c] + s)
  }

  function Decode(s: string): Option<string>
    decreases |s|
  {
    if s == "" then Some("")
    else if s[0] != '%' then Prepend(s[0], Decode(s[1..]))
    else
      match ReadEscape(s)
      case None => None
      case Some(b) =>
        var n := SequenceLength(b);
        match ReadEscapes(s, n)
        case None => None
        case Some(octets) =>
          if n == 0 then None
          else
            match CharOf(octets)
            case None => None
            case Some(c) => Prepend(c, Decode(s[3 * n..]))
  }

  lemma HexRoundTrip(n: int)
    requires 0 <= n < 16
    ensures HexValue(HexDigit(n)) == Some(n)
  {
  }

  lemma {:induction false} EscapesRoundTrip(octets: seq<Octet>, rest: string)
    ensures |PercentEncode(octets)| == 3 * |octets|
    ensures ReadEscapes(PercentEncode(octets) + rest, |octets|) == Some(octets)
  {
    if octets != [] {
      var s := PercentEncode(octets) + rest;
      HexRoundTrip(octets[0] / 16);
      HexRoundTrip(octets[0] % 16);
      assert s[3..] == PercentEncode(octets[1..]) + rest;
      EscapesRoundTrip(octets[1..], rest);
      assert [octets[0]] + octets[1..] == octets;
    }
  }

  lemma Utf8RoundTrip(c: char)
    ensures CharOf(Utf8(c)) == Some(c)
    ensures SequenceLength(Utf8(c)[0]) == |Utf8(c)|
  {
    var n := c as int;
    var octets := Utf8(c);
    var tail := octets[1..];
    if |octets| > 1 {
      DigitsAppend(octets[0] as int - (if |octets| == 2 then 0xC0 else if |octets| == 3 then 0xE0 else 0xF0), tail);
    }
  }

  lemma DigitsAppend(lead: int, octets: seq<Octet>)
    requires 1 <= |octets| <= 3
    ensures Digits(lead, octets) ==
      if |octets| == 1 then lead * 64 + (octets[0] as int - 0x80)
      else if |octets| == 2 then (lead * 64 + (octets[0] as int - 0x80)) * 64 + (octets[1] as int - 0x80)
      else ((lead * 64 + (octets[0] as int - 0x80)) * 64 + (octets[1] as int - 0x80)) * 64 + (octets[2] as int - 0x80)
  {
    var two := octets[..|octets| - 1];
    if |octets| == 3 {
      assert two[..1] == octets[..1];
    }
  }

  lemma {:induction false} DecodeEncodedChar(c: char, rest: string)
    ensures Decode(EncodeChar(c) + rest) == Prepend(c, Decode(rest))
  {
    var s := EncodeChar(c) + rest;
    if IsUnreserved(c) {
      assert s[1..] == rest;
    } else {
      var octets := Utf8(c);
      Utf8RoundTrip(c);
      EscapesRoundTrip(octets, rest);
      assert s[3 * |octets|..] == rest;
      assert s[0] == '%';
      assert ReadEscape(s) == Some(octets[0]) by {
        HexRoundTrip(octets[0] / 16);
        HexRoundTrip(octets[0] % 16);
      }
    }
  }

  /** Decoding undoes encoding, for every string. */
  lemma {:induction false} DecodeUndoesEncode(s: string)
    ensures Decode(Encode(s)) == Some(s)
  {
    if s != "" {
      DecodeEncodedChar(s[0], Encode(s[1..]));
      DecodeUndoesEncode(s[1..]);
      assert [s[0]] + s[1..] == s;
    }
  }

  /** The encoder's output alphabet: nothing that means anything in a header, a cookie or a list. */
  predicate IsEncodedChar(c: char) { IsUnreserved(c) || c == '%' }

  lemma {:induction false} PercentEncodeAlphabet(octets: seq<Octet>)
    ensures forall c :: c in PercentEncode(octets) ==> IsEncodedChar(c)
  {
    if octets != [] {
      PercentEncodeAlphabet(octets[1..]);
    }
  }

  lemma {:induction false} EncodeAlphabet(s: string)
    ensures forall c :: c in Encode(s) ==> IsEncodedChar(c)
  {
    if s != "" {
      PercentEncodeAlphabet(Utf8(s[0]));
      EncodeAlphabet(s[1..]);
    }
  }

  // ----- What an encoder's output looks like

  predicate IsUpperHex(c: char) { '0' <= c <= '9' || 'A' <= c <= 'F' }

  /** Position `i` holds an unreserved character, or starts an escape in capitals of an octet that does
      not stand for one. */
  predicate CanonicalAt(s: string, i: nat)
    requires i < |s|
  {
    if s[i] != '%' then IsUnreserved(s[i])
    else
      && i + 2 < |s| && IsUpperHex(s[i + 1]) && IsUpperHex(s[i + 2])
      && !IsUnreserved((16 * HexValue(s[i + 1]).value + HexValue(s[i + 2]).value) as char)
  }

  ghost predicate CanonicalSpelling(s: string) { forall i :: 0 <= i < |s| ==> CanonicalAt(s, i) }

  /** The spelling is canonical everywhere, and the text can be decoded. */
  ghost predicate Canonical(s: string) { CanonicalSpelling(s) && Decode(s).Some? }

  lemma CanonicalConcat(a: string, b: string)
    requires CanonicalSpelling(b)
    requires forall i :: 0 <= i < |a| ==> CanonicalAt(a + b, i)
    ensures CanonicalSpelling(a + b)
  {
    var s := a + b;
    forall i | |a| <= i < |s|
      ensures CanonicalAt(s, i)
    {
      assert CanonicalAt(b, i - |a|);
    }
  }

  lemma CanonicalSuffix(s: string, n: nat)
    requires CanonicalSpelling(s) && n <= |s|
    ensures CanonicalSpelling(s[n..])
  {
    forall i | 0 <= i < |s[n..]|
      ensures CanonicalAt(s[n..], i)
    {
      assert CanonicalAt(s, n + i);
    }
  }

  lemma EscapeIsCanonical(b: Octet, rest: string)
    requires CanonicalSpelling(rest) && !IsUnreserved(b as char)
    ensures CanonicalSpelling(['%', HexDigit(b / 16), HexDigit(b % 16)] + rest)
  {
    var escape := ['%', HexDigit(b / 16), HexDigit(b % 16)];
    HexRoundTrip(b / 16);
    HexRoundTrip(b % 16);
    CanonicalConcat(escape, rest);
  }

  lemma {:induction false} EscapesAreCanonical(octets: seq<Octet>, rest: string)
    requires CanonicalSpelling(rest) && forall i :: 0 <= i < |octets| ==> !IsUnreserved(octets[i] as char)
    ensures CanonicalSpelling(PercentEncode(octets) + rest)
  {
    if octets == [] {
      assert PercentEncode(octets) + rest == rest;
    } else {
      EscapesAreCanonical(octets[1..], rest);
      EscapeIsCanonical(octets[0], PercentEncode(octets[1..]) + rest);
      var escape := ['%', HexDigit(octets[0] / 16), HexDigit(octets[0] % 16)];
      assert escape + (PercentEncode(octets[1..]) + rest) == PercentEncode(octets) + rest;
    }
  }

  lemma Utf8IsReserved(c: char)
    requires !IsUnreserved(c)
    ensures forall i :: 0 <= i < |Utf8(c)| ==> !IsUnreserved(Utf8(c)[i] as char)
  {
  }

  lemma {:induction false} EncodedIsCanonical(s: string)
    ensures Canonical(Encode(s))
  {
    DecodeUndoesEncode(s);
    if s != "" {
      EncodedIsCanonical(s[1..]);
      if IsUnreserved(s[0]) {
        CanonicalConcat([s[0]], Encode(s[1..]));
      } else {
        Utf8IsReserved(s[0]);
        EscapesAreCanonical(Utf8(s[0]), Encode(s[1..]));
      }
    }
  }

  lemma HexOfValue(c: char)
    requires IsUpperHex(c)
    ensures HexValue(c).Some? && 0 <= HexValue(c).value < 16 && HexDigit(HexValue(c).value) == c
  {
  }

  lemma RespellEscape(s: string)
    requires s != "" && s[0] == '%' && CanonicalAt(s, 0)
    ensures ReadEscape(s).Some?
    ensures var b := ReadEscape(s).value; s[..3] == ['%', HexDigit(b / 16), HexDigit(b % 16)]
  {
    HexOfValue(s[1]);
    HexOfValue(s[2]);
    var (h, l, b) := (HexValue(s[1]).value, HexValue(s[2]).value, ReadEscape(s).value);
    assert b / 16 == h && b % 16 == l;
  }

  lemma {:induction false} RespellEscapes(s: string, n: nat)
    requires CanonicalSpelling(s) && ReadEscapes(s, n).Some?
    ensures PercentEncode(ReadEscapes(s, n).value) == s[..3 * n]
  {
    if n > 0 {
      assert CanonicalAt(s, 0);
      RespellEscape(s);
      CanonicalSuffix(s, 3);
      RespellEscapes(s[3..], n - 1);
      var octets := ReadEscapes(s, n).value;
      assert octets[1..] == ReadEscapes(s[3..], n - 1).value;
      assert s[..3 * n] == s[..3] + s[3..][..3 * (n - 1)];
    }
  }

  /** The first character spelled by a canonical text, and how far its spelling reaches. */
  lemma RespellChar(s: string) returns (n: nat)
    requires Canonical(s) && s != ""
    ensures 0 < n <= |s| && Decode(s[n..]).Some? && Decode(s).value != ""
    ensures Decode(s).value[1..] == Decode(s[n..]).value && EncodeChar(Decode(s).value[0]) == s[..n]
  {
    assert CanonicalAt(s, 0);
    if s[0] != '%' {
      n := 1;
    } else {
      var b := ReadEscape(s).value;
      var k := SequenceLength(b);
      n := 3 * k;
      RespellEscapes(s, k);
      var octets := ReadEscapes(s, k).value;
      var c := CharOf(octets).value;
      assert Utf8(c) == octets && octets[0] == b;
    }
  }

  /** Encoding undoes decoding, for exactly the canonical texts. */
  lemma {:induction false} EncodeUndoesDecode(s: string)
    requires Canonical(s)
    ensures Encode(Decode(s).value) == s
    decreases |s|
  {
    if s != "" {
      var n := RespellChar(s);
      CanonicalSuffix(s, n);
      EncodeUndoesDecode(s[n..]);
      assert s == s[..n] + s[n..];
    }
  }

  /** The encoder's outputs are the texts in which every octet that must be escaped is, in capitals, and
      no other, and whose escapes spell UTF-8. */
  lemma OutputsAreCanonical(s: string)
    ensures Canonical(s) <==> exists value :: s == Encode(value)
  {
    if Canonical(s) {
      EncodeUndoesDecode(s);
    }
    if value :| s == Encode(value) {
      EncodedIsCanonical(value);
    }
  }
}
