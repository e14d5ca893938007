/**
 * Image data URIs: the pattern they must match and the size rule on their base64 payload
 * (RFC 4648, section 4).
 */
module DataUris {
  import opened Text
  import opened Basics

  type Sextet = n: int | 0 <= n < 64

  const APP_LOGO_MAX_BYTES: nat := 250 * 1024
  const APP_LOGO_ALLOWED_MIME_TYPES: seq<string> := ["image/png", "image/jpeg", "image/webp", "image/svg+xml"]

  predicate IsBase64Char(c: char) {
    'A' <= c <= 'Z' || 'a' <= c <= 'z' || '0' <= c <= '9' || c == '+' || c == '/'
  }

  function Digit(n: Sextet): char {
    if n < 26 then (65 + n) as char
    else if n < 52 then (71 + n) as char
    else if n < 62 then (n - 4) as char
    else if n == 62 then '+'
    else '/'
  }

  function DigitValue(c: char): Sextet
    requires IsBase64Char(c)
  {
    if 'A' <= c <= 'Z' then c as int - 65
    else if 'a' <= c <= 'z' then c as int - 71
    else if '0' <= c <= '9' then c as int + 4
    else if c == '+' then 62
    else 63
  }

  /** A payload cut into its digits and its trailing '=' signs, two of them at most. */
  function Padding(payload: string): nat {
    if |payload| >= 2 && payload[|payload| - 2..] == "==" then 2
    else if |payload| >= 1 && payload[|payload| - 1] == '=' then 1
    else 0
  }

  function Body(payload: string): string { payload[..|payload| - Padding(payload)] }

  predicate IsPayload(payload: string) {
    Body(payload) != "" && forall c :: c in Body(payload) ==> IsBase64Char(c)
  }

  function UriPrefix(mime: string): string { "data:" + mime + ";base64," }

  /** The payload of a value that matches the pattern for one of the allowed types. */
  function MatchPayload(value: string, allowed: seq<string>): Option<string> {
    if allowed == [] then None
    else
      var prefix := UriPrefix(allowed[0]);
      if prefix <= value && IsPayload(value[|prefix|..]) then Some(value[|prefix|..])
      else MatchPayload(value, allowed[1..])
  }

  /** The size formula length * 3 / 4 - padding, compared in quarters of a byte. */
  predicate FitsByFormula(payload: string, maxBytes: int) {
    3 * |payload| - 4 * Padding(payload) <= 4 * maxBytes
  }

  predicate IsValidImageDataUri(value: string, allowed: seq<string>, maxBytes: int) {
    match MatchPayload(value, allowed)
    case None => false
    case Some(payload) => FitsByFormula(payload, maxBytes)
  }

  // ----- Base64 itself

  function EncodeGroup(x: Octet, y: Octet, z: Octet): (e: string)
    ensures |e| == 4
  {
    [Digit(x / 4), Digit(x % 4 * 16 + y / 16), Digit(y % 16 * 4 + z / 64), Digit(z % 64)]
  }

  function Encode(bytes: seq<Octet>): string {
    if bytes == [] then ""
    else if |bytes| == 1 then
      [Digit(bytes[0] / 4), Digit(bytes[0] % 4 * 16), '=', '=']
    else if |bytes| == 2 then
      [Digit(bytes[0] / 4), Digit(bytes[0] % 4 * 16 + bytes[1] / 16), Digit(bytes[1] % 16 * 4), '=']
    else
      EncodeGroup(bytes[0], bytes[1], bytes[2]) + Encode(bytes[3..])
  }

  /** Decodes digits in groups of four; a last group of two or three still yields its whole bytes. */
  function DecodeBody(body: string): seq<Octet>
    requires forall c :: c in body ==> IsBase64Char(c)
  {
    if |body| < 2 then []
    else
      var a, b := DigitValue(body[0]), DigitValue(body[1]);
      var first := a * 4 + b / 16;
      if |body| == 2 then [first]
      else
        var c := DigitValue(body[2]);
        var second := b % 16 * 16 + c / 4;
        if |body| == 3 then [first, second]
        else [first, second, c % 4 * 64 + DigitValue(body[3])] + DecodeBody(body[4..])
  }

  function Decode(payload: string): seq<Octet>
    requires IsPayload(payload)
  {
    DecodeBody(Body(payload))
  }

  lemma DigitRoundTrip(n: Sextet)
    ensures IsBase64Char(Digit(n)) && DigitValue(Digit(n)) == n
  {
  }

  lemma {:induction false} DecodedSize(body: string)
    requires forall c :: c in body ==> IsBase64Char(c)
    ensures |DecodeBody(body)| == |body| * 3 / 4
  {
    if |body| >= 4 {
      DecodedSize(body[4..]);
    }
  }

  /** Cutting 24 bits into four sixes and putting the bytes back together. */
  lemma SixesRegroup(x: Octet, y: Octet, z: Octet)
    ensures var (a, b, c, d) := (x / 4, x % 4 * 16 + y / 16, y % 16 * 4 + z / 64, z % 64);
      a * 4 + b / 16 == x && b % 16 * 16 + c / 4 == y && c % 4 * 64 + d == z
  {
  }

  lemma GroupRoundTrip(x: Octet, y: Octet, z: Octet)
    ensures var e := EncodeGroup(x, y, z);
      (forall c :: c in e ==> IsBase64Char(c)) && DecodeBody(e) == [x, y, z]
  {
    var e := EncodeGroup(x, y, z);
    DigitRoundTrip(x / 4);
    DigitRoundTrip(x % 4 * 16 + y / 16);
    DigitRoundTrip(y % 16 * 4 + z / 64);
    DigitRoundTrip(z % 64);
    SixesRegroup(x, y, z);
    assert e[4..] == "";
  }

  lemma GroupsDecodeApart(group: string, rest: string)
    requires |group| == 4 && (forall c :: c in group ==> IsBase64Char(c)) && (forall c :: c in rest ==> IsBase64Char(c))
    ensures DecodeBody(group + rest) == DecodeBody(group) + DecodeBody(rest)
  {
    assert (group + rest)[4..] == rest && group[4..] == "";
  }

  /** The last group of an encoding. */
  lemma LastGroup(bytes: seq<Octet>)
    requires 1 <= |bytes| <= 3
    ensures var e := Encode(bytes); |e| == 4 && Padding(e) == 3 - |bytes| && IsPayload(e) && Decode(e) == bytes
  {
    var e := Encode(bytes);
    if |bytes| == 1 {
      DigitRoundTrip(bytes[0] / 4);
      DigitRoundTrip(bytes[0] % 4 * 16);
      assert Body(e) == e[..2];
    } else if |bytes| == 2 {
      DigitRoundTrip(bytes[0] / 4);
      DigitRoundTrip(bytes[0] % 4 * 16 + bytes[1] / 16);
      DigitRoundTrip(bytes[1] % 16 * 4);
      assert Body(e) == e[..3];
    } else {
      assert bytes == [bytes[0], bytes[1], bytes[2]] && bytes[3..] == [];
      GroupRoundTrip(bytes[0], bytes[1], bytes[2]);
      assert e == EncodeGroup(bytes[0], bytes[1], bytes[2]);
      assert IsBase64Char(e[3]);
      assert Body(e) == e;
    }
  }

  lemma PaddingOfConcat(group: string, rest: string)
    requires |rest| >= 2
    ensures Padding(group + rest) == Padding(rest) && Body(group + rest) == group + Body(rest)
  {
    var e := group + rest;
    assert e[|e| - 2..] == rest[|rest| - 2..];
  }

  /** Encoding spends four characters on three bytes, pads by what is missing, and can be decoded. */
  lemma {:induction false} EncodeShape(bytes: seq<Octet>)
    requires bytes != []
    ensures var e := Encode(bytes);
      |e| >= 4 && 3 * |e| == 4 * |bytes| + 4 * Padding(e) && IsPayload(e) && Decode(e) == bytes
  {
    if |bytes| <= 3 {
      LastGroup(bytes);
    } else {
      var (x, y, z, rest) := (bytes[0], bytes[1], bytes[2], Encode(bytes[3..]));
      EncodeShape(bytes[3..]);
      PaddingOfConcat(EncodeGroup(x, y, z), rest);
      GroupRoundTrip(x, y, z);
      GroupsDecodeApart(EncodeGroup(x, y, z), Body(rest));
      assert bytes == [x, y, z] + bytes[3..];
    }
  }

  // ----- What matches the pattern

  /** A payload is one or more base64 characters and at most two '=' signs after them. */
  lemma PayloadsHaveTheShape(payload: string)
    ensures IsPayload(payload) <==> exists i :: 0 < i <= |payload| <= i + 2 && IsCutAt(payload, i)
  {
    forall c
      ensures IsBase64Char(c) <==> IsAlphanumeric(c) || c == '+' || c == '/'
    {
      Alphabets(c);
    }
    if IsPayload(payload) {
      assert forall j :: 0 <= j < |Body(payload)| ==> payload[j] == Body(payload)[j];
      assert IsCutAt(payload, |Body(payload)|) by { PaddingIsEquals(payload); }
    }
    if i :| 0 < i <= |payload| <= i + 2 && IsCutAt(payload, i) {
      CutIsPadding(payload, i);
    }
  }

  /** Base64 characters before position `i`, '=' signs from there on. */
  ghost predicate IsCutAt(payload: string, i: int) {
    && (forall j :: 0 <= j < i && j < |payload| ==>
          IsAlphanumeric(payload[j]) || payload[j] == '+' || payload[j] == '/')
    && (forall j :: 0 <= i <= j < |payload| ==> payload[j] == '=')
  }

  lemma PaddingIsEquals(payload: string)
    ensures |Body(payload)| == |payload| - Padding(payload)
    ensures forall j :: |Body(payload)| <= j < |payload| ==> payload[j] == '='
  {
    if Padding(payload) == 2 {
      assert payload[|payload| - 2..][0] == '=' && payload[|payload| - 2..][1] == '=';
    }
  }

  lemma CutIsPadding(payload: string, i: int)
    requires 0 < i <= |payload| <= i + 2 && IsCutAt(payload, i)
    ensures |Body(payload)| == i && IsPayload(payload)
  {
    assert payload[i - 1] != '=' by { Alphabets(payload[i - 1]); }
    if |payload| == i + 2 {
      assert payload[|payload| - 2..] == "==";
    } else if |payload| >= 2 {
      assert payload[|payload| - 2..][0] == payload[|payload| - 2];
    }
    assert |Body(payload)| == i;
    forall j | 0 <= j < i
      ensures IsBase64Char(Body(payload)[j])
    {
      Alphabets(payload[j]);
    }
  }

  /** Any text is accepted exactly if it is the data URI of an allowed type with such a payload, and the
      payload passes the size rule. */
  lemma {:induction false} AcceptedIffDataUri(value: string, allowed: seq<string>, maxBytes: int)
    requires PlainTypes(allowed)
    ensures IsValidImageDataUri(value, allowed, maxBytes) <==>
      exists mime, payload :: mime in allowed && value == "data:" + mime + ";base64," + payload
        && IsPayload(payload) && FitsByFormula(payload, maxBytes)
  {
    if IsValidImageDataUri(value, allowed, maxBytes) {
      var mime := MatchedType(value, allowed);
    }
    forall mime, payload | mime in allowed && value == "data:" + mime + ";base64," + payload
        && IsPayload(payload) && FitsByFormula(payload, maxBytes)
      ensures IsValidImageDataUri(value, allowed, maxBytes)
    {
      MatchFindsPayload(mime, payload, allowed);
    }
  }

  lemma {:induction false} MatchedType(value: string, allowed: seq<string>) returns (mime: string)
    requires MatchPayload(value, allowed).Some?
    ensures mime in allowed && IsPayload(MatchPayload(value, allowed).value)
    ensures value == "data:" + mime + ";base64," + MatchPayload(value, allowed).value
  {
    var prefix := UriPrefix(allowed[0]);
    if prefix <= value && IsPayload(value[|prefix|..]) {
      mime := allowed[0];
      assert value == prefix + value[|prefix|..];
    } else {
      mime := MatchedType(value, allowed[1..]);
    }
  }

  // ----- The size rule

  /** The '=' signs a payload with so many digits should end in. */
  function PaddingDue(digits: nat): nat { (4 - digits % 4) % 4 }

  lemma PayloadSize(payload: string)
    requires IsPayload(payload)
    ensures |payload| == |Body(payload)| + Padding(payload)
    ensures |Decode(payload)| == |Body(payload)| * 3 / 4
  {
    DecodedSize(Body(payload));
  }

  /** The size rule on numbers: `digits` base64 characters and `padding` signs against `m` bytes. */
  lemma SizeRule(digits: nat, padding: nat, m: int)
    requires padding <= 2
    ensures 3 * (digits + padding) - 4 * padding <= 4 * m <==>
      digits * 3 / 4 < m || (digits * 3 / 4 == m && padding >= PaddingDue(digits))
  {
    var (k, r) := (digits / 4, digits % 4);
    assert digits == 4 * k + r && 0 <= r < 4;
    assert digits * 3 / 4 == 3 * k + r * 3 / 4;
  }

  /** What the formula decides at one limit: a payload passes if it decodes to less than the limit, or
      to the limit itself and carries at least the padding due. */
  lemma FormulaDecides(payload: string, maxBytes: int)
    requires IsPayload(payload)
    ensures FitsByFormula(payload, maxBytes) <==>
      |Decode(payload)| < maxBytes
      || (|Decode(payload)| == maxBytes && Padding(payload) >= PaddingDue(|Body(payload)|))
  {
    PayloadSize(payload);
    SizeRule(|Body(payload)|, Padding(payload), maxBytes);
  }

  /** A payload that passes never decodes to more than the limit, however it is padded. */
  lemma FormulaIsSafe(payload: string, maxBytes: int)
    requires IsPayload(payload) && FitsByFormula(payload, maxBytes)
    ensures |Decode(payload)| <= maxBytes
  {
    FormulaDecides(payload, maxBytes);
  }

  /** The formula decides by the decoded size, at every limit, for exactly the payloads that carry at
      least the padding due; one that omits some is refused at a limit it meets. */
  lemma FormulaIsExactIffPadded(payload: string)
    requires IsPayload(payload)
    ensures (forall maxBytes :: FitsByFormula(payload, maxBytes) <==> |Decode(payload)| <= maxBytes)
      <==> Padding(payload) >= PaddingDue(|Body(payload)|)
  {
    forall maxBytes
      ensures FitsByFormula(payload, maxBytes) <==>
        |Decode(payload)| < maxBytes
        || (|Decode(payload)| == maxBytes && Padding(payload) >= PaddingDue(|Body(payload)|))
    {
      FormulaDecides(payload, maxBytes);
    }
    var size := |Decode(payload)|;
    assert FitsByFormula(payload, size) <==> Padding(payload) >= PaddingDue(|Body(payload)|);
  }

  ghost predicate PlainTypes(allowed: seq<string>) {
    forall i :: 0 <= i < |allowed| ==> ';' !in allowed[i]
  }

  lemma SamePrefixSameType(a: string, b: string, x: string, y: string)
    requires ';' !in a && ';' !in b
    requires UriPrefix(a) + x == UriPrefix(b) + y
    ensures a == b
  {
    var u, v := UriPrefix(a) + x, UriPrefix(b) + y;
    assert u[5..] == a + [';'] + ("base64," + x) && v[5..] == b + [';'] + ("base64," + y);
    IndexOfFirst(a, ';', "base64," + x);
    IndexOfFirst(b, ';', "base64," + y);
    assert u[5..][..|a|] == a && v[5..][..|b|] == b;
  }

  lemma {:induction false} MatchFindsPayload(mime: string, payload: string, allowed: seq<string>)
    requires PlainTypes(allowed) && ';' !in mime
    ensures MatchPayload(UriPrefix(mime) + payload, allowed)
         == if mime in allowed && IsPayload(payload) then Some(payload) else None
  {
    var value := UriPrefix(mime) + payload;
    if allowed != [] {
      MatchFindsPayload(mime, payload, allowed[1..]);
      var prefix := UriPrefix(allowed[0]);
      assert value[|UriPrefix(mime)|..] == payload;
      if prefix <= value {
        assert value == prefix + value[|prefix|..];
        SamePrefixSameType(mime, allowed[0], payload, value[|prefix|..]);
      }
    }
  }

  lemma {:induction false} EncodedFits(bytes: seq<Octet>, maxBytes: int)
    requires bytes != []
    ensures IsPayload(Encode(bytes)) && (FitsByFormula(Encode(bytes), maxBytes) <==> |bytes| <= maxBytes)
  {
    EncodeShape(bytes);
  }

  /** The data URI of any non-empty file is accepted if and only if its type is allowed and the file
      itself is within the limit. */
  lemma {:induction false} FileIsAcceptedIffItFits(mime: string, bytes: seq<Octet>, allowed: seq<string>, maxBytes: int)
    requires PlainTypes(allowed) && ';' !in mime && bytes != []
    ensures IsValidImageDataUri(UriPrefix(mime) + Encode(bytes), allowed, maxBytes)
      <==> mime in allowed && |bytes| <= maxBytes
  {
    EncodedFits(bytes, maxBytes);
    MatchFindsPayload(mime, Encode(bytes), allowed);
  }

  lemma LogoTypesArePlain(types: seq<string>)
    requires types == APP_LOGO_ALLOWED_MIME_TYPES
    ensures PlainTypes(types)
  {
    assert ';' !in types[0] && ';' !in types[1];
    assert ';' !in types[2] && ';' !in types[3];
  }

  predicate IsValidAppLogoDataUri(value: string) {
    IsValidImageDataUri(value, APP_LOGO_ALLOWED_MIME_TYPES, APP_LOGO_MAX_BYTES)
  }

  /** In particular, for logos and favicons: the limit is 256000 bytes. */
  lemma {:induction false} LogoIsAcceptedIffItFits(mime: string, bytes: seq<Octet>)
    requires ';' !in mime && bytes != []
    ensures IsValidAppLogoDataUri("data:" + mime + ";base64," + Encode(bytes))
      <==> mime in {"image/png", "image/jpeg", "image/webp", "image/svg+xml"} && |bytes| <= 256000
  {
    LogoTypesArePlain(APP_LOGO_ALLOWED_MIME_TYPES);
    FileIsAcceptedIffItFits(mime, bytes, APP_LOGO_ALLOWED_MIME_TYPES, APP_LOGO_MAX_BYTES);
  }
}
