/**
 * The combined Set-Cookie header: several cookies joined by ", " into one text, cut apart again at
 * the commas that a `name=` follows, and the session cookie read out of the result.
 */
module SetCookies {
  import opened Text
  import opened UriComponent
  import opened Basics

  /** The characters of a cookie name (the token of RFC 7230, section 3.2.6). */
  predicate IsTokenChar(c: char) {
    'A' <= c <= 'Z' || 'a' <= c <= 'z' || '0' <= c <= '9'
    || c in {'!', '#', '$', '%', '&', '\'', '*', '+', '-', '.', '^', '_', '`', '|', '~'}
  }

  /** What the name after a comma may be made of for the comma to be a cut. */
  lemma TokenAlphabet(c: char)
    ensures IsTokenChar(c) <==> IsAlphanumeric(c) || c in "!#$%&'*+-.^_`|~"
  {
    Alphabets(c);
  }

  predicate IsName(s: string) { s != "" && forall i :: 0 <= i < |s| ==> IsTokenChar(s[i]) }

  /** `s` begins with token characters and then '='; `some` says whether a token has begun. */
  predicate NameThenEquals(s: string, some: bool) {
    s != "" && (if s[0] == '=' then some else IsTokenChar(s[0]) && NameThenEquals(s[1..], true))
  }

  /** The lookahead of the splitting expression: blanks, a name, an equals sign. */
  predicate StartsCookie(s: string) { NameThenEquals(TrimStart(s), false) }

  /** Cuts at every comma that a cookie follows. */
  function SplitCookies(s: string): (cookies: seq<string>)
    ensures cookies != []
  {
    if s == "" then [""]
    else
      var rest := SplitCookies(s[1..]);
      if s[0] == ',' && StartsCookie(s[1..]) then [""] + rest else [[s[0]] + rest[0]] + rest[1..]
  }

  // ----- Cutting is lossless, and exact on well-formed clauses

  lemma {:induction false} SplitIsLossless(header: string)
    ensures Join(SplitCookies(header), ",") == header
  {
    if header != "" {
      var rest := SplitCookies(header[1..]);
      SplitIsLossless(header[1..]);
      var all := SplitCookies(header);
      assert header == [header[0]] + header[1..];
      if header[0] == ',' && StartsCookie(header[1..]) {
        assert all[1..] == rest;
      } else {
        assert all[1..] == rest[1..];
      }
    }
  }

  /** No comma of `clause` is one to cut at. */
  ghost predicate Uncut(clause: string) {
    forall i :: 0 <= i < |clause| && clause[i] == ',' ==> !StartsCookie(clause[i + 1..])
  }

  predicate Stops(c: char) { c == ',' || c == ';' }

  lemma {:induction false} NameEndsAtStop(s: string, some: bool, c: char, more: string)
    requires Stops(c)
    ensures NameThenEquals(s + [c] + more, some) == NameThenEquals(s, some)
  {
    var t := s + [c] + more;
    if s == "" {
      assert t[0] == c;
    } else {
      assert t[1..] == s[1..] + [c] + more;
      NameEndsAtStop(s[1..], true, c, more);
    }
  }

  /** The lookahead never sees past a comma or a semicolon. */
  lemma {:induction false} LookaheadIsLocal(s: string, c: char, more: string)
    requires Stops(c)
    ensures StartsCookie(s + [c] + more) == StartsCookie(s)
  {
    var t := s + [c] + more;
    if s == "" {
      assert t[0] == c && TrimStart(t) == t;
    } else if IsSpace(s[0]) {
      assert t[1..] == s[1..] + [c] + more;
      LookaheadIsLocal(s[1..], c, more);
    } else {
      NameEndsAtStop(s, false, c, more);
    }
  }

  lemma {:induction false} NoEqualsNoName(s: string, some: bool)
    requires '=' !in s
    ensures !NameThenEquals(s, some)
  {
    if s != "" && IsTokenChar(s[0]) {
      NoEqualsNoName(s[1..], true);
    }
  }

  lemma {:induction false} NoEqualsNoCookie(s: string)
    requires '=' !in s
    ensures !StartsCookie(s)
  {
    if s != "" && IsSpace(s[0]) {
      NoEqualsNoCookie(s[1..]);
    } else {
      NoEqualsNoName(s, false);
    }
  }

  lemma {:induction false} NameStartsCookie(name: string, some: bool, rest: string)
    requires (some || name != "") && forall i :: 0 <= i < |name| ==> IsTokenChar(name[i])
    ensures NameThenEquals(name + "=" + rest, some)
  {
    var t := name + "=" + rest;
    if name != "" {
      assert t[0] == name[0] && t[1..] == name[1..] + "=" + rest;
      NameStartsCookie(name[1..], true, rest);
    }
  }

  lemma {:induction false} UncutClauseStaysWhole(clause: string)
    requires Uncut(clause)
    ensures SplitCookies(clause) == [clause]
  {
    if clause != "" {
      UncutTail(clause);
      UncutClauseStaysWhole(clause[1..]);
      assert [clause[0]] + clause[1..] == clause;
    }
  }

  lemma UncutTail(clause: string)
    requires clause != "" && Uncut(clause)
    ensures Uncut(clause[1..]) && (clause[0] == ',' ==> !StartsCookie(clause[1..]))
  {
    forall i | 0 <= i < |clause[1..]| && clause[1..][i] == ','
      ensures !StartsCookie(clause[1..][i + 1..])
    {
      assert clause[1..][i + 1..] == clause[i + 2..] && clause[i + 1] == ',';
    }
  }

  lemma {:induction false} CutAfterClause(clause: string, rest: string)
    requires Uncut(clause) && StartsCookie(rest)
    ensures SplitCookies(clause + "," + rest) == [clause] + SplitCookies(rest)
  {
    var all := clause + "," + rest;
    if clause == "" {
      assert all == "," + rest && all[1..] == rest;
    } else {
      assert all[1..] == clause[1..] + "," + rest;
      UncutTail(clause);
      CutAfterClause(clause[1..], rest);
      LookaheadIsLocal(clause[1..], ',', rest);
      assert [clause[0]] + clause[1..] == clause;
    }
  }

  ghost predicate WellFormed(clause: string) { Uncut(clause) && StartsCookie(clause) }

  function Spaced(clauses: seq<string>): seq<string> {
    if clauses == [] then [] else [" " + clauses[0]] + Spaced(clauses[1..])
  }

  lemma SpacedClause(clause: string)
    requires WellFormed(clause)
    ensures WellFormed(" " + clause)
  {
    var c := " " + clause;
    assert c[1..] == clause;
    forall i | 0 <= i < |c| && c[i] == ','
      ensures !StartsCookie(c[i + 1..])
    {
      assert c[i + 1..] == clause[i..] && clause[i - 1] == ',';
    }
  }

  /** What follows the first clause of a joined header. */
  function Tail(clauses: seq<string>): string {
    if clauses == [] then "" else "," + ((" " + clauses[0]) + Tail(clauses[1..]))
  }

  lemma {:induction false} JoinIsHeadAndTail(clauses: seq<string>)
    requires clauses != []
    ensures Join(clauses, ", ") == clauses[0] + Tail(clauses[1..])
  {
    if |clauses| > 1 {
      var rest := clauses[1..];
      JoinIsHeadAndTail(rest);
      assert clauses[0] + ", " + (rest[0] + Tail(rest[1..]))
          == clauses[0] + ("," + ((" " + rest[0]) + Tail(rest[1..])));
    }
  }

  lemma {:induction false} SplitTail(head: string, clauses: seq<string>)
    requires Uncut(head) && forall i :: 0 <= i < |clauses| ==> WellFormed(clauses[i])
    ensures SplitCookies(head + Tail(clauses)) == [head] + Spaced(clauses)
    decreases |clauses|
  {
    if clauses == [] {
      UncutClauseStaysWhole(head);
      assert head + "" == head;
    } else {
      var next, rest := " " + clauses[0], Tail(clauses[1..]);
      SpacedClause(clauses[0]);
      SplitTail(next, clauses[1..]);
      TailKeepsStart(next, clauses[1..]);
      CutAfterClause(head, next + rest);
      assert head + ("," + (next + rest)) == head + "," + (next + rest);
    }
  }

  lemma TailKeepsStart(head: string, clauses: seq<string>)
    requires StartsCookie(head)
    ensures StartsCookie(head + Tail(clauses))
  {
    if clauses == [] {
      assert head + "" == head;
    } else {
      var more := (" " + clauses[0]) + Tail(clauses[1..]);
      LookaheadIsLocal(head, ',', more);
      assert head + ("," + more) == head + [','] + more;
    }
  }

  /** Joining clauses with ", " and cutting gives them back, the later ones with their blank. */
  lemma {:induction false} SplitUndoesJoin(clauses: seq<string>)
    requires clauses != [] && forall i :: 0 <= i < |clauses| ==> WellFormed(clauses[i])
    ensures SplitCookies(Join(clauses, ", ")) == [clauses[0]] + Spaced(clauses[1..])
  {
    JoinIsHeadAndTail(clauses);
    SplitTail(clauses[0], clauses[1..]);
  }

  // ----- Reading one clause

  datatype SameSite = Lax | Strict | CrossSite

  datatype ParsedCookie = ParsedCookie(
    value: string,
    httpOnly: bool,
    secure: bool,
    sameSite: Option<SameSite>,
    path: Option<string>,
    domain: Option<string>,
    maxAge: Option<real>,
    expires: Option<int>)

  /** The runtime's number and date conversions; `None` is a result that is not finite or not a date. */
  datatype Readers = Readers(number: string -> Option<real>, date: string -> Option<int>)

  function LowerChar(c: char): char { if 'A' <= c <= 'Z' then (c as int + 32) as char else c }

  function Lower(s: string): string { if s == "" then "" else [LowerChar(s[0])] + Lower(s[1..]) }

  /** The text before the first '=', and the text between the first and the second one, if any. */
  function KeyAndValue(attr: string): (string, Option<string>) {
    var parts := Split(attr, '=');
    (parts[0], if |parts| > 1 then Some(parts[1]) else None)
  }

  function SameSiteOf(v: Option<string>): Option<SameSite> {
    if v.None? then None
    else
      var s := Lower(v.value);
      if s == "lax" then Some(Lax)
      else if s == "strict" then Some(Strict)
      else if s == "none" then Some(CrossSite)
      else None
  }

  datatype Kind =
    HttpOnlyKind | SecureKind | SameSiteKind | PathKind | DomainKind | MaxAgeKind | ExpiresKind | OtherKind

  function KindOf(key: string): Kind {
    var k := Lower(key);
    if k == "httponly" then HttpOnlyKind
    else if k == "secure" then SecureKind
    else if k == "samesite" then SameSiteKind
    else if k == "path" then PathKind
    else if k == "domain" then DomainKind
    else if k == "max-age" then MaxAgeKind
    else if k == "expires" then ExpiresKind
    else OtherKind
  }

  function SetAttribute(p: ParsedCookie, kind: Kind, v: Option<string>, readers: Readers): ParsedCookie {
    match kind
    case HttpOnlyKind => p.(httpOnly := true)
    case SecureKind => p.(secure := true)
    case SameSiteKind => if SameSiteOf(v).Some? then p.(sameSite := SameSiteOf(v)) else p
    case PathKind => if v.Some? && v.value != "" then p.(path := v) else p
    case DomainKind => if v.Some? && v.value != "" then p.(domain := v) else p
    case MaxAgeKind => if v.Some? && readers.number(v.value).Some? then p.(maxAge := readers.number(v.value)) else p
    case ExpiresKind =>
      if v.Some? && v.value != "" && readers.date(v.value).Some? then p.(expires := readers.date(v.value)) else p
    case OtherKind => p
  }

  function ApplyAttribute(p: ParsedCookie, attr: string, readers: Readers): ParsedCookie {
    var (key, v) := KeyAndValue(attr);
    SetAttribute(p, KindOf(key), v, readers)
  }

  function ApplyAttributes(p: ParsedCookie, attrs: seq<string>, readers: Readers): ParsedCookie {
    if attrs == [] then p
    else ApplyAttribute(ApplyAttributes(p, attrs[..|attrs| - 1], readers), attrs[|attrs| - 1], readers)
  }

  function TrimAll(parts: seq<string>): seq<string> {
    if parts == [] then [] else [Trim(parts[0])] + TrimAll(parts[1..])
  }

  /** The value decoded once, or as it stands when it cannot be decoded. */
  function DecodeOnce(raw: string): string {
    match Decode(raw)
    case Some(value) => value
    case None => raw
  }

  function Fresh(value: string): ParsedCookie {
    ParsedCookie(value, false, false, None, None, None, None, None)
  }

  function ParseClause(clause: string, name: string, readers: Readers): Option<ParsedCookie> {
    var parts := TrimAll(Split(clause, ';'));
    var eq := IndexOf(parts[0], '=');
    if eq == |parts[0]| || parts[0][..eq] != name then None
    else Some(ApplyAttributes(Fresh(DecodeOnce(parts[0][eq + 1..])), parts[1..], readers))
  }

  function FirstNamed(clauses: seq<string>, name: string, readers: Readers): Option<ParsedCookie> {
    if clauses == [] then None
    else
      match ParseClause(clauses[0], name, readers)
      case Some(p) => Some(p)
      case None => FirstNamed(clauses[1..], name, readers)
  }

  function ParseHeader(header: string, name: string, readers: Readers): Option<ParsedCookie> {
    FirstNamed(SplitCookies(header), name, readers)
  }

  lemma EmptyHeaderHasNoCookie(name: string, readers: Readers)
    ensures ParseHeader("", name, readers) == None
  {
    assert Split("", ';') == [""] && TrimAll([""]) == [""];
    assert ParseClause("", name, readers) == None;
    assert FirstNamed([""], name, readers) == FirstNamed([""][1..], name, readers);
  }

  method ReadAttributes(start: ParsedCookie, attrs: seq<string>, readers: Readers) returns (parsed: ParsedCookie)
    ensures parsed == ApplyAttributes(start, attrs, readers)
  {
    parsed := start;
    for j := 0 to |attrs|
      invariant parsed == ApplyAttributes(start, attrs[..j], readers)
    {
      assert attrs[..j + 1][..j] == attrs[..j];
      parsed := ApplyAttribute(parsed, attrs[j], readers);
    }
    assert attrs[..|attrs|] == attrs;
  }

  lemma FirstNamedFrom(cookies: seq<string>, i: nat, name: string, readers: Readers)
    requires i < |cookies|
    ensures FirstNamed(cookies[i..], name, readers) ==
      if ParseClause(cookies[i], name, readers).Some? then ParseClause(cookies[i], name, readers)
      else FirstNamed(cookies[i + 1..], name, readers)
  {
    assert cookies[i..][1..] == cookies[i + 1..];
  }

  method ParseSessionCookie(header: string, name: string, readers: Readers) returns (r: Option<ParsedCookie>)
    ensures r == ParseHeader(header, name, readers)
  {
    var cookies := SplitCookies(header);
    for i := 0 to |cookies|
      invariant ParseHeader(header, name, readers) == FirstNamed(cookies[i..], name, readers)
    {
      FirstNamedFrom(cookies, i, name, readers);
      var parts := TrimAll(Split(cookies[i], ';'));
      var namePair, attrs := parts[0], parts[1..];
      var eq := IndexOf(namePair, '=');
      if eq == |namePair| || namePair[..eq] != name {
        continue;
      }
      var parsed := ReadAttributes(Fresh(DecodeOnce(namePair[eq + 1..])), attrs, readers);
      return Some(parsed);
    }
    return None;
  }

  // ----- Reading undoes writing

  /** An attribute as the auth server writes it; numbers and dates keep the text they came as. */
  datatype Attribute =
    | HttpOnly
    | Secure
    | SameSiteIs(site: SameSite)
    | Path(path: string)
    | Domain(domain: string)
    | MaxAge(text: string, seconds: real)
    | Expires(text: string, date: int)

  /** A text that stays one attribute value: no semicolon, no comma to cut at, no blank at its end. */
  ghost predicate CleanText(s: string) {
    ';' !in s && Uncut(s) && (s != "" ==> !IsSpace(s[|s| - 1]))
  }

  /** What is read of a text: the part before its first '='. */
  function Cut(s: string): string { s[..IndexOf(s, '=')] }

  ghost predicate Writable(a: Attribute, readers: Readers) {
    match a
    case HttpOnly => true
    case Secure => true
    case SameSiteIs(_) => true
    case Path(p) => CleanText(p)
    case Domain(d) => CleanText(d)
    case MaxAge(t, n) => CleanText(t) && readers.number(Cut(t)) == Some(n)
    case Expires(t, d) => CleanText(t) && Cut(t) != "" && readers.date(Cut(t)) == Some(d)
  }

  function Keyword(a: Attribute): string {
    match a
    case HttpOnly => "HttpOnly"
    case Secure => "Secure"
    case SameSiteIs(_) => "SameSite"
    case Path(_) => "Path"
    case Domain(_) => "Domain"
    case MaxAge(_, _) => "Max-Age"
    case Expires(_, _) => "Expires"
  }

  function ValueText(a: Attribute): string {
    match a
    case HttpOnly => ""
    case Secure => ""
    case SameSiteIs(Lax) => "Lax"
    case SameSiteIs(Strict) => "Strict"
    case SameSiteIs(CrossSite) => "None"
    case Path(p) => p
    case Domain(d) => d
    case MaxAge(t, _) => t
    case Expires(t, _) => t
  }

  function Write(a: Attribute): string {
    if a.HttpOnly? || a.Secure? then Keyword(a) else Keyword(a) + "=" + ValueText(a)
  }

  function Meant(p: ParsedCookie, a: Attribute): ParsedCookie {
    match a
    case HttpOnly => p.(httpOnly := true)
    case Secure => p.(secure := true)
    case SameSiteIs(s) => p.(sameSite := Some(s))
    case Path(x) => if Cut(x) == "" then p else p.(path := Some(Cut(x)))
    case Domain(x) => if Cut(x) == "" then p else p.(domain := Some(Cut(x)))
    case MaxAge(_, n) => p.(maxAge := Some(n))
    case Expires(_, d) => p.(expires := Some(d))
  }

  /** The cookie that a value and attributes mean; the last one of a kind counts. */
  function Meaning(value: string, attrs: seq<Attribute>): ParsedCookie {
    if attrs == [] then Fresh(value) else Meant(Meaning(value, attrs[..|attrs| - 1]), attrs[|attrs| - 1])
  }

  function WriteAll(attrs: seq<Attribute>): seq<string> {
    if attrs == [] then [] else WriteAll(attrs[..|attrs| - 1]) + [Write(attrs[|attrs| - 1])]
  }

  /** Parts of a clause, each but the first after "; ". */
  function Glue(head: string, parts: seq<string>): string {
    if parts == [] then head else Glue(head, parts[..|parts| - 1]) + ";" + (" " + parts[|parts| - 1])
  }

  function WriteCookie(name: string, value: string, attrs: seq<Attribute>): string {
    Glue(name + "=" + Encode(value), WriteAll(attrs))
  }

  lemma {:induction false} FirstPieceIsCut(s: string)
    ensures Split(s, '=')[0] == Cut(s)
  {
    if s != "" && s[0] != '=' {
      FirstPieceIsCut(s[1..]);
    }
  }

  lemma KeyAndValueOfPair(key: string, value: string)
    requires '=' !in key
    ensures KeyAndValue(key + "=" + value) == (key, Some(Cut(value))) && KeyAndValue(key) == (key, None)
  {
    SplitHead(key, '=', value);
    FirstPieceIsCut(value);
  }

  lemma {:induction false} LowerLength(s: string)
    ensures |Lower(s)| == |s|
    ensures forall i :: 0 <= i < |s| ==> Lower(s)[i] == LowerChar(s[i])
  {
    if s != "" {
      LowerLength(s[1..]);
    }
  }

  lemma LowerIs(s: string, t: string)
    requires |s| == |t| && forall i :: 0 <= i < |s| ==> t[i] == LowerChar(s[i])
    ensures Lower(s) == t
  {
    LowerLength(s);
  }

  function AttributeKind(a: Attribute): Kind {
    match a
    case HttpOnly => HttpOnlyKind
    case Secure => SecureKind
    case SameSiteIs(_) => SameSiteKind
    case Path(_) => PathKind
    case Domain(_) => DomainKind
    case MaxAge(_, _) => MaxAgeKind
    case Expires(_, _) => ExpiresKind
  }

  lemma HttpOnlyKeyword()
    ensures KindOf("HttpOnly") == HttpOnlyKind
  {
    LowerIs("HttpOnly", "httponly");
  }

  lemma SecureKeyword()
    ensures KindOf("Secure") == SecureKind
  {
    LowerIs("Secure", "secure");
  }

  lemma SameSiteKeyword()
    ensures KindOf("SameSite") == SameSiteKind
  {
    LowerIs("SameSite", "samesite");
    assert "samesite"[0] != "httponly"[0];
  }

  lemma PathKeyword()
    ensures KindOf("Path") == PathKind
  {
    LowerIs("Path", "path");
  }

  lemma DomainKeyword()
    ensures KindOf("Domain") == DomainKind
  {
    LowerIs("Domain", "domain");
    assert "domain"[0] != "secure"[0];
  }

  lemma MaxAgeKeyword()
    ensures KindOf("Max-Age") == MaxAgeKind
  {
    LowerIs("Max-Age", "max-age");
  }

  lemma ExpiresKeyword()
    ensures KindOf("Expires") == ExpiresKind
  {
    LowerIs("Expires", "expires");
    assert "expires"[0] != "max-age"[0];
  }

  lemma KeywordKinds(a: Attribute)
    ensures KindOf(Keyword(a)) == AttributeKind(a)
  {
    match a
    case HttpOnly => HttpOnlyKeyword();
    case Secure => SecureKeyword();
    case SameSiteIs(_) => SameSiteKeyword();
    case Path(_) => PathKeyword();
    case Domain(_) => DomainKeyword();
    case MaxAge(_, _) => MaxAgeKeyword();
    case Expires(_, _) => ExpiresKeyword();
  }

  lemma SameSiteTexts(s: SameSite)
    ensures SameSiteOf(Some(ValueText(SameSiteIs(s)))) == Some(s)
  {
    LowerIs("Lax", "lax");
    LowerIs("Strict", "strict");
    LowerIs("None", "none");
  }

  lemma SameSiteIsUncut(s: SameSite)
    ensures '=' !in ValueText(SameSiteIs(s)) && Cut(ValueText(SameSiteIs(s))) == ValueText(SameSiteIs(s))
  {
  }

  /** Each attribute sets the field it means, and only that. */
  lemma ReadsAsMeant(p: ParsedCookie, a: Attribute, readers: Readers)
    requires Writable(a, readers)
    ensures ApplyAttribute(p, Write(a), readers) == Meant(p, a)
  {
    KeywordKinds(a);
    KeyAndValueOfPair(Keyword(a), ValueText(a));
    if a.SameSiteIs? {
      SameSiteIsUncut(a.site);
      SameSiteTexts(a.site);
    }
  }

  lemma CutIsWholeIffNoEquals(text: string)
    ensures Cut(text) == text <==> '=' !in text
  {
    var i := IndexOf(text, '=');
    if i == |text| {
      assert text[..i] == text;
    }
  }

  /** A path comes back whole exactly when it contains no '='. */
  lemma PathIsWholeIffNoEquals(p: ParsedCookie, text: string, readers: Readers)
    requires text != "" && CleanText(text) && p.path != Some(text)
    ensures ApplyAttribute(p, Write(Path(text)), readers) == p.(path := Some(text)) <==> '=' !in text
  {
    ReadsAsMeant(p, Path(text), readers);
    CutIsWholeIffNoEquals(text);
  }

  /** And so does a domain. */
  lemma DomainIsWholeIffNoEquals(p: ParsedCookie, text: string, readers: Readers)
    requires text != "" && CleanText(text) && p.domain != Some(text)
    ensures ApplyAttribute(p, Write(Domain(text)), readers) == p.(domain := Some(text)) <==> '=' !in text
  {
    ReadsAsMeant(p, Domain(text), readers);
    CutIsWholeIffNoEquals(text);
  }

  /** Texts without '=', such as dates with their commas, are clean. */
  lemma NoEqualsIsClean(text: string)
    requires Trimmed(text) && ';' !in text && '=' !in text
    ensures CleanText(text)
  {
    forall i | 0 <= i < |text| && text[i] == ','
      ensures !StartsCookie(text[i + 1..])
    {
      NoEqualsNoCookie(text[i + 1..]);
    }
  }

  // ----- What a list of attributes means

  /** The cookie has what the attribute says. */
  predicate Has(p: ParsedCookie, a: Attribute) {
    match a
    case HttpOnly => p.httpOnly
    case Secure => p.secure
    case SameSiteIs(site) => p.sameSite == Some(site)
    case Path(text) => p.path == Some(Cut(text))
    case Domain(text) => p.domain == Some(Cut(text))
    case MaxAge(_, seconds) => p.maxAge == Some(seconds)
    case Expires(_, date) => p.expires == Some(date)
  }

  /** Of several attributes of one kind the last one counts; an empty path or domain does not. */
  lemma {:induction false} LastOfKindCounts(value: string, attrs: seq<Attribute>, i: nat)
    requires i < |attrs| && forall j :: i < j < |attrs| ==> AttributeKind(attrs[i]) != AttributeKind(attrs[j])
    requires attrs[i].Path? ==> Cut(attrs[i].path) != ""
    requires attrs[i].Domain? ==> Cut(attrs[i].domain) != ""
    ensures Has(Meaning(value, attrs), attrs[i])
  {
    if i < |attrs| - 1 {
      LastOfKindCounts(value, attrs[..|attrs| - 1], i);
    }
  }

  ghost predicate Gives(attrs: seq<Attribute>, k: Kind) {
    exists i :: 0 <= i < |attrs| && AttributeKind(attrs[i]) == k
  }

  lemma GivesNext(attrs: seq<Attribute>, last: Attribute, k: Kind)
    ensures Gives(attrs, k) || AttributeKind(last) == k ==> Gives(attrs + [last], k)
  {
    var all := attrs + [last];
    assert all[|attrs|] == last;
    if i :| 0 <= i < |attrs| && AttributeKind(attrs[i]) == k {
      assert all[i] == attrs[i];
    }
  }

  /** What a cookie has set beyond its value. */
  predicate IsSet(p: ParsedCookie, k: Kind) {
    match k
    case HttpOnlyKind => p.httpOnly
    case SecureKind => p.secure
    case SameSiteKind => p.sameSite.Some?
    case PathKind => p.path.Some?
    case DomainKind => p.domain.Some?
    case MaxAgeKind => p.maxAge.Some?
    case ExpiresKind => p.expires.Some?
    case OtherKind => false
  }

  /** And nothing is set that no attribute says; the value is the one written. */
  lemma {:induction false} AbsentKindsAreUnset(value: string, attrs: seq<Attribute>, k: Kind)
    ensures Meaning(value, attrs).value == value
    ensures IsSet(Meaning(value, attrs), k) ==> Gives(attrs, k)
  {
    if attrs != [] {
      var n := |attrs| - 1;
      AbsentKindsAreUnset(value, attrs[..n], k);
      GivesNext(attrs[..n], attrs[n], k);
      assert attrs[..n] + [attrs[n]] == attrs;
    }
  }

  // ----- What is not understood

  /** An attribute of no known name, or whose value cannot be used, changes nothing. */
  lemma UnusableAttributesAreIgnored(p: ParsedCookie, key: string, value: string, readers: Readers)
    requires '=' !in key
    ensures KindOf(key).OtherKind? ==>
      ApplyAttribute(p, key, readers) == p && ApplyAttribute(p, key + "=" + value, readers) == p
    ensures KindOf(key).MaxAgeKind? && readers.number(Cut(value)).None? ==>
      ApplyAttribute(p, key + "=" + value, readers) == p
    ensures KindOf(key).ExpiresKind? && readers.date(Cut(value)).None? ==>
      ApplyAttribute(p, key + "=" + value, readers) == p
    ensures KindOf(key).SameSiteKind? && Lower(Cut(value)) !in {"lax", "strict", "none"} ==>
      ApplyAttribute(p, key + "=" + value, readers) == p
  {
    KeyAndValueOfPair(key, value);
  }

  predicate IsCapitalOf(a: char, b: char) { 'A' <= a <= 'Z' && b as int == a as int + 32 }

  predicate SameLetters(s: string, t: string) {
    |s| == |t| && forall i :: 0 <= i < |s| ==> s[i] == t[i] || IsCapitalOf(s[i], t[i]) || IsCapitalOf(t[i], s[i])
  }

  /** Names of attributes and the value of SameSite are read in capitals and small letters alike. */
  lemma CaseDoesNotMatter(s: string, t: string)
    requires SameLetters(s, t)
    ensures KindOf(s) == KindOf(t) && SameSiteOf(Some(s)) == SameSiteOf(Some(t))
  {
    LowerLength(s);
    LowerLength(t);
    assert Lower(s) == Lower(t);
  }

  /** A value that cannot be decoded is kept as it stands. */
  lemma UndecodableValueIsKept(name: string, raw: string, readers: Readers)
    requires IsName(name) && Decode(raw).None? && ';' !in raw && Trimmed(name + "=" + raw)
    ensures ParseClause(name + "=" + raw, name, readers) == Some(Fresh(raw))
  {
    var pair := name + "=" + raw;
    assert ';' !in pair;
    OnePartOnly(pair);
    PairIsRead(name, raw);
    assert [pair][1..] == [];
  }

  lemma OnePartOnly(pair: string)
    requires ';' !in pair && Trimmed(pair)
    ensures TrimAll(Split(pair, ';')) == [pair]
  {
    SplitHead(pair, ';', "");
    TrimPadded("", pair, "");
    assert "" + pair + "" == pair;
    assert [pair][1..] == [];
  }

  lemma PairIsRead(name: string, raw: string)
    requires '=' !in name
    ensures var pair := name + "=" + raw;
      IndexOf(pair, '=') == |name| && pair[..|name|] == name && pair[|name| + 1..] == raw
  {
    IndexOfFirst(name, '=', raw);
  }

  // ----- A written cookie, read back from anywhere in a header

  lemma {:induction false} GlueSplits(head: string, parts: seq<string>)
    requires ';' !in head && forall i :: 0 <= i < |parts| ==> ';' !in parts[i]
    ensures Split(Glue(head, parts), ';') == [head] + Spaced(parts)
  {
    if parts == [] {
      SplitHead(head, ';', "");
    } else {
      var n := |parts| - 1;
      GlueSplits(head, parts[..n]);
      SplitHead(" " + parts[n], ';', "");
      SplitConcat(Glue(head, parts[..n]), ';', " " + parts[n]);
      SpacedLast(parts);
    }
  }

  lemma {:induction false} SpacedLast(parts: seq<string>)
    requires parts != []
    ensures Spaced(parts) == Spaced(parts[..|parts| - 1]) + [" " + parts[|parts| - 1]]
  {
    if |parts| == 1 {
      assert parts[1..] == [] && parts[..0] == [];
    } else {
      SpacedLast(parts[1..]);
      assert parts[1..][..|parts| - 2] == parts[..|parts| - 1][1..];
    }
  }

  lemma {:induction false} TrimSpaced(parts: seq<string>)
    requires forall i :: 0 <= i < |parts| ==> Trimmed(parts[i])
    ensures TrimAll(Spaced(parts)) == parts
  {
    if parts != [] {
      TrimPadded(" ", parts[0], "");
      assert " " + parts[0] + "" == " " + parts[0];
      TrimSpaced(parts[1..]);
    }
  }

  lemma KeywordPart(a: Attribute)
    ensures Keyword(a) != "" && Trimmed(Keyword(a)) && ';' !in Keyword(a) && '=' !in Keyword(a) && ',' !in Keyword(a)
  {
  }

  lemma ValuePart(a: Attribute, readers: Readers)
    requires Writable(a, readers) && !a.HttpOnly? && !a.Secure?
    ensures CleanText(ValueText(a))
  {
    if a.SameSiteIs? {
      SameSiteIsClean(a.site);
    }
  }

  lemma SameSiteIsClean(s: SameSite)
    ensures CleanText(ValueText(SameSiteIs(s)))
  {
    assert ',' !in ValueText(SameSiteIs(s));
  }

  lemma PairStaysTrimmed(k: string, v: string)
    requires k != "" && Trimmed(k) && ';' !in k && CleanText(v)
    ensures Trimmed(k + "=" + v) && ';' !in k + "=" + v
  {
    var p := k + "=" + v;
    assert p[0] == k[0] && p[|p| - 1] == if v == "" then '=' else v[|v| - 1];
  }

  lemma WrittenPart(a: Attribute, readers: Readers)
    requires Writable(a, readers)
    ensures ';' !in Write(a) && Trimmed(Write(a))
  {
    KeywordPart(a);
    if !a.HttpOnly? && !a.Secure? {
      ValuePart(a, readers);
      PairStaysTrimmed(Keyword(a), ValueText(a));
    }
  }

  lemma UncutPair(key: string, value: string)
    requires ',' !in key && Uncut(value)
    ensures Uncut(key + "=" + value)
  {
    var c := key + "=" + value;
    assert forall j :: 0 <= j < |key| ==> c[j] == key[j];
    forall i | 0 <= i < |c| && c[i] == ','
      ensures !StartsCookie(c[i + 1..])
    {
      assert c[i + 1..] == value[i - |key|..] && value[i - |key| - 1] == ',';
    }
  }

  lemma UncutGlued(a: string, b: string)
    requires Uncut(a) && Uncut(b)
    ensures Uncut(a + ";" + b)
  {
    var c := a + ";" + b;
    forall i | 0 <= i < |c| && c[i] == ','
      ensures !StartsCookie(c[i + 1..])
    {
      if i < |a| {
        assert c[i + 1..] == a[i + 1..] + [';'] + b && a[i] == ',';
        LookaheadIsLocal(a[i + 1..], ';', b);
      } else {
        assert c[i + 1..] == b[i - |a|..] && b[i - |a| - 1] == ',';
      }
    }
  }

  lemma UncutAttribute(a: Attribute, readers: Readers)
    requires Writable(a, readers)
    ensures Uncut(" " + Write(a))
  {
    KeywordPart(a);
    if a.HttpOnly? || a.Secure? {
      assert ',' !in " " + Write(a);
    } else {
      ValuePart(a, readers);
      UncutPair(" " + Keyword(a), ValueText(a));
      assert " " + (Keyword(a) + "=" + ValueText(a)) == (" " + Keyword(a)) + "=" + ValueText(a);
    }
  }

  lemma {:induction false} UncutWritten(head: string, attrs: seq<Attribute>, readers: Readers)
    requires Uncut(head) && forall i :: 0 <= i < |attrs| ==> Writable(attrs[i], readers)
    ensures Uncut(Glue(head, WriteAll(attrs)))
  {
    if attrs != [] {
      var n := |attrs| - 1;
      UncutWritten(head, attrs[..n], readers);
      UncutAttribute(attrs[n], readers);
      UncutGlued(Glue(head, WriteAll(attrs[..n])), " " + Write(attrs[n]));
      GlueLast(head, WriteAll(attrs[..n]), Write(attrs[n]));
    }
  }

  lemma GlueLast(head: string, parts: seq<string>, last: string)
    ensures Glue(head, parts + [last]) == Glue(head, parts) + ";" + (" " + last)
  {
    assert (parts + [last])[..|parts|] == parts;
  }

  lemma {:induction false} GlueStartsCookie(head: string, parts: seq<string>)
    requires StartsCookie(head)
    ensures StartsCookie(Glue(head, parts))
  {
    if parts != [] {
      var before, last := parts[..|parts| - 1], " " + parts[|parts| - 1];
      GlueStartsCookie(head, before);
      LookaheadIsLocal(Glue(head, before), ';', last);
    }
  }

  lemma EncodedIsPlain(value: string)
    ensures forall c :: c in Encode(value) ==> !IsSpace(c) && c !in {'=', ';', ','}
  {
    EncodeAlphabet(value);
  }

  lemma PairShape(name: string, encoded: string)
    requires IsName(name) && forall c :: c in encoded ==> !IsSpace(c) && c !in {'=', ';', ','}
    ensures var pair := name + "=" + encoded; Trimmed(pair) && ';' !in pair
  {
    var pair := name + "=" + encoded;
    assert pair[0] == name[0];
    assert encoded != "" ==> pair[|pair| - 1] == encoded[|encoded| - 1] && encoded[|encoded| - 1] in encoded;
  }

  lemma PairText(name: string, value: string)
    requires IsName(name)
    ensures var pair := name + "=" + Encode(value);
      Trimmed(pair) && ';' !in pair && Uncut(pair) && StartsCookie(pair)
      && IndexOf(pair, '=') == |name| && pair[..|name|] == name && pair[|name| + 1..] == Encode(value)
  {
    var pair := name + "=" + Encode(value);
    EncodedIsPlain(value);
    PairShape(name, Encode(value));
    assert ',' !in Encode(value);
    UncutPair(name, Encode(value));
    IndexOfFirst(name, '=', Encode(value));
    assert TrimStart(pair) == pair by { assert pair[0] == name[0]; }
    NameStartsCookie(name, false, Encode(value));
  }

  /** A clause the auth server writes can be joined to others and cut out again. */
  lemma WrittenIsWellFormed(name: string, value: string, attrs: seq<Attribute>, readers: Readers)
    requires IsName(name) && forall i :: 0 <= i < |attrs| ==> Writable(attrs[i], readers)
    ensures WellFormed(WriteCookie(name, value, attrs))
  {
    PairText(name, value);
    UncutWritten(name + "=" + Encode(value), attrs, readers);
    GlueStartsCookie(name + "=" + Encode(value), WriteAll(attrs));
  }

  lemma {:induction false} WrittenParts(attrs: seq<Attribute>, readers: Readers)
    requires forall i :: 0 <= i < |attrs| ==> Writable(attrs[i], readers)
    ensures |WriteAll(attrs)| == |attrs|
    ensures forall i :: 0 <= i < |attrs| ==> ';' !in WriteAll(attrs)[i] && Trimmed(WriteAll(attrs)[i])
  {
    if attrs != [] {
      WrittenParts(attrs[..|attrs| - 1], readers);
      WrittenPart(attrs[|attrs| - 1], readers);
    }
  }

  lemma {:induction false} AttributesReadAsMeant(value: string, attrs: seq<Attribute>, readers: Readers)
    requires forall i :: 0 <= i < |attrs| ==> Writable(attrs[i], readers)
    ensures ApplyAttributes(Fresh(value), WriteAll(attrs), readers) == Meaning(value, attrs)
  {
    if attrs != [] {
      var n := |attrs| - 1;
      AttributesReadAsMeant(value, attrs[..n], readers);
      ReadsAsMeant(Meaning(value, attrs[..n]), attrs[n], readers);
      var written := WriteAll(attrs);
      assert written[..|written| - 1] == WriteAll(attrs[..n]);
    }
  }

  lemma {:induction false} WrittenPartsOf(name: string, value: string, attrs: seq<Attribute>, readers: Readers)
    requires IsName(name) && forall i :: 0 <= i < |attrs| ==> Writable(attrs[i], readers)
    ensures TrimAll(Split(WriteCookie(name, value, attrs), ';')) == [name + "=" + Encode(value)] + WriteAll(attrs)
  {
    var pair := name + "=" + Encode(value);
    PairText(name, value);
    WrittenParts(attrs, readers);
    GlueSplits(pair, WriteAll(attrs));
    TrimSpaced(WriteAll(attrs));
    TrimPadded("", pair, "");
    assert "" + pair + "" == pair;
  }

  lemma {:induction false} ParseUndoesWrite(name: string, value: string, attrs: seq<Attribute>, readers: Readers)
    requires IsName(name) && forall i :: 0 <= i < |attrs| ==> Writable(attrs[i], readers)
    ensures ParseClause(WriteCookie(name, value, attrs), name, readers) == Some(Meaning(value, attrs))
  {
    var pair := name + "=" + Encode(value);
    WrittenPartsOf(name, value, attrs, readers);
    PairText(name, value);
    DecodeUndoesEncode(value);
    AttributesReadAsMeant(value, attrs, readers);
    assert ([pair] + WriteAll(attrs))[1..] == WriteAll(attrs);
  }

  lemma LeadingBlankIsIgnored(clause: string, name: string, readers: Readers)
    ensures ParseClause(" " + clause, name, readers) == ParseClause(clause, name, readers)
  {
    var spaced := " " + clause;
    assert spaced[1..] == clause;
    var parts := Split(clause, ';');
    assert Split(spaced, ';') == [[' '] + parts[0]] + parts[1..];
    assert ([' '] + parts[0])[1..] == parts[0];
  }

  lemma {:induction false} FirstNamedAmongSpaced(clauses: seq<string>, name: string, readers: Readers)
    ensures FirstNamed(Spaced(clauses), name, readers) == FirstNamed(clauses, name, readers)
  {
    if clauses != [] {
      LeadingBlankIsIgnored(clauses[0], name, readers);
      FirstNamedAmongSpaced(clauses[1..], name, readers);
      assert Spaced(clauses)[1..] == Spaced(clauses[1..]);
    }
  }

  lemma {:induction false} FirstNamedSkips(
    before: seq<string>, clause: string, after: seq<string>, name: string, readers: Readers)
    requires forall i :: 0 <= i < |before| ==> ParseClause(before[i], name, readers).None?
    requires ParseClause(clause, name, readers).Some?
    ensures FirstNamed(before + [clause] + after, name, readers) == ParseClause(clause, name, readers)
  {
    var all := before + [clause] + after;
    if before == [] {
      assert all[0] == clause;
    } else {
      assert all[0] == before[0] && all[1..] == before[1..] + [clause] + after;
      FirstNamedSkips(before[1..], clause, after, name, readers);
    }
  }

  /** Joining well-formed clauses and parsing finds the first one of the wanted name. */
  lemma {:induction false} ParseOfJoined(clauses: seq<string>, name: string, readers: Readers)
    requires clauses != [] && forall i :: 0 <= i < |clauses| ==> WellFormed(clauses[i])
    ensures ParseHeader(Join(clauses, ", "), name, readers) == FirstNamed(clauses, name, readers)
  {
    SplitUndoesJoin(clauses);
    FirstNamedAmongSpaced(clauses[1..], name, readers);
    var cut := [clauses[0]] + Spaced(clauses[1..]);
    assert cut[1..] == Spaced(clauses[1..]);
  }

  lemma AllWellFormed(before: seq<string>, clause: string, after: seq<string>)
    requires forall i :: 0 <= i < |before| ==> WellFormed(before[i])
    requires WellFormed(clause)
    requires forall i :: 0 <= i < |after| ==> WellFormed(after[i])
    ensures forall i :: 0 <= i < |before + [clause] + after| ==> WellFormed((before + [clause] + after)[i])
  {
  }

  /** The session cookie that was written is the session cookie that is read: whatever well-formed
      clauses surround it, its value and attributes come back, dates with commas included. */
  lemma {:induction false} SessionCookieRoundTrip(
    before: seq<string>, name: string, value: string, attrs: seq<Attribute>, after: seq<string>, readers: Readers)
    requires IsName(name) && forall i :: 0 <= i < |attrs| ==> Writable(attrs[i], readers)
    requires forall i :: 0 <= i < |before| ==> WellFormed(before[i]) && ParseClause(before[i], name, readers).None?
    requires forall i :: 0 <= i < |after| ==> WellFormed(after[i])
    ensures ParseHeader(Join(before + [WriteCookie(name, value, attrs)] + after, ", "), name, readers)
         == Some(Meaning(value, attrs))
  {
    WrittenIsWellFormed(name, value, attrs, readers);
    ParseUndoesWrite(name, value, attrs, readers);
    var clause := WriteCookie(name, value, attrs);
    AllWellFormed(before, clause, after);
    ParseOfJoined(before + [clause] + after, name, readers);
    FirstNamedSkips(before, clause, after, name, readers);
  }

  /** The cookie store encodes the value again.  What reaches the browser is what the auth server
      sent, to the character, exactly when that is spelled as an encoder spells it. */
  lemma ReserialisingIsIdentityIffEncoded(raw: string)
    ensures Encode(DecodeOnce(raw)) == raw <==> Canonical(raw)
    ensures Encode(DecodeOnce(raw)) == raw <==> exists value :: raw == Encode(value)
  {
    OutputsAreCanonical(raw);
    if value :| raw == Encode(value) {
      DecodeUndoesEncode(value);
    }
  }
}
