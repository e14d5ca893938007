/**
 * `{{token}}` substitution: one left-to-right pass that replaces the tokens it knows and leaves
 * everything else, unknown tokens included, as it stands.
 */
module Templates {
  import opened Text
  import opened Basics

  predicate IsWordChar(c: char) { 'A' <= c <= 'Z' || 'a' <= c <= 'z' || '0' <= c <= '9' || c == '_' }

  /** What a token may be made of. */
  lemma WordAlphabet(c: char)
    ensures IsWordChar(c) <==> IsAlphanumeric(c) || c == '_'
  {
    Alphabets(c);
  }

  predicate IsWord(s: string) { s != "" && forall i :: 0 <= i < |s| ==> IsWordChar(s[i]) }

  function TokenText(key: string): string { "{{" + key + "}}" }

  /** The token expression matches at the start of `s`, with `key` as its group. */
  predicate StartsToken(s: string, key: string) { IsWord(key) && TokenText(key) <= s }

  function WordPrefix(s: string): string {
    if s != "" && IsWordChar(s[0]) then [s[0]] + WordPrefix(s[1..]) else ""
  }

  /** The token at the start of `s`, found by taking the longest word between the braces. */
  function TokenAt(s: string): Option<string> {
    if |s| < 2 || s[0] != '{' || s[1] != '{' then None
    else
      var key := WordPrefix(s[2..]);
      if StartsToken(s, key) then Some(key) else None
  }

  /** A scanned template: single characters that stand for themselves, and tokens. */
  datatype Piece = Char(c: char) | Token(key: string) {
    function Text(): string {
      match this
      case Char(c) => [c]
      case Token(key) => TokenText(key)
    }

    function Output(vars: map<string, string>): string {
      if Token? && key in vars then vars[key] else Text()
    }
  }

  function Scan(template: string): seq<Piece>
    decreases |template|
  {
    if template == "" then []
    else
      match TokenAt(template)
      case Some(key) => [Token(key)] + Scan(template[|TokenText(key)|..])
      case None => [Char(template[0])] + Scan(template[1..])
  }

  function Texts(pieces: seq<Piece>): string {
    if pieces == [] then "" else pieces[0].Text() + Texts(pieces[1..])
  }

  function Outputs(pieces: seq<Piece>, vars: map<string, string>): string {
    if pieces == [] then "" else pieces[0].Output(vars) + Outputs(pieces[1..], vars)
  }

  function Render(template: string, vars: map<string, string>): string {
    Outputs(Scan(template), vars)
  }

  lemma {:induction false} WordPrefixIsLongest(word: string, rest: string)
    requires forall i :: 0 <= i < |word| ==> IsWordChar(word[i])
    requires rest == "" || !IsWordChar(rest[0])
    ensures WordPrefix(word + rest) == word
  {
    if word == "" {
      assert word + rest == rest;
    } else {
      assert (word + rest)[1..] == word[1..] + rest;
      WordPrefixIsLongest(word[1..], rest);
    }
  }

  /** Taking the longest word misses no match: at any place at most one token can start. */
  lemma TokenAtFindsTheToken(s: string, key: string)
    requires StartsToken(s, key)
    ensures TokenAt(s) == Some(key)
  {
    var rest := s[2 + |key|..];
    assert rest[0] == TokenText(key)[2 + |key|];
    assert s[2..] == key + rest by {
      assert forall i :: 0 <= i < |key| ==> key[i] == TokenText(key)[2 + i];
    }
    WordPrefixIsLongest(key, rest);
    assert s[0] == TokenText(key)[0] && s[1] == TokenText(key)[1];
  }

  /** What a global replace promises of its scan: the pieces spell the template, tokens are tokens,
      and no token starts where a single character was passed over. */
  ghost predicate IsScanOf(pieces: seq<Piece>, template: string) {
    && Texts(pieces) == template
    && forall i :: 0 <= i < |pieces| ==>
         match pieces[i]
         case Token(key) => IsWord(key)
         case Char(_) => !exists key :: StartsToken(Texts(pieces[i..]), key)
  }

  lemma {:induction false} ScanIsAScan(template: string)
    ensures IsScanOf(Scan(template), template)
    decreases |template|
  {
    if template != "" {
      var pieces := Scan(template);
      var n := |pieces[0].Text()|;
      ScanIsAScan(template[n..]);
      assert pieces[1..] == Scan(template[n..]);
      assert pieces[0].Text() + template[n..] == template;
      forall i | 0 <= i < |pieces|
        ensures match pieces[i]
          case Token(key) => IsWord(key)
          case Char(_) => !exists key :: StartsToken(Texts(pieces[i..]), key)
      {
        if i == 0 {
          assert pieces[0..] == pieces;
          if key :| StartsToken(template, key) {
            TokenAtFindsTheToken(template, key);
          }
        } else {
          assert pieces[i..] == pieces[1..][i - 1..] && pieces[i] == pieces[1..][i - 1];
        }
      }
    }
  }

  /** That promise pins the scan down completely. */
  lemma {:induction false} ScanIsUnique(pieces: seq<Piece>, template: string)
    ensures IsScanOf(pieces, template) <==> pieces == Scan(template)
    decreases |pieces|
  {
    ScanIsAScan(template);
    if IsScanOf(pieces, template) && pieces != [] {
      var rest := Texts(pieces[1..]);
      assert template == pieces[0].Text() + rest && template[|pieces[0].Text()|..] == rest;
      forall i | 0 <= i < |pieces[1..]|
        ensures pieces[1..][i] == pieces[i + 1] && pieces[1..][i..] == pieces[i + 1..]
      {
      }
      ScanIsUnique(pieces[1..], rest);
      assert pieces[0..] == pieces;
      match pieces[0]
      case Token(key) => TokenAtFindsTheToken(template, key);
      case Char(c) =>
        assert TokenAt(template).Some? ==> StartsToken(Texts(pieces[0..]), TokenAt(template).value);
    }
  }

  /** Rendering is decided piece by piece, for any way of writing the template as a scan: a token's
      value is copied out as it is, and nothing of the output is scanned again. */
  lemma RenderFollowsAnyScan(pieces: seq<Piece>, template: string, vars: map<string, string>)
    requires IsScanOf(pieces, template)
    ensures Render(template, vars) == Outputs(pieces, vars)
  {
    ScanIsUnique(pieces, template);
  }

  lemma {:induction false} OutputsOfOwnTokens(pieces: seq<Piece>, vars: map<string, string>)
    requires forall k :: k in vars ==> vars[k] == TokenText(k)
    ensures Outputs(pieces, vars) == Texts(pieces)
  {
    if pieces != [] {
      OutputsOfOwnTokens(pieces[1..], vars);
    }
  }

  /** Binding keys to their own tokens, or binding nothing, changes no template. */
  lemma RenderWithOwnTokensIsIdentity(template: string, vars: map<string, string>)
    requires forall k :: k in vars ==> vars[k] == TokenText(k)
    ensures Render(template, vars) == template
  {
    ScanIsAScan(template);
    OutputsOfOwnTokens(Scan(template), vars);
  }

  lemma RenderPassesOver(s: string, vars: map<string, string>)
    requires s != "" && TokenAt(s).None?
    ensures Render(s, vars) == [s[0]] + Render(s[1..], vars)
  {
  }

  lemma RenderReplaces(key: string, rest: string, vars: map<string, string>)
    requires IsWord(key)
    ensures Render(TokenText(key) + rest, vars) == Token(key).Output(vars) + Render(rest, vars)
  {
    var t := TokenText(key) + rest;
    assert t[|TokenText(key)|..] == rest;
    TokenAtFindsTheToken(t, key);
  }

  lemma {:induction false} RenderSkips(text: string, rest: string, vars: map<string, string>)
    requires '{' !in text
    ensures Render(text + rest, vars) == text + Render(rest, vars)
  {
    if text == "" {
      assert text + rest == rest;
    } else {
      var t := text + rest;
      assert t[0] == text[0] && t[1..] == text[1..] + rest;
      RenderPassesOver(t, vars);
      RenderSkips(text[1..], rest, vars);
    }
  }

  /** Text without an opening brace passes through, a token is replaced if it is known and kept if
      not, and both leave the rest of the template to be rendered on its own. */
  lemma RenderStepByStep(text: string, key: string, rest: string, vars: map<string, string>)
    requires '{' !in text && IsWord(key)
    ensures Render(text + ("{{" + key + "}}" + rest), vars)
         == text + ((if key in vars then vars[key] else "{{" + key + "}}") + Render(rest, vars))
  {
    RenderSkips(text, TokenText(key) + rest, vars);
    RenderReplaces(key, rest, vars);
  }

  lemma BraceIsPassedOver(s: string, vars: map<string, string>)
    requires |s| >= 2 && s[1] == '{'
    ensures Render("{" + s, vars) == "{" + Render(s, vars)
  {
    var t := "{" + s;
    assert t[1..] == s && t[2..] == s[1..];
    assert WordPrefix(t[2..]) == "";
    RenderPassesOver(t, vars);
  }

  /** Output that happens to spell a token stays: inside two more braces, a value is not looked up. */
  lemma NestedBracesAreNotRescanned(a: string, vars: map<string, string>)
    requires IsWord(a)
    ensures Render("{" + ("{" + (TokenText(a) + "}}")), vars) == "{" + ("{" + (Token(a).Output(vars) + "}}"))
  {
    var inner := TokenText(a) + "}}";
    RenderReplaces(a, "}}", vars);
    RenderSkips("}}", "", vars);
    assert "}}" + "" == "}}";
    assert inner[0] == '{' && inner[1] == '{';
    BraceIsPassedOver(inner, vars);
    BraceIsPassedOver("{" + inner, vars);
  }
}
