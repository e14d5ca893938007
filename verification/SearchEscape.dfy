/**
 * The apps list's search box.  The typed text is escaped, wrapped in wildcards and handed to a
 * case-insensitive LIKE whose escape character is the backslash.
 *
 * `fold` is the database's case folding, one character at a time.
 */
module SearchEscape {
  type Fold = char -> char

  /** Folding merges cases of letters; it never merges anything with LIKE's own characters. */
  ghost predicate FoldsOnlyLetters(fold: Fold) {
    forall c, d :: d in {'%', '_', '\\'} && fold(c) == fold(d) ==> c == d
  }

  function ReplaceAll(s: string, c: char, replacement: string): string {
    if s == "" then "" else (if s[0] == c then replacement else [s[0]]) + ReplaceAll(s[1..], c, replacement)
  }

  function Escape(text: string): string {
    ReplaceAll(ReplaceAll(text, '%', "\\%"), '_', "\\_")
  }

  function EscapedChar(c: char): string {
    if c == '%' then "\\%" else if c == '_' then "\\_" else [c]
  }

  function SearchPattern(text: string): string { "%" + Escape(text) + "%" }

  predicate Like(pattern: string, row: string, fold: Fold)
    decreases |pattern| + |row|
  {
    if pattern == "" then row == ""
    else if pattern[0] == '%' then
      Like(pattern[1..], row, fold) || (row != "" && Like(pattern, row[1..], fold))
    else if pattern[0] == '_' then row != "" && Like(pattern[1..], row[1..], fold)
    else if pattern[0] == '\\' then
      |pattern| > 1 && row != "" && fold(row[0]) == fold(pattern[1]) && Like(pattern[2..], row[1..], fold)
    else row != "" && fold(row[0]) == fold(pattern[0]) && Like(pattern[1..], row[1..], fold)
  }

  ghost predicate StartsWith(row: string, text: string, fold: Fold) {
    |text| <= |row| && forall i :: 0 <= i < |text| ==> fold(row[i]) == fold(text[i])
  }

  ghost predicate Contains(row: string, text: string, fold: Fold) {
    exists i :: 0 <= i <= |row| && StartsWith(row[i..], text, fold)
  }

  lemma {:induction false} EscapeHead(text: string)
    requires text != ""
    ensures Escape(text) == EscapedChar(text[0]) + Escape(text[1..])
  {
    var once := ReplaceAll(text, '%', "\\%");
    var rest := ReplaceAll(text[1..], '%', "\\%");
    if text[0] == '%' {
      assert once[1..] == ['%'] + rest && once[1..][1..] == rest;
      assert ReplaceAll(once, '_', "\\_") == "\\" + ReplaceAll(once[1..], '_', "\\_");
    } else {
      assert once[1..] == rest;
    }
  }

  lemma {:induction false} WildcardTakesAll(row: string, fold: Fold)
    ensures Like("%", row, fold)
  {
    assert "%"[1..] == "";
    if row != "" {
      WildcardTakesAll(row[1..], fold);
    }
  }

  lemma {:induction false} WildcardSkips(pattern: string, row: string, fold: Fold)
    ensures Like("%" + pattern, row, fold) <==> exists i :: 0 <= i <= |row| && Like(pattern, row[i..], fold)
  {
    assert ("%" + pattern)[1..] == pattern && row[0..] == row;
    if row != "" {
      WildcardSkips(pattern, row[1..], fold);
      if i :| 0 <= i <= |row| && Like(pattern, row[i..], fold) {
        if i > 0 {
          assert row[1..][i - 1..] == row[i..];
        }
      }
      if i :| 0 <= i <= |row[1..]| && Like(pattern, row[1..][i..], fold) {
        assert row[i + 1..] == row[1..][i..];
      }
    } else if i :| 0 <= i <= |row| && Like(pattern, row[i..], fold) {
      assert row[i..] == row;
    }
  }

  lemma StartsWithHead(row: string, text: string, fold: Fold)
    requires row != "" && text != ""
    ensures StartsWith(row, text, fold) <==> fold(row[0]) == fold(text[0]) && StartsWith(row[1..], text[1..], fold)
  {
    forall i | 1 <= i < |text| && |text| <= |row|
      ensures row[i] == row[1..][i - 1] && text[i] == text[1..][i - 1]
    {
    }
  }

  /** One ordinary character of the text, escaped or not, stands for itself. */
  lemma {:induction false} EscapedTextIsPrefix(text: string, row: string, fold: Fold)
    requires '\\' !in text
    ensures Like(Escape(text) + "%", row, fold) <==> StartsWith(row, text, fold)
  {
    if text == "" {
      assert Escape(text) + "%" == "%";
      WildcardTakesAll(row, fold);
    } else {
      EscapeHead(text);
      var p, rest := Escape(text) + "%", Escape(text[1..]) + "%";
      if text[0] in {'%', '_'} {
        assert p == ['\\', text[0]] + rest && p[2..] == rest;
      } else {
        assert p == [text[0]] + rest && p[1..] == rest;
      }
      if row != "" {
        EscapedTextIsPrefix(text[1..], row[1..], fold);
        StartsWithHead(row, text, fold);
      }
    }
  }

  lemma WithoutBackslashSearchIsLiteral(text: string, row: string, fold: Fold)
    requires '\\' !in text
    ensures Like(SearchPattern(text), row, fold) <==> Contains(row, text, fold)
  {
    var rest := Escape(text) + "%";
    assert SearchPattern(text) == "%" + rest;
    WildcardSkips(rest, row, fold);
    forall i | 0 <= i <= |row|
      ensures Like(rest, row[i..], fold) <==> StartsWith(row[i..], text, fold)
    {
      EscapedTextIsPrefix(text, row[i..], fold);
    }
  }

  // ----- Backslashes are not escaped

  /** A row the pattern accepts although it reads the text's backslashes as escapes. */
  function Misread(text: string): string {
    if text == "" then ""
    else if text[0] != '\\' then [text[0]] + Misread(text[1..])
    else if |text| == 1 then "%"
    else if text[1] == '%' then "\\" + Misread(text[2..])
    else if text[1] == '_' then "\\x" + Misread(text[2..])
    else [text[1]] + Misread(text[2..])
  }

  lemma {:induction false} MisreadMatches(text: string, fold: Fold)
    ensures Like(Escape(text) + "%", Misread(text), fold)
  {
    if text == "" {
      assert Escape(text) + "%" == "%";
      WildcardTakesAll("", fold);
    } else {
      EscapeHead(text);
      var p, m := Escape(text) + "%", Misread(text);
      if text[0] != '\\' {
        MisreadMatches(text[1..], fold);
        var rest := Escape(text[1..]) + "%";
        assert m[1..] == Misread(text[1..]);
        if text[0] in {'%', '_'} {
          assert p == ['\\', text[0]] + rest && p[2..] == rest;
        } else {
          assert p == [text[0]] + rest && p[1..] == rest;
        }
      } else if |text| == 1 {
        assert p == "\\%" && p[2..] == "" && m[1..] == "";
      } else {
        MisreadMatches(text[2..], fold);
        MisreadPair(text, Escape(text[2..]) + "%", Misread(text[2..]), fold);
      }
    }
  }

  /** How the escaped text begins after a backslash. */
  lemma AfterBackslash(text: string)
    requires |text| >= 2 && text[0] == '\\'
    ensures Escape(text) == ['\\'] + (EscapedChar(text[1]) + Escape(text[2..]))
  {
    var tail := text[1..];
    EscapeHead(text);
    EscapeHead(tail);
    assert tail[1..] == text[2..] && tail[0] == text[1];
  }

  lemma MisreadPair(text: string, rest: string, tail: string, fold: Fold)
    requires |text| >= 2 && text[0] == '\\'
    requires rest == Escape(text[2..]) + "%" && tail == Misread(text[2..]) && Like(rest, tail, fold)
    ensures Like(Escape(text) + "%", Misread(text), fold)
  {
    var escaped := Escape(text[2..]);
    AfterBackslash(text);
    if text[1] == '%' {
      LikeSkips(rest, tail, fold);
      LikeEscaped('\\', "%" + rest, tail, fold);
      assert ['\\'] + ("\\%" + escaped) + "%" == ['\\', '\\'] + ("%" + (escaped + "%"));
    } else if text[1] == '_' {
      LikeAny('x', rest, tail, fold);
      LikeEscaped('\\', "_" + rest, ['x'] + tail, fold);
      assert ['\\'] + ("\\_" + escaped) + "%" == ['\\', '\\'] + ("_" + (escaped + "%"));
      assert "\\x" + tail == ['\\'] + (['x'] + tail);
    } else {
      LikeEscaped(text[1], rest, tail, fold);
      assert ['\\'] + ([text[1]] + escaped) + "%" == ['\\', text[1]] + (escaped + "%");
    }
  }

  lemma LikeEscaped(c: char, rest: string, tail: string, fold: Fold)
    requires Like(rest, tail, fold)
    ensures Like(['\\', c] + rest, [c] + tail, fold)
  {
    assert (['\\', c] + rest)[2..] == rest && ([c] + tail)[1..] == tail;
  }

  lemma LikeAny(c: char, rest: string, tail: string, fold: Fold)
    requires Like(rest, tail, fold)
    ensures Like("_" + rest, [c] + tail, fold)
  {
    assert ("_" + rest)[1..] == rest && ([c] + tail)[1..] == tail;
  }

  lemma LikeSkips(rest: string, tail: string, fold: Fold)
    requires Like(rest, tail, fold)
    ensures Like("%" + rest, tail, fold)
  {
    assert ("%" + rest)[1..] == rest;
  }

  lemma {:induction false} MisreadDiffers(text: string, fold: Fold)
    requires FoldsOnlyLetters(fold)
    ensures |Misread(text)| <= |text|
    ensures '\\' in text ==> !StartsWith(Misread(text), text, fold)
  {
    var m := Misread(text);
    if text == "" {
    } else if text[0] != '\\' {
      MisreadDiffers(text[1..], fold);
      StartsWithHead(m, text, fold);
      assert m[1..] == Misread(text[1..]) && text == [text[0]] + text[1..];
    } else if |text| == 1 {
      assert m[0] == '%' && text[0] == '\\';
    } else {
      MisreadDiffers(text[2..], fold);
      if text[1] == '_' {
        assert m[1] == 'x' && text[1] == '_';
      }
    }
  }

  /** The search is a literal, case-insensitive substring search for exactly the texts that contain no
      backslash; for every other text some row is answered wrongly. */
  lemma SearchIsLiteralIffNoBackslash(text: string, fold: Fold)
    requires FoldsOnlyLetters(fold)
    ensures (forall row :: Like(SearchPattern(text), row, fold) <==> Contains(row, text, fold)) <==> '\\' !in text
  {
    if '\\' !in text {
      forall row
        ensures Like(SearchPattern(text), row, fold) <==> Contains(row, text, fold)
      {
        WithoutBackslashSearchIsLiteral(text, row, fold);
      }
    } else {
      var row := Misread(text);
      var rest := Escape(text) + "%";
      MisreadMatches(text, fold);
      MisreadDiffers(text, fold);
      assert SearchPattern(text) == "%" + rest && row[0..] == row;
      WildcardSkips(rest, row, fold);
      assert Like(SearchPattern(text), row, fold) && !Contains(row, text, fold);
    }
  }
}
