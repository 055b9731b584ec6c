/**
  The LIKE predicate (section 8.5 of ISO/IEC 9075:1992, with PostgreSQL's default backslash
  escape) and the escaping that turns a user-supplied needle into a literal pattern.
  */
module Like {
  import opened Text

  const ESCAPE: char := '\\'

  /** Does `text` match `pattern`?  A pattern ending in a bare escape is an error in PostgreSQL; see `WellFormed`. */
  predicate Matches(pattern: string, text: string)
    decreases |pattern| + |text|
  {
    if pattern == "" then text == ""
    else if pattern[0] == '%' then
      Matches(pattern[1..], text) || (text != "" && Matches(pattern, text[1..]))
    else if pattern[0] == ESCAPE then
      |pattern| > 1 && text != "" && text[0] == pattern[1] && Matches(pattern[2..], text[1..])
    else
      text != "" && (pattern[0] == '_' || text[0] == pattern[0]) && Matches(pattern[1..], text[1..])
  }

  /** No escape character is left dangling at the end of the pattern. */
  predicate WellFormed(pattern: string) {
    pattern == "" ||
    (if pattern[0] == ESCAPE then |pattern| > 1 && WellFormed(pattern[2..]) else WellFormed(pattern[1..]))
  }

  /** `s.replace(c, sub)` for a one-character `c`. */
  function Replace(s: string, c: char, sub: string): string {
    if s == "" then "" else (if s[0] == c then sub else [s[0]]) + Replace(s[1..], c, sub)
  }

  /** Three whole-string replacements, the backslash first. */
  function EscapeLike(s: string): string {
    Replace(Replace(Replace(s, '\\', "\\\\"), '%', "\\%"), '_', "\\_")
  }

  /** The reference: a backslash in front of each special character. */
  function EscapeEach(s: string): string {
    if s == "" then "" else EscapeChar(s[0]) + EscapeEach(s[1..])
  }

  function EscapeChar(c: char): string {
    if c == '\\' || c == '%' || c == '_' then [ESCAPE, c] else [c]
  }

  lemma {:induction false} ReplaceConcat(a: string, b: string, c: char, sub: string)
    ensures Replace(a + b, c, sub) == Replace(a, c, sub) + Replace(b, c, sub)
  {
    if a == "" {
      assert a + b == b;
    } else {
      assert (a + b)[1..] == a[1..] + b;
      ReplaceConcat(a[1..], b, c, sub);
    }
  }

  lemma ReplaceOne(d: char, c: char, sub: string)
    ensures Replace([d], c, sub) == if d == c then sub else [d]
  {
  }

  /** The three ordered replacements amount to one pass: no later replacement touches an earlier one's output. */
  lemma {:induction false} EscapeLikeIsEscapeEach(s: string)
    ensures EscapeLike(s) == EscapeEach(s)
  {
    if s != "" {
      var head, tail := [s[0]], s[1..];
      assert s == head + tail;
      ReplaceConcat(head, tail, '\\', "\\\\");
      ReplaceConcat(Replace(head, '\\', "\\\\"), Replace(tail, '\\', "\\\\"), '%', "\\%");
      ReplaceConcat(Replace(Replace(head, '\\', "\\\\"), '%', "\\%"),
                    Replace(Replace(tail, '\\', "\\\\"), '%', "\\%"), '_', "\\_");
      EscapeLikeOne(s[0]);
      EscapeLikeIsEscapeEach(tail);
    }
  }

  lemma EscapeLikeOne(c: char)
    ensures EscapeLike([c]) == EscapeChar(c)
  {
    ReplaceOne(c, '\\', "\\\\");
    if c == '\\' {
      ReplaceConcat("\\", "\\", '%', "\\%");
      ReplaceConcat("\\", "\\", '_', "\\_");
      assert "\\" + "\\" == "\\\\";
      ReplaceOne('\\', '%', "\\%");
      ReplaceOne('\\', '_', "\\_");
    } else {
      ReplaceOne(c, '%', "\\%");
      if c == '%' {
        ReplaceConcat("\\", "%", '_', "\\_");
        assert "\\" + "%" == "\\%";
        ReplaceOne('\\', '_', "\\_");
        ReplaceOne('%', '_', "\\_");
      } else {
        ReplaceOne(c, '_', "\\_");
      }
    }
  }

  lemma {:induction false} PercentMatchesAll(text: string)
    ensures Matches("%", text)
  {
    if text != "" {
      PercentMatchesAll(text[1..]);
    }
    assert "%"[1..] == "";
  }

  /** An escaped needle followed by `%` matches exactly the texts that begin with the needle. */
  lemma {:induction false} EscapedPrefix(s: string, text: string)
    ensures Matches(EscapeEach(s) + "%", text) <==> s <= text
    ensures WellFormed(EscapeEach(s) + "%")
    decreases |s|
  {
    var pattern := EscapeEach(s) + "%";
    if s == "" {
      assert pattern == "%";
      PercentMatchesAll(text);
    } else {
      var rest := EscapeEach(s[1..]) + "%";
      assert pattern == EscapeChar(s[0]) + rest;
      assert pattern[|EscapeChar(s[0])|..] == rest;
      EscapedPrefix(s[1..], if text == "" then "" else text[1..]);
      if text != "" {
        assert s <= text <==> s[0] == text[0] && s[1..] <= text[1..] by {
          assert s == [s[0]] + s[1..] && text == [text[0]] + text[1..];
        }
      }
    }
  }

  /** A leading `%` skips any number of characters. */
  lemma {:induction false} PercentSkips(rest: string, text: string)
    ensures Matches("%" + rest, text) <==> exists i: nat :: i <= |text| && Matches(rest, text[i..])
    decreases |text|
  {
    assert ("%" + rest)[1..] == rest;
    if Matches(rest, text) {
      assert text[0..] == text;
    } else if text != "" {
      PercentSkips(rest, text[1..]);
      forall i: nat | i <= |text| && Matches(rest, text[i..])
        ensures i > 0 && Matches(rest, text[1..][i - 1..])
      {
        assert text[0..] == text;
        assert text[1..][i - 1..] == text[i..];
      }
      if j: nat :| j <= |text[1..]| && Matches(rest, text[1..][j..]) {
        assert text[1..][j..] == text[j + 1..];
      }
    } else {
      assert text[0..] == text;
    }
  }

  /** LIKE escaping is exact: `%escaped%` matches `text` if and only if the raw needle occurs in it. */
  lemma LikeIsContains(needle: string, text: string)
    ensures Matches("%" + EscapeLike(needle) + "%", text) <==> Contains(text, needle)
    ensures WellFormed("%" + EscapeLike(needle) + "%")
  {
    EscapeLikeIsEscapeEach(needle);
    var rest := EscapeEach(needle) + "%";
    assert "%" + EscapeLike(needle) + "%" == "%" + rest;
    assert ("%" + rest)[1..] == rest;
    PercentSkips(rest, text);
    EscapedPrefix(needle, text);
    forall i: nat | i <= |text|
      ensures Matches(rest, text[i..]) <==> needle <= text[i..]
    {
      EscapedPrefix(needle, text[i..]);
    }
  }
}
