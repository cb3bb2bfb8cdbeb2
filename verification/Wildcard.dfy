/** Wildcards: what * and ? mean, what SQL LIKE means, and the translation between them. */
module Wildcard {
  /** The whole of s matches p, where * stands for any text and ? for one character; eq compares literals. */
  predicate Glob(p: string, s: string, eq: (char, char) -> bool)
    decreases |p| + |s|
  {
    if p == "" then s == ""
    else if p[0] == '*' then Glob(p[1..], s, eq) || (s != "" && Glob(p, s[1..], eq))
    else if p[0] == '?' then s != "" && Glob(p[1..], s[1..], eq)
    else s != "" && eq(p[0], s[0]) && Glob(p[1..], s[1..], eq)
  }

  /** SQL LIKE with the escape character backslash; an escape with nothing after it matches nothing. */
  predicate Like(p: string, s: string, eq: (char, char) -> bool)
    decreases |p| + |s|
  {
    if p == "" then s == ""
    else if p[0] == '%' then Like(p[1..], s, eq) || (s != "" && Like(p, s[1..], eq))
    else if p[0] == '_' then s != "" && Like(p[1..], s[1..], eq)
    else if p[0] == '\\' then |p| > 1 && s != "" && eq(p[1], s[0]) && Like(p[2..], s[1..], eq)
    else s != "" && eq(p[0], s[0]) && Like(p[1..], s[1..], eq)
  }

  /** What one character of a wildcard pattern becomes. */
  function Translate(c: char): string {
    if c == '*' then "%"
    else if c == '?' then "_"
    else if c == '%' || c == '_' || c == '\\' then ['\\', c]
    else [c]
  }

  function TranslateAll(p: string): string {
    if p == "" then "" else Translate(p[0]) + TranslateAll(p[1..])
  }

  lemma {:induction false} TranslateSnoc(p: string, c: char)
    ensures TranslateAll(p + [c]) == TranslateAll(p) + Translate(c)
  {
    if p == "" {
      assert "" + [c] == [c];
      assert [c][1..] == "";
    } else {
      assert (p + [c])[1..] == p[1..] + [c];
      TranslateSnoc(p[1..], c);
    }
  }

  /** Translates wildcard syntax to LIKE, escaping LIKE's own special characters. */
  method LikePattern(value: string) returns (pattern: string)
    ensures pattern == TranslateAll(value)
  {
    pattern := "";
    for i := 0 to |value|
      invariant pattern == TranslateAll(value[..i])
    {
      TranslateSnoc(value[..i], value[i]);
      assert value[..i + 1] == value[..i] + [value[i]];
      var c := value[i];
      if c == '*' {
        pattern := pattern + "%";
      } else if c == '?' {
        pattern := pattern + "_";
      } else if c == '%' || c == '_' || c == '\\' {
        pattern := pattern + ['\\', c];
      } else {
        pattern := pattern + [c];
      }
    }
    assert value[..|value|] == value;
  }

  /**
    * The translation is exact, for every pattern, every text and every fixed comparison of characters,
    * including patterns that contain LIKE's own special characters.
    */
  lemma {:induction false} TranslationIsExact(p: string, s: string, eq: (char, char) -> bool)
    ensures Like(TranslateAll(p), s, eq) <==> Glob(p, s, eq)
    decreases |p| + |s|
  {
    if p != "" {
      var t := TranslateAll(p);
      var rest := TranslateAll(p[1..]);
      assert t == Translate(p[0]) + rest;
      assert t[|Translate(p[0])|..] == rest;
      assert t[0] == Translate(p[0])[0];
      if p[0] == '*' {
        TranslationIsExact(p[1..], s, eq);
        if s != "" {
          TranslationIsExact(p, s[1..], eq);
        }
      } else if s != "" {
        TranslationIsExact(p[1..], s[1..], eq);
      }
    }
  }

  /** A star stands for any text: p after it matches some suffix. */
  lemma {:induction false} StarMatchesAnySuffix(p: string, s: string, eq: (char, char) -> bool)
    ensures Glob("*" + p, s, eq) <==> exists k :: 0 <= k <= |s| && Glob(p, s[k..], eq)
  {
    assert ("*" + p)[1..] == p;
    assert s[0..] == s;
    if s != "" {
      StarMatchesAnySuffix(p, s[1..], eq);
      if k :| 0 <= k <= |s[1..]| && Glob(p, s[1..][k..], eq) {
        assert s[k + 1..] == s[1..][k..];
      }
      if k :| 0 <= k <= |s| && Glob(p, s[k..], eq) {
        if k > 0 {
          assert s[1..][k - 1..] == s[k..];
        }
      }
    }
  }

  /** A question mark stands for exactly one character. */
  lemma QuestionMatchesOne(p: string, c: char, s: string, eq: (char, char) -> bool)
    ensures Glob("?" + p, [c] + s, eq) <==> Glob(p, s, eq)
    ensures !Glob("?" + p, "", eq)
  {
    assert ("?" + p)[1..] == p && ([c] + s)[1..] == s;
  }

  /** A pattern without wildcards matches exactly the texts equal to it, character by character. */
  lemma {:induction false} PlainGlobIsEquality(p: string, s: string, eq: (char, char) -> bool)
    requires forall i :: 0 <= i < |p| ==> p[i] != '*' && p[i] != '?'
    ensures Glob(p, s, eq) <==> |p| == |s| && forall i :: 0 <= i < |p| ==> eq(p[i], s[i])
  {
    if p != "" && s != "" {
      PlainGlobIsEquality(p[1..], s[1..], eq);
      if |p| == |s| && eq(p[0], s[0]) {
        assert (forall i :: 0 <= i < |p[1..]| ==> eq(p[1..][i], s[1..][i])) ==>
               forall i :: 0 <= i < |p| ==> eq(p[i], s[i]) by {
          if forall i :: 0 <= i < |p[1..]| ==> eq(p[1..][i], s[1..][i]) {
            forall i | 0 <= i < |p| ensures eq(p[i], s[i]) {
              if i > 0 {
                assert eq(p[1..][i - 1], s[1..][i - 1]);
              }
            }
          }
        }
      }
    }
  }
}
