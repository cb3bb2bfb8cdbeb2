/** White space and trimming, as strings.TrimSpace has them. */
module Text {
  /** Unicode white space. */
  predicate Space(c: char) {
    || c in "\t\n\r \U{0B}\U{0C}\U{85}\U{A0}\U{1680}\U{2028}\U{2029}\U{202F}\U{205F}\U{3000}"
    || '\U{2000}' <= c <= '\U{200A}'
  }

  function TrimLeft(s: string): string { if s != "" && Space(s[0]) then TrimLeft(s[1..]) else s }

  function TrimRight(s: string): string { if s != "" && Space(s[|s| - 1]) then TrimRight(s[..|s| - 1]) else s }

  function TrimSpace(s: string): string { TrimRight(TrimLeft(s)) }

  lemma {:induction false} TrimLeftEnd(s: string)
    ensures TrimLeft(s) == "" || !Space(TrimLeft(s)[0])
  {
    hide Space;
    if s != "" {
      TrimLeftEnd(s[1..]);
    }
  }

  lemma {:induction false} TrimRightEnd(s: string)
    ensures TrimRight(s) <= s
    ensures TrimRight(s) == "" || !Space(TrimRight(s)[|TrimRight(s)| - 1])
  {
    hide Space;
    if s != "" {
      TrimRightEnd(s[..|s| - 1]);
    }
  }

  lemma TrimTwice(s: string)
    ensures TrimSpace(TrimSpace(s)) == TrimSpace(s)
  {
    hide Space;
    TrimLeftEnd(s);
    TrimRightEnd(TrimLeft(s));
  }

  /** A text without white space at its ends is left alone. */
  lemma TrimNothing(s: string)
    requires s != "" && !Space(s[0]) && !Space(s[|s| - 1])
    ensures TrimSpace(s) == s
  {
  }

  predicate AllSpace(s: string) { forall i :: 0 <= i < |s| ==> Space(s[i]) }

  lemma {:induction false} TrimLeftOf(a: string, s: string)
    requires AllSpace(a) && (s == "" || !Space(s[0]))
    ensures TrimLeft(a + s) == s
  {
    hide Space;
    if a == "" {
      assert a + s == s;
    } else {
      assert (a + s)[1..] == a[1..] + s;
      TrimLeftOf(a[1..], s);
    }
  }

  lemma {:induction false} TrimRightOf(s: string, b: string)
    requires AllSpace(b) && (s == "" || !Space(s[|s| - 1]))
    ensures TrimRight(s + b) == s
    decreases |b|
  {
    hide Space;
    if b == "" {
      assert s + b == s;
    } else {
      var n := |b| - 1;
      assert (s + b)[..|s + b| - 1] == s + b[..n];
      TrimRightOf(s, b[..n]);
    }
  }

  /** Exactly the white space around a text goes. */
  lemma TrimSpaceOf(a: string, s: string, b: string)
    requires AllSpace(a) && AllSpace(b) && (s == "" || (!Space(s[0]) && !Space(s[|s| - 1])))
    ensures TrimSpace(a + s + b) == s
  {
    hide Space, TrimLeft, TrimRight;
    if s == "" {
      assert a + s + b == a + b + "";
      TrimLeftOf(a + b, "");
      assert "" + "" == "";
      TrimRightOf("", "");
    } else {
      assert a + s + b == a + (s + b) && (s + b)[0] == s[0];
      TrimLeftOf(a, s + b);
      TrimRightOf(s, b);
    }
  }
}
