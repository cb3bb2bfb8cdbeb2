/** Small facts about sequences that several scanners use. */
module Sequences {
  import opened Wrappers

  /** The first position of an element. */
  function IndexOf<T(==)>(s: seq<T>, x: T): (i: Option<nat>)
    ensures i.Some? ==> i.value < |s| && s[i.value] == x && x !in s[..i.value]
    ensures i.None? ==> x !in s
  {
    if s == [] then None
    else if s[0] == x then Some(0)
    else
      var i := IndexOf(s[1..], x);
      if i.None? then None else
        assert s[..i.value + 1] == [s[0]] + s[1..][..i.value]; Some(i.value + 1)
  }

  /** A delimiter behind text without it is found there. */
  lemma {:induction false} IndexAfter<T>(a: seq<T>, x: T, b: seq<T>)
    requires x !in a
    ensures IndexOf(a + [x] + b, x) == Some(|a|)
  {
    var s := a + [x] + b;
    if a != [] {
      IndexAfter(a[1..], x, b);
      assert s[1..] == a[1..] + [x] + b;
    }
  }

  lemma Associates<T>(a: seq<T>, b: seq<T>, c: seq<T>)
    ensures a + b + c == a + (b + c)
  {
  }
}
