/** Listing a finite set of integers in order, as a sorted directory listing does. */
module SortedSets {
  ghost predicate Ascending(s: seq<int>) { forall i, j :: 0 <= i < j < |s| ==> s[i] < s[j] }

  ghost function Elements(s: seq<int>): set<int> { set i | 0 <= i < |s| :: s[i] }

  lemma EmptyOrNot(s: set<int>)
    ensures s == {} || exists k :: k in s
  {
    if !(exists k :: k in s) {
      assert s == {};
    }
  }

  method SmallestOf(keys: set<int>) returns (m: int)
    requires keys != {}
    ensures m in keys && forall k :: k in keys ==> m <= k
  {
    EmptyOrNot(keys);
    m :| m in keys;
    var rest := keys - {m};
    while rest != {}
      invariant rest <= keys && m in keys
      invariant forall k :: k in keys && k !in rest ==> m <= k
      decreases rest
    {
      EmptyOrNot(rest);
      var k :| k in rest;
      if k < m {
        m := k;
      }
      rest := rest - {k};
    }
  }

  lemma ElementsSnoc(s: seq<int>, x: int)
    ensures Elements(s + [x]) == Elements(s) + {x}
  {
    forall y ensures y in Elements(s + [x]) <==> y in Elements(s) + {x} {
      if y in Elements(s) {
        var i :| 0 <= i < |s| && s[i] == y;
        assert (s + [x])[i] == y;
      }
      assert (s + [x])[|s|] == x;
    }
  }

  method InOrder(keys: set<int>) returns (s: seq<int>)
    ensures Ascending(s) && Elements(s) == keys
  {
    s := [];
    var rest := keys;
    while rest != {}
      invariant rest <= keys && Ascending(s) && Elements(s) == keys - rest
      invariant forall i, k :: 0 <= i < |s| && k in rest ==> s[i] < k
      decreases rest
    {
      var m := SmallestOf(rest);
      ElementsSnoc(s, m);
      s := s + [m];
      rest := rest - {m};
    }
  }

  /** There is only one way to list a set in order. */
  lemma {:induction false} OneOrder(a: seq<int>, b: seq<int>)
    requires Ascending(a) && Ascending(b) && Elements(a) == Elements(b)
    ensures a == b
  {
    assert |a| > 0 ==> a[0] in Elements(b);
    assert |b| > 0 ==> b[0] in Elements(a);
    if a != [] {
      var a', b' := a[1..], b[1..];
      assert a[0] == b[0];
      TailElements(a);
      TailElements(b);
      OneOrder(a', b');
    }
  }

  lemma TailElements(a: seq<int>)
    requires Ascending(a) && a != []
    ensures Elements(a[1..]) == Elements(a) - {a[0]}
  {
  }
}
