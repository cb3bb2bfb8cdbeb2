/** Aggregation: per-partition SQL results merged across days, and the ordered answer. */
module Aggregate {
  import opened Wrappers
  import opened Sequences
  import Sorting = StableSort

  datatype Metric = MCount | MSum | MAvg | MMin | MMax

  /**
    * A group key as SQL tells keys apart: kind separates values that read as the same text, such as the number 1
    * and the string "1" in a JSON field.
    */
  datatype Key = Null | Keyed(kind: nat, text: string)

  /** A matching row, seen by an aggregation: its group key and its metric value, either of which may be NULL. */
  datatype Datum = Datum(key: Key, val: Option<real>)

  /** The metric and the row count SQL returns for one group of one partition. */
  datatype Partial = Partial(v: Option<real>, c: nat)

  /** One row of a partition's result. */
  datatype SqlRow = SqlRow(key: Key, part: Partial)

  /** The values of a group, NULLs left out. */
  function Values(g: seq<Option<real>>): seq<real> {
    if g == [] then [] else (if g[0].Some? then [g[0].value] else []) + Values(g[1..])
  }

  /** A value is itself; NULL is none. */
  lemma ValuesOne(v: Option<real>)
    ensures Values([v]) == match v case Some(x) => [x] case None => []
  {
    assert [v][1..] == [];
  }

  function Sum(s: seq<real>): real {
    if s == [] then 0.0 else s[0] + Sum(s[1..])
  }

  function Smallest(s: seq<real>): (m: real)
    requires s != []
    ensures m in s && forall i :: 0 <= i < |s| ==> m <= s[i]
  {
    if |s| == 1 then s[0] else
      var m := Smallest(s[1..]);
      if s[0] < m then s[0] else m
  }

  function Largest(s: seq<real>): (m: real)
    requires s != []
    ensures m in s && forall i :: 0 <= i < |s| ==> s[i] <= m
  {
    if |s| == 1 then s[0] else
      var m := Largest(s[1..]);
      if s[0] > m then s[0] else m
  }

  /** What SQL computes for one group: COUNT(*), and the metric, which is NULL when no row has a value. */
  function PartialOf(metric: Metric, g: seq<Option<real>>): Partial {
    var vs := Values(g);
    Partial(match metric
            case MCount => Some(|g| as real)
            case MSum => if vs == [] then None else Some(Sum(vs))
            case MAvg => if vs == [] then None else Some(Sum(vs) / |vs| as real)
            case MMin => if vs == [] then None else Some(Smallest(vs))
            case MMax => if vs == [] then None else Some(Largest(vs)),
            |g|)
  }

  // ---- merging ----

  datatype Accum = Accum(sum: real, count: real, min: real, max: real, hasMM: bool)

  const ZERO := Accum(0.0, 0.0, 0.0, 0.0, false)

  /** A NULL scans as zero. */
  function Scan(v: Option<real>): real { if v.Some? then v.value else 0.0 }

  /** What the program scans a key into: NULL reads as the empty text, and the kind is lost. */
  function GoKey(key: Key): string { if key.Keyed? then key.text else "" }

  function Add(metric: Metric, a: Accum, p: Partial): Accum {
    var v := Scan(p.v);
    match metric
    case MCount => a.(sum := a.sum + v)
    case MSum => a.(sum := a.sum + v)
    case MAvg => a.(sum := a.sum + v * p.c as real, count := a.count + p.c as real)
    case MMin => a.(min := if !a.hasMM || v < a.min then v else a.min, hasMM := true)
    case MMax => a.(max := if !a.hasMM || v > a.max then v else a.max, hasMM := true)
  }

  function Value(metric: Metric, a: Accum): real {
    match metric
    case MCount => a.sum
    case MSum => a.sum
    case MAvg => if a.count == 0.0 then 0.0 else a.sum / a.count
    case MMin => a.min
    case MMax => a.max
  }

  /** The partial results of one key, merged in order. */
  function Merge(metric: Metric, a: Accum, ps: seq<Partial>): Accum
    decreases ps
  {
    if ps == [] then a else Merge(metric, Add(metric, a, ps[0]), ps[1..])
  }

  function OfKey(rows: seq<SqlRow>, key: string): seq<Partial> {
    if rows == [] then [] else (if GoKey(rows[0].key) == key then [rows[0].part] else []) + OfKey(rows[1..], key)
  }

  /** The accumulators hold, per key, its partial results merged; a key without any has no accumulator. */
  ghost predicate Accumulated(metric: Metric, acc: map<string, Accum>, ps: seq<SqlRow>) {
    && (forall k :: k in acc <==> OfKey(ps, k) != [])
    && (forall k :: k in acc ==> acc[k] == Merge(metric, ZERO, OfKey(ps, k)))
  }

  lemma OfKeySnoc(ps: seq<SqlRow>, p: SqlRow, key: string)
    ensures OfKey(ps + [p], key) == OfKey(ps, key) + if GoKey(p.key) == key then [p.part] else []
  {
    OfKeyConcat(ps, [p], key);
    OfKeyCons(p, [], key);
    assert [p] + [] == [p];
  }

  lemma {:induction false} MergeSnoc(metric: Metric, a: Accum, ps: seq<Partial>, p: Partial)
    ensures Merge(metric, a, ps + [p]) == Add(metric, Merge(metric, a, ps), p)
    decreases ps
  {
    hide Add;
    if ps == [] {
      assert ps + [p] == [p] && [p][1..] == [];
    } else {
      assert (ps + [p])[1..] == ps[1..] + [p];
      MergeSnoc(metric, Add(metric, a, ps[0]), ps[1..], p);
    }
  }

  /** Folds one partition's result rows into the accumulators. */
  method Accumulate(metric: Metric, rows: seq<SqlRow>, acc: map<string, Accum>, ghost seen: seq<SqlRow>)
    returns (r: map<string, Accum>)
    requires Accumulated(metric, acc, seen)
    ensures Accumulated(metric, r, seen + rows)
  {
    hide Add, Accumulated;
    r := acc;
    assert seen + rows[..0] == seen;
    for i := 0 to |rows|
      invariant Accumulated(metric, r, seen + rows[..i])
    {
      var p := rows[i];
      assert seen + rows[..i + 1] == seen + rows[..i] + [p];
      AccumulateOne(metric, r, seen + rows[..i], p);
      var key := GoKey(p.key);
      r := r[key := Add(metric, if key in r then r[key] else ZERO, p.part)];
    }
    assert rows[..|rows|] == rows;
  }

  lemma AccumulateOne(metric: Metric, r: map<string, Accum>, seen: seq<SqlRow>, p: SqlRow)
    requires Accumulated(metric, r, seen)
    ensures var key := GoKey(p.key);
            Accumulated(metric, r[key := Add(metric, if key in r then r[key] else ZERO, p.part)], seen + [p])
  {
    hide Add, OfKey, Merge;
    var key := GoKey(p.key);
    MergeSnoc(metric, ZERO, OfKey(seen, key), p.part);
    MergeNothing(metric);
    forall k ensures OfKey(seen + [p], k) == if k == key then OfKey(seen, k) + [p.part] else OfKey(seen, k) {
      OfKeySnoc(seen, p, k);
      assert OfKey(seen, k) + [] == OfKey(seen, k);
    }
  }

  lemma MergeNothing(metric: Metric)
    ensures Merge(metric, ZERO, []) == ZERO
  {
  }

  // ---- merging partial results equals aggregating the union ----

  function Flatten(gs: seq<seq<Option<real>>>): seq<Option<real>> {
    if gs == [] then [] else Flatten(gs[..|gs| - 1]) + gs[|gs| - 1]
  }

  function Partials(metric: Metric, gs: seq<seq<Option<real>>>): seq<Partial> {
    if gs == [] then [] else Partials(metric, gs[..|gs| - 1]) + [PartialOf(metric, gs[|gs| - 1])]
  }

  lemma {:induction false} ValuesConcat(a: seq<Option<real>>, b: seq<Option<real>>)
    ensures Values(a + b) == Values(a) + Values(b)
  {
    if a == [] {
      assert a + b == b;
    } else {
      var x, rest := a[0], a[1..];
      ValuesConcat(rest, b);
      assert a == [x] + rest;
      ValuesConsConcat(x, rest, b);
    }
  }

  lemma ValuesConsConcat(x: Option<real>, rest: seq<Option<real>>, b: seq<Option<real>>)
    requires Values(rest + b) == Values(rest) + Values(b)
    ensures Values([x] + rest + b) == Values([x] + rest) + Values(b)
  {
    hide Values;
    ValuesCons(x, rest);
    ValuesCons(x, rest + b);
    assert [x] + (rest + b) == [x] + rest + b;
    Associates(if x == None then [] else [x.value], Values(rest), Values(b));
  }

  lemma ValuesCons(x: Option<real>, rest: seq<Option<real>>)
    ensures Values([x] + rest) == (if x == None then [] else [x.value]) + Values(rest)
  {
  }

  lemma {:induction false} SumConcat(a: seq<real>, b: seq<real>)
    ensures Sum(a + b) == Sum(a) + Sum(b)
  {
    if a == [] {
      assert a + b == b;
    } else {
      assert (a + b)[1..] == a[1..] + b;
      SumConcat(a[1..], b);
    }
  }

  ghost function Merged(metric: Metric, gs: seq<seq<Option<real>>>): Accum {
    Merge(metric, ZERO, Partials(metric, gs))
  }

  lemma MergedStep(metric: Metric, gs: seq<seq<Option<real>>>)
    requires gs != []
    ensures Merged(metric, gs) ==
            Add(metric, Merged(metric, gs[..|gs| - 1]), PartialOf(metric, gs[|gs| - 1]))
  {
    hide Add, PartialOf;
    MergeSnoc(metric, ZERO, Partials(metric, gs[..|gs| - 1]), PartialOf(metric, gs[|gs| - 1]));
  }

  /** Counts and sums of parts add up to the count and the sum of the whole. */
  lemma {:induction false} CountAndSumMerge(gs: seq<seq<Option<real>>>)
    ensures Value(MCount, Merged(MCount, gs)) == |Flatten(gs)| as real
    ensures Value(MSum, Merged(MSum, gs)) == Sum(Values(Flatten(gs)))
    decreases |gs|
  {
    if gs != [] {
      var rest, g := gs[..|gs| - 1], gs[|gs| - 1];
      CountAndSumMerge(rest);
      MergedStep(MCount, gs);
      MergedStep(MSum, gs);
      ValuesConcat(Flatten(rest), g);
      SumConcat(Values(Flatten(rest)), Values(g));
    }
  }

  /** Every row of the group has a metric value. */
  predicate AllPresent(g: seq<Option<real>>) { forall i :: 0 <= i < |g| ==> g[i].Some? }

  lemma {:induction false} PresentValues(g: seq<Option<real>>)
    requires AllPresent(g)
    ensures |Values(g)| == |g|
  {
    if g != [] {
      assert AllPresent(g[1..]);
      PresentValues(g[1..]);
    }
  }

  lemma {:induction false} AllValuesPresent(gs: seq<seq<Option<real>>>)
    requires forall i :: 0 <= i < |gs| ==> AllPresent(gs[i])
    ensures |Values(Flatten(gs))| == |Flatten(gs)|
    decreases |gs|
  {
    if gs != [] {
      hide Values;
      var rest, g := gs[..|gs| - 1], gs[|gs| - 1];
      AllValuesPresent(rest);
      PresentValues(g);
      ValuesConcat(Flatten(rest), g);
    } else {
      NoValues();
    }
  }

  /** When every row has a value, the weighted average of parts is the average of the whole. */
  lemma AverageMerges(gs: seq<seq<Option<real>>>)
    requires forall i :: 0 <= i < |gs| ==> AllPresent(gs[i])
    ensures |Values(Flatten(gs))| == |Flatten(gs)|
    ensures Flatten(gs) != [] ==>
              Value(MAvg, Merged(MAvg, gs)) == Sum(Values(Flatten(gs))) / |Values(Flatten(gs))| as real
  {
    hide Values, Flatten, Merged, Sum;
    AllValuesPresent(gs);
    forall i | 0 <= i < |gs| ensures HasShare(gs[i], 1, 1) {
      PresentValues(gs[i]);
    }
    AverageParts(gs, 1, 1);
  }

  /** Otherwise the average can be wrong: a row without a value weighs its partition's average. Here 3 for 5/2. */
  lemma AverageCanBeWrong()
    ensures var gs := [[Some(4.0), None], [Some(1.0)]];
            && Value(MAvg, Merged(MAvg, gs)) == 3.0
            && Sum(Values(Flatten(gs))) == 5.0 && |Values(Flatten(gs))| == 2
  {
    var gs: seq<seq<Option<real>>> := [[Some(4.0), None], [Some(1.0)]];
    assert gs[..1] == [[Some(4.0), None]] && [[Some(4.0), None]][..0] == [];
    MergedStep(MAvg, gs);
    MergedStep(MAvg, gs[..1]);
    assert Values([Some(4.0), None]) == [4.0] by { assert [Some(4.0), None][1..] == [None]; }
    assert Values([Some(1.0)]) == [1.0];
    assert Sum([4.0]) == 4.0 && Sum([1.0]) == 1.0;
    assert Flatten(gs) == [Some(4.0), None, Some(1.0)];
    ValuesConcat([Some(4.0), None], [Some(1.0)]);
    assert [Some(4.0), None] + [Some(1.0)] == [Some(4.0), None, Some(1.0)];
    SumConcat([4.0], [1.0]);
  }

  // ---- exactly when a merged average is right ----

  ghost predicate AverageRight(gs: seq<seq<Option<real>>>)
    requires Values(Flatten(gs)) != []
  {
    Value(MAvg, Merged(MAvg, gs)) == Sum(Values(Flatten(gs))) / |Values(Flatten(gs))| as real
  }

  /** A group that has values has them in the proportion valued : rows. */
  predicate HasShare(g: seq<Option<real>>, valued: nat, rows: nat) {
    Values(g) != [] ==> |g| * valued == |Values(g)| * rows
  }

  /** Every partial group that has values has them in the same proportion to its rows as all groups together. */
  predicate SameShare(gs: seq<seq<Option<real>>>) {
    forall i :: 0 <= i < |gs| ==> HasShare(gs[i], |Values(Flatten(gs))|, |Flatten(gs)|)
  }

  lemma GroupShare(g: seq<Option<real>>, valued: nat, rows: nat)
    requires HasShare(g, valued, rows)
    ensures Times(Times(Scan(PartialOf(MAvg, g).v), |g| as real), valued as real) == Times(Sum(Values(g)), rows as real)
  {
    hide Values, Sum, PartialOf;
    AveragePartial(g);
    if Values(g) != [] {
      ScaleShare(Sum(Values(g)), |Values(g)|, |g|, valued, rows);
    }
  }

  lemma AveragePartial(g: seq<Option<real>>)
    ensures PartialOf(MAvg, g).c == |g|
    ensures Values(g) == [] ==> Scan(PartialOf(MAvg, g).v) == 0.0 && Sum(Values(g)) == 0.0
    ensures Values(g) != [] ==> Scan(PartialOf(MAvg, g).v) == Sum(Values(g)) / |Values(g)| as real
  {
    hide Values;
  }

  function Times(a: real, b: real): real { a * b }

  lemma TimesAdds(a: real, b: real, k: real)
    ensures Times(a + b, k) == Times(a, k) + Times(b, k)
    ensures Times(0.0, k) == 0.0
  {
  }

  /** What one more group adds to the average's accumulator. */
  lemma AverageStep(gs: seq<seq<Option<real>>>)
    requires gs != []
    ensures var a, p := Merged(MAvg, gs[..|gs| - 1]), PartialOf(MAvg, gs[|gs| - 1]);
            && Merged(MAvg, gs).sum == a.sum + Times(Scan(p.v), p.c as real)
            && Merged(MAvg, gs).count == a.count + p.c as real
  {
    hide PartialOf, Merged;
    MergedStep(MAvg, gs);
  }

  lemma ScaleShare(s: real, v: nat, n: nat, valued: nat, rows: nat)
    requires v > 0 && n * valued == v * rows
    ensures Times(Times(s / v as real, n as real), valued as real) == Times(s, rows as real)
  {
    assert (n * valued) as real == n as real * valued as real;
    assert (v * rows) as real == v as real * rows as real;
    var q := s / v as real;
    assert q * v as real == s;
    assert q * n as real * valued as real == q * (n as real * valued as real);
    assert q * (v as real * rows as real) == q * v as real * rows as real;
  }

  lemma {:induction false} AverageParts(gs: seq<seq<Option<real>>>, valued: nat, rows: nat)
    requires forall i :: 0 <= i < |gs| ==> HasShare(gs[i], valued, rows)
    ensures Merged(MAvg, gs).count == |Flatten(gs)| as real
    ensures Times(Merged(MAvg, gs).sum, valued as real) == Times(Sum(Values(Flatten(gs))), rows as real)
    decreases |gs|
  {
    hide Values, HasShare, Sum, Times, Merged, Flatten;
    if gs == [] {
      NoParts(valued as real, rows as real);
    } else {
      AverageParts(gs[..|gs| - 1], valued, rows);
      OneMorePart(gs, valued, rows);
    }
  }

  lemma NoParts(valued: real, rows: real)
    ensures Merged(MAvg, []).count == |Flatten([])| as real
    ensures Times(Merged(MAvg, []).sum, valued) == Times(Sum(Values(Flatten([]))), rows)
  {
    NoValues();
  }

  lemma OneMorePart(gs: seq<seq<Option<real>>>, valued: nat, rows: nat)
    requires gs != [] && HasShare(gs[|gs| - 1], valued, rows)
    requires var rest := gs[..|gs| - 1];
             && Merged(MAvg, rest).count == |Flatten(rest)| as real
             && Times(Merged(MAvg, rest).sum, valued as real) == Times(Sum(Values(Flatten(rest))), rows as real)
    ensures Merged(MAvg, gs).count == |Flatten(gs)| as real
    ensures Times(Merged(MAvg, gs).sum, valued as real) == Times(Sum(Values(Flatten(gs))), rows as real)
  {
    hide Values, PartialOf, HasShare, Sum, Times, Merged, Flatten, Scan;
    var rest, g := gs[..|gs| - 1], gs[|gs| - 1];
    FlattenStep(gs);
    FlattenLength(gs);
    AverageStep(gs);
    GroupShare(g, valued, rows);
    AveragePartial(g);
    SumConcat(Values(Flatten(rest)), Values(g));
    TimesAdds(Merged(MAvg, rest).sum, Times(Scan(PartialOf(MAvg, g).v), |g| as real), valued as real);
    TimesAdds(Sum(Values(Flatten(rest))), Sum(Values(g)), rows as real);
  }

  lemma FlattenLength(gs: seq<seq<Option<real>>>)
    requires gs != []
    ensures |Flatten(gs)| == |Flatten(gs[..|gs| - 1])| + |gs[|gs| - 1]|
  {
  }

  lemma NoValues()
    ensures Values([]) == [] && Sum([]) == 0.0
  {
  }

  lemma {:induction false} FewerValues(g: seq<Option<real>>)
    ensures |Values(g)| <= |g|
  {
    if g != [] {
      FewerValues(g[1..]);
    }
  }

  lemma SameShareIsRight(gs: seq<seq<Option<real>>>)
    requires SameShare(gs) && Values(Flatten(gs)) != []
    ensures AverageRight(gs)
  {
    hide HasShare, Values, Flatten, Merged;
    var valued, rows := |Values(Flatten(gs))|, |Flatten(gs)|;
    AverageParts(gs, valued, rows);
    FewerValues(Flatten(gs));
    CrossDivide(Merged(MAvg, gs).sum, rows as real, Sum(Values(Flatten(gs))), valued as real);
  }

  lemma CrossDivide(a: real, b: real, c: real, d: real)
    requires b != 0.0 && d != 0.0
    ensures a * d == c * b <==> a / b == c / d
  {
    var x, y := a / b, c / d;
    assert x * b == a && y * d == c;
    assert a * d == x * (b * d) && c * b == y * (b * d);
    assert b * d != 0.0;
    if x * (b * d) == y * (b * d) {
      assert (x - y) * (b * d) == 0.0;
    }
  }

  /** The same rows with and without a value. */
  predicate SamePattern(a: seq<seq<Option<real>>>, b: seq<seq<Option<real>>>) {
    |a| == |b| && forall i :: 0 <= i < |a| ==> SameGroup(a[i], b[i])
  }

  predicate SameGroup(a: seq<Option<real>>, b: seq<Option<real>>) {
    |a| == |b| && forall k :: 0 <= k < |a| ==> (a[k].Some? <==> b[k].Some?)
  }

  lemma {:induction false} SameGroupSize(a: seq<Option<real>>, b: seq<Option<real>>)
    requires SameGroup(a, b)
    ensures |Values(a)| == |Values(b)|
  {
    if a != [] {
      SameGroupSize(a[1..], b[1..]);
    }
  }

  lemma {:induction false} SamePatternSize(a: seq<seq<Option<real>>>, b: seq<seq<Option<real>>>)
    requires SamePattern(a, b)
    ensures |Flatten(a)| == |Flatten(b)| && |Values(Flatten(a))| == |Values(Flatten(b))|
    decreases |a|
  {
    if a != [] {
      hide SameGroup, Values;
      var n := |a| - 1;
      SamePatternSize(a[..n], b[..n]);
      ValuesConcat(Flatten(a[..n]), a[n]);
      ValuesConcat(Flatten(b[..n]), b[n]);
      assert SameGroup(a[n], b[n]);
      SameGroupSize(a[n], b[n]);
      GroupLength(a[n], b[n]);
    } else {
      assert b == [];
    }
  }

  lemma GroupLength(a: seq<Option<real>>, b: seq<Option<real>>)
    requires SameGroup(a, b)
    ensures |a| == |b|
  {
  }

  /** Every value of the group replaced by x. */
  function Paint(g: seq<Option<real>>, x: real): seq<Option<real>> {
    seq(|g|, k requires 0 <= k < |g| => if g[k].Some? then Some(x) else None)
  }

  /** One group painted 1, the others 0. */
  function PaintOne(gs: seq<seq<Option<real>>>, i: nat): seq<seq<Option<real>>> {
    seq(|gs|, k requires 0 <= k < |gs| => Paint(gs[k], if k == i then 1.0 else 0.0))
  }

  lemma {:induction false} PaintedSum(g: seq<Option<real>>, x: real)
    requires x == 0.0 || x == 1.0
    ensures |Values(Paint(g, x))| == |Values(g)|
    ensures Sum(Values(Paint(g, x))) == if x == 0.0 then 0.0 else |Values(g)| as real
  {
    if g == [] {
      NoValues();
    } else {
      hide Values;
      var rest, head := g[1..], if g[0].Some? then Some(x) else None;
      PaintedSum(rest, x);
      assert Paint(g, x) == [head] + Paint(rest, x) && g == [g[0]] + rest;
      ValuesCons(head, Paint(rest, x));
      ValuesCons(g[0], rest);
      PutSum(x, Values(Paint(rest, x)));
      assert [] + Values(Paint(rest, x)) == Values(Paint(rest, x)) && [] + Values(rest) == Values(rest);
    }
  }

  lemma PutSum(x: real, s: seq<real>)
    ensures Sum([x] + s) == x + Sum(s)
  {
    assert ([x] + s)[1..] == s;
  }

  lemma PaintedPartial(g: seq<Option<real>>, x: real)
    requires x == 0.0 || (x == 1.0 && Values(g) != [])
    ensures Scan(PartialOf(MAvg, Paint(g, x)).v) == x && PartialOf(MAvg, Paint(g, x)).c == |g|
  {
    hide Values, Sum, PartialOf, Paint, Scan;
    PaintedSum(g, x);
    AveragePartial(Paint(g, x));
    PaintLength(g, x);
    if Values(g) != [] {
      UnitShare(|Values(g)|);
    }
  }

  lemma UnitShare(n: nat)
    requires n > 0
    ensures n as real / n as real == 1.0 && 0.0 / n as real == 0.0
  {
  }

  lemma PaintLength(g: seq<Option<real>>, x: real)
    ensures |Paint(g, x)| == |g|
  {
  }

  /** The merged sum and the true sum when one group is painted. */
  lemma {:induction false} PaintedMerge(gs: seq<seq<Option<real>>>, i: nat)
    requires i < |gs| ==> Values(gs[i]) != []
    ensures var hs := PaintOne(gs, i);
            && Merged(MAvg, hs).count == |Flatten(gs)| as real
            && Merged(MAvg, hs).sum == (if i < |gs| then |gs[i]| as real else 0.0)
            && Sum(Values(Flatten(hs))) == (if i < |gs| then |Values(gs[i])| as real else 0.0)
    decreases |gs|
  {
    hide Values, PartialOf, Paint, PaintOne, Times, Merged, Sum;
    if gs != [] {
      PaintedMerge(gs[..|gs| - 1], i);
      PaintedStep(gs, i);
    } else {
      NothingPainted(i);
    }
  }

  lemma NothingPainted(i: nat)
    ensures PaintOne([], i) == [] && Merged(MAvg, []) == ZERO && Flatten([]) == [] && Sum(Values([])) == 0.0
  {
  }

  lemma PaintedLast(gs: seq<seq<Option<real>>>, i: nat)
    requires gs != []
    ensures var (n, hs) := (|gs| - 1, PaintOne(gs, i));
            && |hs| == n + 1
            && hs[..n] == PaintOne(gs[..n], i)
            && hs[n] == Paint(gs[n], if n == i then 1.0 else 0.0)
            && |Paint(gs[n], if n == i then 1.0 else 0.0)| == |gs[n]|
  {
  }

  /** The last group adds its rows, and its values when it is the painted one. */
  lemma PaintedStep(gs: seq<seq<Option<real>>>, i: nat)
    requires gs != [] && (i < |gs| ==> Values(gs[i]) != [])
    ensures var (n, hs, front) := (|gs| - 1, PaintOne(gs, i), PaintOne(gs[..|gs| - 1], i));
            && Merged(MAvg, hs).count == Merged(MAvg, front).count + |gs[n]| as real
            && Merged(MAvg, hs).sum == Merged(MAvg, front).sum + (if n == i then |gs[n]| as real else 0.0)
            && Sum(Values(Flatten(hs))) ==
               Sum(Values(Flatten(front))) + (if n == i then |Values(gs[n])| as real else 0.0)
  {
    hide Values, PartialOf, Paint, PaintOne, Times, Merged, Sum, Scan;
    var n, hs := |gs| - 1, PaintOne(gs, i);
    var x := if n == i then 1.0 else 0.0;
    PaintedLast(gs, i);
    AverageStep(hs);
    PaintedPartial(gs[n], x);
    PaintedSum(gs[n], x);
    TimesUnit(|gs[n]| as real);
    ValuesConcat(Flatten(hs[..n]), hs[n]);
    SumConcat(Values(Flatten(hs[..n])), Values(hs[n]));
  }

  lemma TimesUnit(a: real)
    ensures Times(1.0, a) == a && Times(0.0, a) == 0.0
  {
  }

  lemma PaintedPattern(gs: seq<seq<Option<real>>>, i: nat)
    ensures SamePattern(PaintOne(gs, i), gs)
  {
  }

  /** A group with another share makes the average wrong for some values. */
  lemma OtherShareIsWrong(gs: seq<seq<Option<real>>>, i: nat)
    requires Values(Flatten(gs)) != [] && i < |gs|
    requires !HasShare(gs[i], |Values(Flatten(gs))|, |Flatten(gs)|)
    ensures SamePattern(PaintOne(gs, i), gs)
    ensures Values(Flatten(PaintOne(gs, i))) != [] && !AverageRight(PaintOne(gs, i))
  {
    hide Values, Flatten, Merged, PaintOne;
    var hs := PaintOne(gs, i);
    PaintedPattern(gs, i);
    SamePatternSize(hs, gs);
    PaintedMerge(gs, i);
    FewerValues(Flatten(gs));
    SharesDiffer(|gs[i]|, |Flatten(gs)|, |Values(gs[i])|, |Values(Flatten(gs))|);
  }

  lemma SharesDiffer(n: nat, rows: nat, v: nat, valued: nat)
    requires rows > 0 && valued > 0 && n * valued != v * rows
    ensures n as real / rows as real != v as real / valued as real
  {
    assert (n * valued) as real == n as real * valued as real;
    assert (v * rows) as real == v as real * rows as real;
    CrossDivide(n as real, rows as real, v as real, valued as real);
  }

  /**
    * A merged average is right for all values the rows can hold exactly when every partial group that has
    * values has them in the same proportion to its rows: counting rows without a value shifts the weights.
    */
  lemma AverageIsRightWhen(gs: seq<seq<Option<real>>>)
    requires Values(Flatten(gs)) != []
    ensures SameShare(gs) <==>
            forall hs :: SamePattern(hs, gs) && Values(Flatten(hs)) != [] ==> AverageRight(hs)
  {
    hide Values, Flatten, AverageRight, HasShare, SamePattern, PaintOne;
    if SameShare(gs) {
      forall hs | SamePattern(hs, gs) && Values(Flatten(hs)) != [] ensures AverageRight(hs) {
        ShareOfPattern(hs, gs);
        SameShareIsRight(hs);
      }
    } else {
      var i :| 0 <= i < |gs| && !HasShare(gs[i], |Values(Flatten(gs))|, |Flatten(gs)|);
      OtherShareIsWrong(gs, i);
    }
  }

  lemma ShareOfPattern(hs: seq<seq<Option<real>>>, gs: seq<seq<Option<real>>>)
    requires SamePattern(hs, gs) && SameShare(gs)
    ensures SameShare(hs)
  {
    hide Flatten, Values;
    SamePatternSize(hs, gs);
    forall i | 0 <= i < |hs| ensures HasShare(hs[i], |Values(Flatten(hs))|, |Flatten(hs)|) {
      assert SameGroup(hs[i], gs[i]);
      SameGroupSize(hs[i], gs[i]);
      assert HasShare(gs[i], |Values(Flatten(gs))|, |Flatten(gs)|);
    }
  }

  /** Every partial group holds at least one value. */
  predicate AllValued(gs: seq<seq<Option<real>>>) { forall i :: 0 <= i < |gs| ==> Values(gs[i]) != [] }

  lemma SmallestConcat(a: seq<real>, b: seq<real>)
    requires a != [] && b != []
    ensures Smallest(a + b) == if Smallest(a) <= Smallest(b) then Smallest(a) else Smallest(b)
    ensures Largest(a + b) == if Largest(a) >= Largest(b) then Largest(a) else Largest(b)
  {
    hide Smallest, Largest;
    var c := a + b;
    var i :| 0 <= i < |a| && a[i] == Smallest(a);
    assert c[i] == a[i];
    var k :| 0 <= k < |b| && b[k] == Smallest(b);
    assert c[|a| + k] == b[k];
    var l :| 0 <= l < |a| && a[l] == Largest(a);
    assert c[l] == a[l];
    var m :| 0 <= m < |b| && b[m] == Largest(b);
    assert c[|a| + m] == b[m];
  }

  /** The minimum of all values, except that a partial group without any value contributes a zero. */
  function MinAnswer(vs: seq<real>, valued: bool): real {
    if vs == [] then 0.0 else if valued || Smallest(vs) <= 0.0 then Smallest(vs) else 0.0
  }

  function MaxAnswer(vs: seq<real>, valued: bool): real {
    if vs == [] then 0.0 else if valued || Largest(vs) >= 0.0 then Largest(vs) else 0.0
  }

  /** Merging one more group into an answer. */
  lemma AnswerJoin(va: seq<real>, valued: bool, vb: seq<real>)
    requires valued ==> va != []
    ensures var b := if vb == [] then 0.0 else Smallest(vb);
            MinAnswer(va + vb, valued && vb != []) == if b < MinAnswer(va, valued) then b else MinAnswer(va, valued)
    ensures var b := if vb == [] then 0.0 else Largest(vb);
            MaxAnswer(va + vb, valued && vb != []) == if b > MaxAnswer(va, valued) then b else MaxAnswer(va, valued)
  {
    hide Smallest, Largest;
    if va == [] {
      assert va + vb == vb;
    } else if vb == [] {
      assert va + vb == va;
    } else {
      SmallestConcat(va, vb);
    }
  }

  lemma FlattenStep(gs: seq<seq<Option<real>>>)
    requires gs != []
    ensures Values(Flatten(gs)) == Values(Flatten(gs[..|gs| - 1])) + Values(gs[|gs| - 1])
  {
    ValuesConcat(Flatten(gs[..|gs| - 1]), gs[|gs| - 1]);
  }

  /** What the merged extremes are, for any list of partial groups. */
  lemma {:induction false} ExtremesMerge(gs: seq<seq<Option<real>>>)
    requires gs != []
    ensures Merged(MMin, gs).hasMM && Merged(MMax, gs).hasMM
    ensures Merged(MMin, gs).min == MinAnswer(Values(Flatten(gs)), AllValued(gs))
    ensures Merged(MMax, gs).max == MaxAnswer(Values(Flatten(gs)), AllValued(gs))
    decreases |gs|
  {
    hide Smallest, Largest, Values, Merged, AllValued, Flatten, MinAnswer, MaxAnswer;
    var rest, g := gs[..|gs| - 1], gs[|gs| - 1];
    MergedStep(MMin, gs);
    MergedStep(MMax, gs);
    FlattenStep(gs);
    AllValuedStep(gs);
    if rest != [] {
      ExtremesMerge(rest);
      if AllValued(rest) {
        ValuedHasValues(rest);
      }
      AnswerJoin(Values(Flatten(rest)), AllValued(rest), Values(g));
    } else {
      OneGroup(g);
      assert gs == [g];
    }
  }

  lemma OneGroup(g: seq<Option<real>>)
    ensures Merged(MMin, []) == ZERO && Merged(MMax, []) == ZERO
    ensures Values(Flatten([g])) == Values(g) && AllValued([g]) == (Values(g) != [])
    ensures MinAnswer(Values(g), Values(g) != []) == Scan(PartialOf(MMin, g).v)
    ensures MaxAnswer(Values(g), Values(g) != []) == Scan(PartialOf(MMax, g).v)
  {
    hide Values, Smallest, Largest;
    assert [g][..0] == [] && [] + g == g;
    assert Flatten([g]) == g;
    assert [g][0] == g;
  }

  lemma AllValuedStep(gs: seq<seq<Option<real>>>)
    requires gs != []
    ensures AllValued(gs) <==> AllValued(gs[..|gs| - 1]) && Values(gs[|gs| - 1]) != []
  {
  }

  lemma ValuedHasValues(gs: seq<seq<Option<real>>>)
    requires gs != [] && AllValued(gs)
    ensures Values(Flatten(gs)) != []
  {
    ValuesConcat(Flatten(gs[..|gs| - 1]), gs[|gs| - 1]);
  }

  predicate SomeAtMost(vs: seq<real>, x: real) { exists i :: 0 <= i < |vs| && vs[i] <= x }

  predicate SomeAtLeast(vs: seq<real>, x: real) { exists i :: 0 <= i < |vs| && vs[i] >= x }

  /**
    * Exactly when the merged minimum and maximum are right: every partial group has a value, or some value is
    * at most zero, for the minimum, or at least zero, for the maximum.
    */
  lemma ExtremesAreRightWhen(gs: seq<seq<Option<real>>>)
    requires Values(Flatten(gs)) != []
    ensures Value(MMin, Merged(MMin, gs)) == Smallest(Values(Flatten(gs))) <==>
            AllValued(gs) || SomeAtMost(Values(Flatten(gs)), 0.0)
    ensures Value(MMax, Merged(MMax, gs)) == Largest(Values(Flatten(gs))) <==>
            AllValued(gs) || SomeAtLeast(Values(Flatten(gs)), 0.0)
  {
    hide Smallest, Largest, Values, Merged, AllValued, SomeAtMost, SomeAtLeast;
    SomeGroup(gs);
    ExtremesMerge(gs);
    ExtremeAgainst(Values(Flatten(gs)), 0.0);
  }

  lemma ExtremeAgainst(vs: seq<real>, x: real)
    requires vs != []
    ensures SomeAtMost(vs, x) <==> Smallest(vs) <= x
    ensures SomeAtLeast(vs, x) <==> Largest(vs) >= x
  {
    hide Smallest, Largest;
    var i :| 0 <= i < |vs| && vs[i] == Smallest(vs);
    var k :| 0 <= k < |vs| && vs[k] == Largest(vs);
  }

  lemma SomeGroup(gs: seq<seq<Option<real>>>)
    requires Values(Flatten(gs)) != []
    ensures gs != []
  {
  }

  // ---- from rows to groups ----

  /** The values of the rows with one SQL group key. */
  function GroupOf(rows: seq<Datum>, key: Key): seq<Option<real>> {
    if rows == [] then [] else (if rows[0].key == key then [rows[0].val] else []) + GroupOf(rows[1..], key)
  }

  /** The values of the rows whose key reads as the given string, whatever their kinds. */
  function Select(rows: seq<Datum>, key: string): seq<Option<real>> {
    if rows == [] then [] else (if GoKey(rows[0].key) == key then [rows[0].val] else []) + Select(rows[1..], key)
  }

  /** A row counts for the text its key reads as, and for the empty text when it has none. */
  lemma SelectOne(d: Datum, key: string)
    ensures Select([d], key) ==
            match d.key
            case Null => (if key == "" then [d.val] else [])
            case Keyed(_, text) => (if text == key then [d.val] else [])
  {
    assert [d][1..] == [];
  }

  /** keys lists each group key that occurs, once, in the order the database returns them. */
  ghost predicate KeysOf(rows: seq<Datum>, keys: seq<Key>) {
    && (forall i, j :: 0 <= i < j < |keys| ==> keys[i] != keys[j])
    && (forall i :: 0 <= i < |rows| ==> rows[i].key in keys)
    && (forall i :: 0 <= i < |keys| ==> GroupOf(rows, keys[i]) != [])
  }

  /** SELECT key, metric, COUNT(*) ... GROUP BY key over one partition's matching rows. */
  function GroupedRows(metric: Metric, rows: seq<Datum>, keys: seq<Key>): seq<SqlRow> {
    if keys == [] then []
    else
      var k := keys[|keys| - 1];
      GroupedRows(metric, rows, keys[..|keys| - 1]) + [SqlRow(k, PartialOf(metric, GroupOf(rows, k)))]
  }

  /** The groups of one partition that read as the given key. */
  function GroupsFor(rows: seq<Datum>, keys: seq<Key>, key: string): seq<seq<Option<real>>> {
    if keys == [] then []
    else
      var k := keys[|keys| - 1];
      GroupsFor(rows, keys[..|keys| - 1], key) + if GoKey(k) == key then [GroupOf(rows, k)] else []
  }

  lemma {:induction false} GroupedOfKey(metric: Metric, rows: seq<Datum>, keys: seq<Key>, key: string)
    ensures OfKey(GroupedRows(metric, rows, keys), key) == Partials(metric, GroupsFor(rows, keys, key))
    decreases |keys|
  {
    hide PartialOf, GroupOf, OfKey;
    if keys == [] {
      NothingOfKey(key);
    } else {
      var k, rest := keys[|keys| - 1], keys[..|keys| - 1];
      GroupedOfKey(metric, rows, rest, key);
      OfKeySnoc(GroupedRows(metric, rows, rest), SqlRow(k, PartialOf(metric, GroupOf(rows, k))), key);
      var gs := GroupsFor(rows, rest, key);
      if GoKey(k) == key {
        assert (gs + [GroupOf(rows, k)])[..|gs|] == gs;
      } else {
        assert gs + [] == gs;
        assert OfKey(GroupedRows(metric, rows, rest), key) + [] == OfKey(GroupedRows(metric, rows, rest), key);
      }
    }
  }

  lemma NothingOfKey(key: string)
    ensures OfKey([], key) == []
  {
  }

  /** Groups taken apart by SQL key hold together exactly the rows that read as the key. */
  lemma {:induction false} GroupsHoldSelection(rows: seq<Datum>, keys: seq<Key>, key: string)
    requires forall i, j :: 0 <= i < j < |keys| ==> keys[i] != keys[j]
    requires forall i :: 0 <= i < |rows| ==> rows[i].key in keys
    ensures multiset(Flatten(GroupsFor(rows, keys, key))) == multiset(Select(rows, key))
    decreases rows
  {
    hide GroupsFor, Flatten;
    if rows == [] {
      NoRowsNoValues(keys, key);
    } else {
      var r, rest := rows[0], rows[1..];
      assert rows == [r] + rest;
      forall i | 0 <= i < |rest| ensures rest[i].key in keys {
        assert rest[i] == rows[i + 1];
      }
      GroupsHoldSelection(rest, keys, key);
      OneMoreRow(r, rest, keys, key);
      assert r == rows[0] && r.key in keys;
    }
  }

  lemma {:induction false} NoRowsNoValues(keys: seq<Key>, key: string)
    ensures Flatten(GroupsFor([], keys, key)) == []
    decreases |keys|
  {
    if keys != [] {
      NoRowsNoValues(keys[..|keys| - 1], key);
      var gs := GroupsFor([], keys[..|keys| - 1], key);
      if GoKey(keys[|keys| - 1]) == key {
        assert (gs + [[]])[..|gs|] == gs;
        assert GroupOf([], keys[|keys| - 1]) == [];
        assert Flatten(gs + [[]]) == Flatten(gs) + [];
      } else {
        assert gs + [] == gs;
      }
    }
  }

  /** A further row adds its value to its own group alone. */
  lemma {:induction false} OneMoreRow(r: Datum, rows: seq<Datum>, keys: seq<Key>, key: string)
    requires forall i, j :: 0 <= i < j < |keys| ==> keys[i] != keys[j]
    ensures multiset(Flatten(GroupsFor([r] + rows, keys, key))) ==
            multiset(Flatten(GroupsFor(rows, keys, key))) +
            if r.key in keys && GoKey(r.key) == key then multiset{r.val} else multiset{}
    decreases |keys|
  {
    hide GroupOf, GroupsFor, Flatten;
    GroupsForStep(rows, keys, key);
    GroupsForStep([r] + rows, keys, key);
    if keys != [] {
      var k, rest := keys[|keys| - 1], keys[..|keys| - 1];
      OneMoreRow(r, rows, rest, key);
      GroupCons(r, rows, k);
      FlattenGroup(GroupsFor(rows, rest, key), GroupOf(rows, k));
      FlattenGroup(GroupsFor([r] + rows, rest, key), GroupOf([r] + rows, k));
      InSnoc(keys, r.key);
    }
  }

  lemma GroupsForStep(rows: seq<Datum>, keys: seq<Key>, key: string)
    ensures GroupsFor(rows, keys, key) ==
            if keys == [] then []
            else
              var gs, k := GroupsFor(rows, keys[..|keys| - 1], key), keys[|keys| - 1];
              if GoKey(k) == key then gs + [GroupOf(rows, k)] else gs
  {
  }

  lemma InSnoc(keys: seq<Key>, k: Key)
    requires keys != [] && forall i, j :: 0 <= i < j < |keys| ==> keys[i] != keys[j]
    ensures k in keys <==> k in keys[..|keys| - 1] || k == keys[|keys| - 1]
    ensures k in keys[..|keys| - 1] ==> k != keys[|keys| - 1]
  {
  }

  lemma GroupCons(r: Datum, rows: seq<Datum>, k: Key)
    ensures GroupOf([r] + rows, k) == (if r.key == k then [r.val] else []) + GroupOf(rows, k)
  {
  }

  lemma FlattenGroup(gs: seq<seq<Option<real>>>, g: seq<Option<real>>)
    ensures Flatten(gs + [g]) == Flatten(gs) + g
  {
  }

  // ---- the metrics do not depend on the order of values ----

  lemma {:induction false} ValuesCount(g: seq<Option<real>>, v: real)
    ensures multiset(Values(g))[v] == multiset(g)[Some(v)]
  {
    if g != [] {
      assert g == [g[0]] + g[1..];
      ValuesCount(g[1..], v);
    }
  }

  lemma ValuesPermute(a: seq<Option<real>>, b: seq<Option<real>>)
    requires multiset(a) == multiset(b)
    ensures multiset(Values(a)) == multiset(Values(b))
  {
    hide Values;
    forall v ensures multiset(Values(a))[v] == multiset(Values(b))[v] {
      ValuesCount(a, v);
      ValuesCount(b, v);
    }
  }

  /** Taking one occurrence out of a list. */
  lemma TakeOut(b: seq<real>, i: nat)
    requires i < |b|
    ensures multiset(b[..i] + b[i + 1..]) == multiset(b) - multiset{b[i]}
    ensures Sum(b) == b[i] + Sum(b[..i] + b[i + 1..])
  {
    hide Sum;
    var front, back := b[..i], b[i + 1..];
    assert b == (front + [b[i]]) + back;
    SumConcat(front + [b[i]], back);
    SumAround(front, b[i], back);
  }

  lemma SumAround(front: seq<real>, x: real, back: seq<real>)
    ensures Sum(front + [x]) + Sum(back) == x + Sum(front + back)
  {
    SumConcat(front, [x]);
    SumConcat(front, back);
  }

  lemma {:induction false} SumPermutes(a: seq<real>, b: seq<real>)
    requires multiset(a) == multiset(b)
    ensures Sum(a) == Sum(b)
    decreases a
  {
    if a == [] {
      assert |multiset(b)| == 0;
    } else {
      assert a == [a[0]] + a[1..];
      assert a[0] in multiset(b);
      var i :| 0 <= i < |b| && b[i] == a[0];
      TakeOut(b, i);
      assert multiset(a[1..]) == multiset(a) - multiset{a[0]};
      SumPermutes(a[1..], b[..i] + b[i + 1..]);
    }
  }

  lemma ExtremesPermute(a: seq<real>, b: seq<real>)
    requires multiset(a) == multiset(b) && a != [] && b != []
    ensures Smallest(a) == Smallest(b) && Largest(a) == Largest(b)
  {
    hide Smallest, Largest;
    forall x ensures x in a <==> x in b {
      assert x in a <==> x in multiset(a);
      assert x in b <==> x in multiset(b);
    }
    assert Smallest(a) in b && Smallest(b) in a && Largest(a) in b && Largest(b) in a;
  }

  /**
    * Merging the partitions' results for a key equals aggregating all their rows that read as the key:
    * groups are the partial groups of any number of days, all the selected rows in any order.
    */
  lemma MergeIsUnion(gs: seq<seq<Option<real>>>, all: seq<Option<real>>)
    requires multiset(Flatten(gs)) == multiset(all)
    ensures Value(MCount, Merged(MCount, gs)) == |all| as real
    ensures Value(MSum, Merged(MSum, gs)) == Sum(Values(all))
    ensures Values(all) != [] && AllValued(gs) ==>
              && Value(MMin, Merged(MMin, gs)) == Smallest(Values(all))
              && Value(MMax, Merged(MMax, gs)) == Largest(Values(all))
    ensures (forall i :: 0 <= i < |gs| ==> AllPresent(gs[i])) && Values(all) != [] ==>
              Value(MAvg, Merged(MAvg, gs)) == Sum(Values(all)) / |Values(all)| as real
  {
    hide Smallest, Largest, Values, Merged, AllValued, Flatten, Sum, AllPresent, Value;
    assert |multiset(Flatten(gs))| == |Flatten(gs)| && |multiset(all)| == |all|;
    CountAndSumMerge(gs);
    ValuesPermute(Flatten(gs), all);
    SumPermutes(Values(Flatten(gs)), Values(all));
    assert |multiset(Values(Flatten(gs)))| == |Values(Flatten(gs))| && |multiset(Values(all))| == |Values(all)|;
    if Values(all) != [] {
      ExtremesPermute(Values(Flatten(gs)), Values(all));
      ExtremesAreRightWhen(gs);
      if forall i :: 0 <= i < |gs| ==> AllPresent(gs[i]) {
        AverageMerges(gs);
        NonemptyFlat(Flatten(gs));
      }
    }
  }

  lemma NonemptyFlat(g: seq<Option<real>>)
    requires Values(g) != []
    ensures g != []
  {
  }

  // ---- several partitions ----

  /** One partition's matching rows and the order in which the database returns its groups. */
  datatype Day = Day(rows: seq<Datum>, keys: seq<Key>)

  ghost predicate DaysOk(days: seq<Day>) {
    forall i :: 0 <= i < |days| ==> KeysOf(days[i].rows, days[i].keys)
  }

  /** A partition's result rows; without a group field there is always exactly one, even over no rows. */
  function SqlResult(metric: Metric, grouped: bool, d: Day): seq<SqlRow> {
    if grouped then GroupedRows(metric, d.rows, d.keys)
    else [SqlRow(Keyed(0, ""), PartialOf(metric, AllValues(d.rows)))]
  }

  function AllValues(rows: seq<Datum>): (r: seq<Option<real>>)
    ensures |r| == |rows| && forall i :: 0 <= i < |rows| ==> r[i] == rows[i].val
  {
    if rows == [] then [] else [rows[0].val] + AllValues(rows[1..])
  }

  function AllSqlRows(metric: Metric, grouped: bool, days: seq<Day>): seq<SqlRow> {
    if days == [] then []
    else AllSqlRows(metric, grouped, days[..|days| - 1]) + SqlResult(metric, grouped, days[|days| - 1])
  }

  /** The partial groups of all partitions that read as the key. */
  function AllGroups(days: seq<Day>, key: string): seq<seq<Option<real>>> {
    if days == [] then []
    else AllGroups(days[..|days| - 1], key) + GroupsFor(days[|days| - 1].rows, days[|days| - 1].keys, key)
  }

  /** The values of all rows of all partitions that read as the key. */
  function AllSelected(days: seq<Day>, key: string): seq<Option<real>> {
    if days == [] then [] else AllSelected(days[..|days| - 1], key) + Select(days[|days| - 1].rows, key)
  }

  lemma {:induction false} PartialsConcat(metric: Metric, a: seq<seq<Option<real>>>, b: seq<seq<Option<real>>>)
    ensures Partials(metric, a + b) == Partials(metric, a) + Partials(metric, b)
    decreases |b|
  {
    hide PartialOf;
    if b == [] {
      assert a + b == a;
    } else {
      var rest := b[..|b| - 1];
      assert (a + b)[..|a + b| - 1] == a + rest;
      PartialsConcat(metric, a, rest);
    }
  }

  lemma {:induction false} FlattenConcat(a: seq<seq<Option<real>>>, b: seq<seq<Option<real>>>)
    ensures Flatten(a + b) == Flatten(a) + Flatten(b)
    decreases |b|
  {
    if b == [] {
      assert a + b == a;
    } else {
      var rest := b[..|b| - 1];
      assert (a + b)[..|a + b| - 1] == a + rest;
      FlattenConcat(a, rest);
    }
  }

  lemma OfKeyCons(r: SqlRow, rows: seq<SqlRow>, key: string)
    ensures OfKey([r] + rows, key) == (if GoKey(r.key) == key then [r.part] else []) + OfKey(rows, key)
  {
  }

  lemma {:induction false} OfKeyConcat(a: seq<SqlRow>, b: seq<SqlRow>, key: string)
    ensures OfKey(a + b, key) == OfKey(a, key) + OfKey(b, key)
  {
    if a == [] {
      assert a + b == b;
    } else {
      var x, rest := a[0], a[1..];
      OfKeyConcat(rest, b, key);
      assert a == [x] + rest;
      OfKeyConsConcat(x, rest, b, key);
    }
  }

  lemma OfKeyConsConcat(x: SqlRow, rest: seq<SqlRow>, b: seq<SqlRow>, key: string)
    requires OfKey(rest + b, key) == OfKey(rest, key) + OfKey(b, key)
    ensures OfKey([x] + rest + b, key) == OfKey([x] + rest, key) + OfKey(b, key)
  {
    hide OfKey;
    OfKeyCons(x, rest, key);
    OfKeyCons(x, rest + b, key);
    assert [x] + (rest + b) == [x] + rest + b;
    Associates(if GoKey(x.key) == key then [x.part] else [], OfKey(rest, key), OfKey(b, key));
  }

  /** All the result rows for a key are the partial results of its groups, and the groups hold its rows. */
  lemma {:induction false} GroupsOfDays(metric: Metric, days: seq<Day>, key: string)
    requires DaysOk(days)
    ensures OfKey(AllSqlRows(metric, true, days), key) == Partials(metric, AllGroups(days, key))
    ensures multiset(Flatten(AllGroups(days, key))) == multiset(AllSelected(days, key))
    decreases |days|
  {
    hide GroupedRows, GroupsFor, Select, OfKey, Partials, Flatten;
    if days == [] {
      NothingOfKey(key);
      NoGroups(metric);
    } else {
      var rest, d := days[..|days| - 1], days[|days| - 1];
      GroupsOfDays(metric, rest, key);
      OfKeyConcat(AllSqlRows(metric, true, rest), GroupedRows(metric, d.rows, d.keys), key);
      GroupedOfKey(metric, d.rows, d.keys, key);
      GroupsHoldSelection(d.rows, d.keys, key);
      PartialsConcat(metric, AllGroups(rest, key), GroupsFor(d.rows, d.keys, key));
      FlattenConcat(AllGroups(rest, key), GroupsFor(d.rows, d.keys, key));
    }
  }

  lemma NoGroups(metric: Metric)
    ensures Partials(metric, []) == [] && Flatten([]) == []
  {
  }

  /**
    * A grouped aggregation over any number of partitions: for every key, the merged count and sum are those
    * of all its rows; the minimum, the maximum and the average too when every partial group has values.
    */
  lemma GroupedAggregation(days: seq<Day>, key: string)
    requires DaysOk(days)
    ensures var all := AllSelected(days, key);
            var merged := (m: Metric) => Merge(m, ZERO, OfKey(AllSqlRows(m, true, days), key));
            && Value(MCount, merged(MCount)) == |all| as real
            && Value(MSum, merged(MSum)) == Sum(Values(all))
            && (Values(all) != [] && AllValued(AllGroups(days, key)) ==>
                  && Value(MMin, merged(MMin)) == Smallest(Values(all))
                  && Value(MMax, merged(MMax)) == Largest(Values(all)))
            && (Values(all) != [] && AllPresent(all) ==>
                  Value(MAvg, merged(MAvg)) == Sum(Values(all)) / |Values(all)| as real)
  {
    hide Smallest, Largest, Values, AllValued, Flatten, Sum, Value;
    hide OfKey, AllSqlRows, AllGroups, AllSelected, Partials, Merge;
    forall m: Metric ensures Merge(m, ZERO, OfKey(AllSqlRows(m, true, days), key)) == Merged(m, AllGroups(days, key)) {
      GroupsOfDays(m, days, key);
    }
    GroupsOfDays(MCount, days, key);
    MergeIsUnion(AllGroups(days, key), AllSelected(days, key));
    if AllPresent(AllSelected(days, key)) {
      PresentInGroups(AllGroups(days, key), AllSelected(days, key));
    }
  }

  /**
    * A grouped minimum or maximum of a key is right exactly when every SQL group that reads as the key has a
    * value, or some value is on the other side of zero.
    */
  lemma GroupedExtremes(days: seq<Day>, key: string)
    requires DaysOk(days) && Values(AllSelected(days, key)) != []
    ensures var vs := Values(AllSelected(days, key));
            var valued := AllValued(AllGroups(days, key));
            && (Value(MMin, Merge(MMin, ZERO, OfKey(AllSqlRows(MMin, true, days), key))) == Smallest(vs) <==>
                  valued || SomeAtMost(vs, 0.0))
            && (Value(MMax, Merge(MMax, ZERO, OfKey(AllSqlRows(MMax, true, days), key))) == Largest(vs) <==>
                  valued || SomeAtLeast(vs, 0.0))
  {
    hide Smallest, Largest, Values, AllValued, Flatten, OfKey, AllSqlRows, AllGroups, AllSelected, Merge, Partials;
    hide SomeAtMost, SomeAtLeast;
    var gs, all := AllGroups(days, key), AllSelected(days, key);
    GroupsOfDays(MMin, days, key);
    GroupsOfDays(MMax, days, key);
    ValuesPermute(Flatten(gs), all);
    assert |multiset(Values(Flatten(gs)))| == |multiset(Values(all))|;
    ExtremesPermute(Values(Flatten(gs)), Values(all));
    ExtremesAreRightWhen(gs);
    ExtremeAgainst(Values(Flatten(gs)), 0.0);
    ExtremeAgainst(Values(all), 0.0);
  }

  /** The number 1 without a value and the text "1" with the value 5, in one day: the minimum for "1" is 0. */
  lemma MixedKindsMakeZero()
    ensures var keys := [Keyed(0, "1"), Keyed(1, "1")];
            var days := [Day([Datum(keys[0], None), Datum(keys[1], Some(5.0))], keys)];
            && DaysOk(days) && Values(AllSelected(days, "1")) == [5.0]
            && Value(MMin, Merge(MMin, ZERO, OfKey(AllSqlRows(MMin, true, days), "1"))) == 0.0
  {
    hide Merge, OfKey, AllSqlRows, AllGroups;
    var keys := [Keyed(0, "1"), Keyed(1, "1")];
    var rows := [Datum(keys[0], None), Datum(keys[1], Some(5.0))];
    var days := [Day(rows, keys)];
    assert days[..0] == [] && rows[0].key == keys[0] && rows[1].key == keys[1];
    TwoSelected(keys);
    var selected := Select(rows, "1");
    assert AllSelected(days, "1") == AllSelected(days[..0], "1") + selected && AllSelected(days[..0], "1") == [];
    assert [] + selected == selected;
    TwoGroups(keys);
    GroupsOfDays(MMin, days, "1");
    ZeroAgainst(AllGroups(days, "1"), AllSelected(days, "1"), 5.0);
  }

  /** A group without a value makes a positive minimum zero. */
  lemma ZeroAgainst(gs: seq<seq<Option<real>>>, all: seq<Option<real>>, x: real)
    requires multiset(Flatten(gs)) == multiset(all) && Values(all) == [x] && x > 0.0 && !AllValued(gs)
    ensures Value(MMin, Merged(MMin, gs)) == 0.0
  {
    hide Values, Flatten, Merged, AllValued, Smallest, Largest;
    ValuesPermute(Flatten(gs), all);
    assert |multiset(Values(Flatten(gs)))| == |multiset([x])| == 1;
    ExtremesPermute(Values(Flatten(gs)), [x]);
    SomeGroup(gs);
    ExtremesMerge(gs);
  }

  lemma TwoSelected(keys: seq<Key>)
    requires keys == [Keyed(0, "1"), Keyed(1, "1")]
    ensures Select([Datum(keys[0], None), Datum(keys[1], Some(5.0))], "1") == [None, Some(5.0)]
    ensures Values([None, Some(5.0)]) == [5.0]
    ensures KeysOf([Datum(keys[0], None), Datum(keys[1], Some(5.0))], keys)
  {
    var rows := [Datum(keys[0], None), Datum(keys[1], Some(5.0))];
    assert rows[1..] == [rows[1]] && rows[1..][1..] == [];
    assert Select(rows[1..], "1") == [Some(5.0)];
    var vals: seq<Option<real>> := [None, Some(5.0)];
    assert vals[1..] == [Some(5.0)] && vals[1..][1..] == [] && Values(vals[1..]) == [5.0];
    assert rows[0].key in keys && rows[1].key in keys;
  }

  lemma TwoGroups(keys: seq<Key>)
    requires keys == [Keyed(0, "1"), Keyed(1, "1")]
    ensures !AllValued(AllGroups([Day([Datum(keys[0], None), Datum(keys[1], Some(5.0))], keys)], "1"))
  {
    var rows := [Datum(keys[0], None), Datum(keys[1], Some(5.0))];
    var days := [Day(rows, keys)];
    assert rows[1..] == [rows[1]] && rows[1..][1..] == [];
    assert GroupOf(rows[1..], keys[0]) == [];
    var first := GroupOf(rows, keys[0]);
    assert first == [None] && first[1..] == [] && Values(first) == [];
    assert keys[..1] == [keys[0]] && keys[..1][..0] == [];
    assert GroupsFor(rows, keys[..1], "1") == [first];
    var gs := GroupsFor(rows, keys, "1");
    assert gs[0] == first;
    assert days[..0] == [] && AllGroups(days[..0], "1") == [];
    assert AllGroups(days, "1") == [] + gs && AllGroups(days, "1")[0] == first;
  }

  lemma PresentInGroups(gs: seq<seq<Option<real>>>, all: seq<Option<real>>)
    requires multiset(Flatten(gs)) == multiset(all) && AllPresent(all)
    ensures forall i :: 0 <= i < |gs| ==> AllPresent(gs[i])
  {
    hide Flatten;
    forall i | 0 <= i < |gs| ensures AllPresent(gs[i]) {
      forall k | 0 <= k < |gs[i]| ensures gs[i][k].Some? {
        InFlatten(gs, i, k);
        assert gs[i][k] in multiset(Flatten(gs));
        assert gs[i][k] in multiset(all);
        var l :| 0 <= l < |all| && all[l] == gs[i][k];
      }
    }
  }

  lemma {:induction false} InFlatten(gs: seq<seq<Option<real>>>, i: nat, k: nat)
    requires i < |gs| && k < |gs[i]|
    ensures gs[i][k] in Flatten(gs)
    decreases |gs|
  {
    if i < |gs| - 1 {
      assert gs[..|gs| - 1][i] == gs[i];
      InFlatten(gs[..|gs| - 1], i, k);
    }
  }

  // ---- without a group field ----

  function WholeGroups(days: seq<Day>): seq<seq<Option<real>>> {
    if days == [] then [] else WholeGroups(days[..|days| - 1]) + [AllValues(days[|days| - 1].rows)]
  }

  lemma {:induction false} UngroupedRows(metric: Metric, days: seq<Day>)
    ensures OfKey(AllSqlRows(metric, false, days), "") == Partials(metric, WholeGroups(days))
    decreases |days|
  {
    hide PartialOf, AllValues, OfKey;
    if days == [] {
      NothingOfKey("");
    } else {
      var rest, d := days[..|days| - 1], days[|days| - 1];
      var row := SqlRow(Keyed(0, ""), PartialOf(metric, AllValues(d.rows)));
      UngroupedRows(metric, rest);
      OfKeySnoc(AllSqlRows(metric, false, rest), row, "");
      var gs := WholeGroups(rest);
      assert (gs + [AllValues(d.rows)])[..|gs|] == gs;
    }
  }

  /**
    * An ungrouped minimum or maximum over several days is right exactly when every day in range, even one
    * without a matching row, has a value, or some value is on the other side of zero.
    */
  lemma UngroupedExtremes(days: seq<Day>)
    requires Values(Flatten(WholeGroups(days))) != []
    ensures var vs := Values(Flatten(WholeGroups(days)));
            var valued := AllValued(WholeGroups(days));
            && (Value(MMin, Merge(MMin, ZERO, OfKey(AllSqlRows(MMin, false, days), ""))) == Smallest(vs) <==>
                  valued || SomeAtMost(vs, 0.0))
            && (Value(MMax, Merge(MMax, ZERO, OfKey(AllSqlRows(MMax, false, days), ""))) == Largest(vs) <==>
                  valued || SomeAtLeast(vs, 0.0))
  {
    hide Smallest, Largest, Values, AllValued, Flatten, OfKey, AllSqlRows, WholeGroups, Merge, Partials;
    hide SomeAtMost, SomeAtLeast;
    UngroupedRows(MMin, days);
    UngroupedRows(MMax, days);
    ExtremesAreRightWhen(WholeGroups(days));
  }

  /** A group that holds 5 and a group without a value: the merged minimum is 0. */
  lemma EmptyGroupMakesZero()
    ensures var gs: seq<seq<Option<real>>> := [[Some(5.0)], []];
            Values(Flatten(gs)) == [5.0] && Value(MMin, Merged(MMin, gs)) == 0.0
  {
    hide Merged;
    var first: seq<Option<real>>, second: seq<Option<real>> := [Some(5.0)], [];
    var gs := [first] + [second];
    assert gs == [[Some(5.0)], []] && gs[1] == second;
    assert [first][..0] == [] && Flatten([first]) == first;
    FlattenGroup([first], second);
    assert first + second == first;
    assert Values(first) == [5.0] + Values(first[1..]) && first[1..] == [] && Values([]) == [];
    ExtremesMerge(gs);
  }

  /** The same for a day whose one row holds 5 next to a day without a row. */
  lemma EmptyDayMakesZero()
    ensures var days := [Day([Datum(Null, Some(5.0))], []), Day([], [])];
            && Values(Flatten(WholeGroups(days))) == [5.0]
            && Value(MMin, Merge(MMin, ZERO, OfKey(AllSqlRows(MMin, false, days), ""))) == 0.0
  {
    hide Merge, OfKey, AllSqlRows, Partials, Flatten, Values;
    var days := [Day([Datum(Null, Some(5.0))], []), Day([], [])];
    assert days[..1] == [days[0]] && days[..1][..0] == [];
    assert [Datum(Null, Some(5.0))][1..] == [];
    assert AllValues(days[0].rows) == [Some(5.0)] && AllValues(days[1].rows) == [];
    assert WholeGroups(days[..1]) == WholeGroups([]) + [[Some(5.0)]] == [[Some(5.0)]];
    assert WholeGroups(days) == [[Some(5.0)], []];
    UngroupedRows(MMin, days);
    EmptyGroupMakesZero();
  }

  /** An ungrouped count, sum or average over several days. */
  lemma UngroupedSums(days: seq<Day>)
    ensures var all := Flatten(WholeGroups(days));
            var merged := (m: Metric) => Merge(m, ZERO, OfKey(AllSqlRows(m, false, days), ""));
            && Value(MCount, merged(MCount)) == |all| as real
            && Value(MSum, merged(MSum)) == Sum(Values(all))
            && (Values(all) != [] && (forall i :: 0 <= i < |WholeGroups(days)| ==> AllPresent(WholeGroups(days)[i])) ==>
                  Value(MAvg, merged(MAvg)) == Sum(Values(all)) / |Values(all)| as real)
  {
    hide Values, AllValued, Flatten, OfKey, AllSqlRows, WholeGroups, Merge, Partials, Sum, AllPresent;
    UngroupedRows(MCount, days);
    UngroupedRows(MSum, days);
    UngroupedRows(MAvg, days);
    MergeIsUnion(WholeGroups(days), Flatten(WholeGroups(days)));
  }

  // ---- the answer's order ----

  datatype AggRow = AggRow(key: string, value: real)

  /** Byte-wise string order. */
  predicate LexLess(a: string, b: string) {
    if b == "" then false
    else if a == "" then true
    else a[0] < b[0] || (a[0] == b[0] && LexLess(a[1..], b[1..]))
  }

  /** Larger values first; equal values by key. */
  predicate Before(a: AggRow, b: AggRow) {
    a.value > b.value || (a.value == b.value && LexLess(a.key, b.key))
  }

  /**
    * What comes first has the larger value; of equal values, the key that is a proper beginning of the other or
    * has the smaller character where the two first differ.
    */
  lemma BeforeIff(a: AggRow, b: AggRow)
    ensures Before(a, b) <==>
            a.value > b.value ||
            (a.value == b.value && exists k :: 0 <= k <= |a.key| && k < |b.key| && Differ(a.key, b.key, k))
  {
    hide LexLess;
    LexLessIff(a.key, b.key);
  }

  /** The texts agree up to k, where the first ends or has the smaller character. */
  predicate Differ(a: string, b: string, k: nat)
    requires k <= |a| && k < |b|
  {
    a[..k] == b[..k] && (k == |a| || a[k] < b[k])
  }

  lemma {:induction false} LexLessIff(a: string, b: string)
    ensures LexLess(a, b) <==> exists k :: 0 <= k <= |a| && k < |b| && Differ(a, b, k)
  {
    if b != "" && a == "" {
      assert Differ(a, b, 0);
    } else if b != "" && a[0] < b[0] {
      assert Differ(a, b, 0);
    } else if b != "" && a[0] == b[0] {
      LexLessIff(a[1..], b[1..]);
      if k :| 0 <= k <= |a[1..]| && k < |b[1..]| && Differ(a[1..], b[1..], k) {
        assert a[..k + 1] == [a[0]] + a[1..][..k] && b[..k + 1] == [b[0]] + b[1..][..k];
        assert Differ(a, b, k + 1);
      }
      if k :| 0 <= k <= |a| && k < |b| && Differ(a, b, k) {
        assert k > 0;
        assert a[1..][..k - 1] == a[..k][1..] && b[1..][..k - 1] == b[..k][1..];
        assert Differ(a[1..], b[1..], k - 1);
      }
    }
  }

  lemma {:induction false} LexTotal(a: string, b: string)
    ensures LexLess(a, b) || LexLess(b, a) || a == b
    ensures !(LexLess(a, b) && LexLess(b, a))
    ensures !LexLess(a, a)
  {
    if a != "" && b != "" {
      LexTotal(a[1..], b[1..]);
      assert a == [a[0]] + a[1..] && b == [b[0]] + b[1..];
    }
    if a != "" {
      LexTotal(a[1..], a[1..]);
    }
  }

  lemma {:induction false} LexTransitive(a: string, b: string, c: string)
    requires LexLess(a, b) && LexLess(b, c)
    ensures LexLess(a, c)
  {
    if a != "" && a[0] == b[0] == c[0] {
      LexTransitive(a[1..], b[1..], c[1..]);
    }
  }

  lemma BeforeTransitive(a: AggRow, b: AggRow, c: AggRow)
    requires Before(a, b) && Before(b, c)
    ensures Before(a, c)
  {
    if a.value == b.value == c.value {
      LexTransitive(a.key, b.key, c.key);
    }
  }

  ghost predicate InOrder(s: seq<AggRow>) { forall i, j :: 0 <= i < j < |s| ==> Before(s[i], s[j]) }

  ghost function RowSet(s: seq<AggRow>): set<AggRow> { set i | 0 <= i < |s| :: s[i] }

  /** The answer does not depend on the map's order: rows can be put in order in one way only. */
  lemma {:induction false} OneAnswer(a: seq<AggRow>, b: seq<AggRow>)
    requires InOrder(a) && InOrder(b) && RowSet(a) == RowSet(b)
    ensures a == b
  {
    assert |a| > 0 ==> a[0] in RowSet(b);
    assert |b| > 0 ==> b[0] in RowSet(a);
    if a != [] {
      HeadIsFirst(a, b);
      TailRows(a);
      TailRows(b);
      OneAnswer(a[1..], b[1..]);
      assert a == [a[0]] + a[1..] && b == [b[0]] + b[1..];
    }
  }

  lemma HeadIsFirst(a: seq<AggRow>, b: seq<AggRow>)
    requires InOrder(a) && InOrder(b) && RowSet(a) == RowSet(b) && a != [] && b != []
    ensures a[0] == b[0]
  {
    hide Before;
    assert a[0] in RowSet(b) && b[0] in RowSet(a);
    var i :| 0 <= i < |b| && b[i] == a[0];
    var k :| 0 <= k < |a| && a[k] == b[0];
    NotBoth(a[0], b[0]);
  }

  lemma NotBoth(a: AggRow, b: AggRow)
    ensures !(Before(a, b) && Before(b, a))
  {
    LexTotal(a.key, b.key);
  }

  lemma TailRows(a: seq<AggRow>)
    requires InOrder(a) && a != []
    ensures RowSet(a[1..]) == RowSet(a) - {a[0]} && InOrder(a[1..])
  {
    hide Before;
    forall i | 0 < i < |a| ensures a[i] != a[0] {
      NotBoth(a[0], a[i]);
    }
    forall x ensures x in RowSet(a[1..]) <==> x in RowSet(a) - {a[0]} {
      if x in RowSet(a[1..]) {
        var i :| 0 <= i < |a[1..]| && a[1..][i] == x;
        assert a[i + 1] == x;
      }
      if x in RowSet(a) && x != a[0] {
        var i :| 0 <= i < |a| && a[i] == x;
        assert a[1..][i - 1] == x;
      }
    }
  }

  /** Inserts a row into an ordered list. */
  function Place(r: AggRow, s: seq<AggRow>): seq<AggRow> {
    if s == [] || Before(r, s[0]) then [r] + s else [s[0]] + Place(r, s[1..])
  }

  lemma {:induction false} PlaceKeepsOrder(r: AggRow, s: seq<AggRow>)
    requires InOrder(s) && forall i :: 0 <= i < |s| ==> s[i].key != r.key
    ensures InOrder(Place(r, s)) && RowSet(Place(r, s)) == RowSet(s) + {r}
  {
    hide Before;
    RowSetCons(r, s);
    if s != [] && !Before(r, s[0]) {
      OneIsBefore(s[0], r);
      var rest := Place(r, s[1..]);
      TailRows(s);
      PlaceKeepsOrder(r, s[1..]);
      RowSetCons(s[0], rest);
      forall j | 0 <= j < |rest| ensures Before(s[0], rest[j]) {
        assert rest[j] in RowSet(rest);
        if rest[j] != r {
          assert rest[j] in RowSet(s[1..]);
          var i :| 0 <= i < |s[1..]| && s[1..][i] == rest[j];
          assert s[i + 1] == rest[j];
        }
      }
    } else if s != [] {
      forall j | 0 <= j < |s| ensures Before(r, s[j]) {
        if j > 0 {
          BeforeTransitive(r, s[0], s[j]);
        }
      }
    }
  }

  lemma OneIsBefore(a: AggRow, b: AggRow)
    requires a.key != b.key
    ensures Before(a, b) || Before(b, a)
  {
    LexTotal(a.key, b.key);
  }

  lemma RowSetCons(r: AggRow, s: seq<AggRow>)
    ensures RowSet([r] + s) == RowSet(s) + {r}
  {
    forall x ensures x in RowSet([r] + s) <==> x in RowSet(s) + {r} {
      if x in RowSet(s) {
        var i :| 0 <= i < |s| && s[i] == x;
        assert ([r] + s)[i + 1] == x;
      }
      assert ([r] + s)[0] == r;
    }
  }

  /** The rows an aggregation answers with, before ordering: one per key. */
  ghost function Answers(metric: Metric, acc: map<string, Accum>): set<AggRow> {
    set k | k in acc :: AggRow(k, Value(metric, acc[k]))
  }

  /** The answer's row for a key: its partial results merged. */
  function Answer(metric: Metric, rows: seq<SqlRow>, key: string): AggRow {
    AggRow(key, Value(metric, Merge(metric, ZERO, OfKey(rows, key))))
  }

  /** One row for every key that the partitions' results have. */
  ghost function AnswerSet(metric: Metric, rows: seq<SqlRow>): set<AggRow> {
    set i | 0 <= i < |rows| :: Answer(metric, rows, GoKey(rows[i].key))
  }

  lemma {:induction false} HasKey(rows: seq<SqlRow>, key: string)
    ensures OfKey(rows, key) != [] <==> exists i :: 0 <= i < |rows| && GoKey(rows[i].key) == key
  {
    if rows != [] {
      HasKey(rows[1..], key);
      if i :| 0 <= i < |rows| && GoKey(rows[i].key) == key {
        assert i > 0 ==> rows[1..][i - 1] == rows[i];
      }
      if i :| 0 <= i < |rows[1..]| && GoKey(rows[1..][i].key) == key {
        assert rows[i + 1] == rows[1..][i];
      }
    }
  }

  lemma AccumulatedAnswers(metric: Metric, acc: map<string, Accum>, rows: seq<SqlRow>)
    requires Accumulated(metric, acc, rows)
    ensures Answers(metric, acc) == AnswerSet(metric, rows)
  {
    hide Value, Merge, OfKey, GoKey;
    forall r ensures r in Answers(metric, acc) <==> r in AnswerSet(metric, rows) {
      HasKey(rows, r.key);
      if r in AnswerSet(metric, rows) {
        var i :| 0 <= i < |rows| && r == Answer(metric, rows, GoKey(rows[i].key));
      }
      if r in Answers(metric, acc) {
        var i :| 0 <= i < |rows| && GoKey(rows[i].key) == r.key;
        assert r == Answer(metric, rows, GoKey(rows[i].key));
      }
    }
  }

  lemma {:induction false} OrderedAreDistinct(s: seq<AggRow>)
    requires InOrder(s)
    ensures |RowSet(s)| == |s|
  {
    hide Before;
    if s != [] {
      TailRows(s);
      OrderedAreDistinct(s[1..]);
      assert s[0] in RowSet(s);
    } else {
      assert RowSet(s) == {};
    }
  }

  /** How many rows an answer may have. */
  function Cap(limit: int): nat { if limit <= 0 then 50 else limit }

  /** The front of an ordered list: what is left out comes after all of it. */
  lemma FrontOf(full: seq<AggRow>, n: nat)
    requires InOrder(full)
    ensures var out := if |full| > n then full[..n] else full;
            && InOrder(out) && RowSet(out) <= RowSet(full) && |out| == Min(n, |RowSet(full)|)
            && forall r, i :: r in RowSet(full) && r !in out && 0 <= i < |out| ==>
                 Before(out[i], r) && out[i].value >= r.value
  {
    hide Before;
    OrderedAreDistinct(full);
    var out := if |full| > n then full[..n] else full;
    forall r, i | r in RowSet(full) && r !in out && 0 <= i < |out|
      ensures Before(out[i], r) && out[i].value >= r.value
    {
      var k :| 0 <= k < |full| && full[k] == r;
      assert k < |out| ==> r in out;
      BeforeIff(out[i], r);
    }
  }

  /**
    * Merges the partitions' result rows and lists the answer, at most limit rows in order; the rows left out
    * come after all that are listed. `full` is the one ordered list of all rows, of which the answer is the
    * front, however the accumulators are iterated.
    */
  method AggregateDays(metric: Metric, grouped: bool, days: seq<Day>, limit: int)
    returns (out: seq<AggRow>, ghost full: seq<AggRow>)
    ensures var all := AnswerSet(metric, AllSqlRows(metric, grouped, days));
            && InOrder(out) && RowSet(out) <= all && |out| == Min(if limit <= 0 then 50 else limit, |all|)
            && forall r, i :: r in all && r !in out && 0 <= i < |out| ==> Before(out[i], r) && out[i].value >= r.value
    ensures InOrder(full) && RowSet(full) == AnswerSet(metric, AllSqlRows(metric, grouped, days))
    ensures out == if |full| > Cap(limit) then full[..Cap(limit)] else full
    ensures forall other :: InOrder(other) && RowSet(other) == RowSet(full) ==> other == full
  {
    hide Accumulated, Before, Value, SqlResult, AnswerSet, InOrder, RowSet;
    var merged: map<string, Accum> := map[];
    assert Accumulated(metric, merged, AllSqlRows(metric, grouped, days[..0])) by { NothingAccumulated(metric); }
    for i := 0 to |days|
      invariant Accumulated(metric, merged, AllSqlRows(metric, grouped, days[..i]))
    {
      assert days[..i + 1][..i] == days[..i];
      merged := Accumulate(metric, SqlResult(metric, grouped, days[i]), merged, AllSqlRows(metric, grouped, days[..i]));
    }
    assert days[..|days|] == days;
    AccumulatedAnswers(metric, merged, AllSqlRows(metric, grouped, days));
    out := OrderRows(metric, merged);
    full := out;
    FrontOf(full, Cap(limit));
    forall other | InOrder(other) && RowSet(other) == RowSet(full) ensures other == full {
      OneAnswer(other, full);
    }
    if |out| > Cap(limit) {
      out := out[..Cap(limit)];
    }
  }

  lemma NothingAccumulated(metric: Metric)
    ensures Accumulated(metric, map[], [])
  {
  }

  /** Lists the accumulators in any order and orders the rows. */
  method OrderRows(metric: Metric, acc: map<string, Accum>) returns (out: seq<AggRow>)
    ensures InOrder(out) && RowSet(out) == Answers(metric, acc)
  {
    hide Before, Value, InOrder;
    out := [];
    var rest := acc.Keys;
    assert InOrder(out) by { NothingInOrder(); }
    while rest != {}
      invariant rest <= acc.Keys
      invariant InOrder(out) && RowSet(out) == set k | k in acc && k !in rest :: AggRow(k, Value(metric, acc[k]))
      decreases rest
    {
      var k :| k in rest;
      var r := AggRow(k, Value(metric, acc[k]));
      forall i | 0 <= i < |out| ensures out[i].key != k {
        assert out[i] in RowSet(out);
      }
      PlaceKeepsOrder(r, out);
      out := Place(r, out);
      rest := rest - {k};
    }
  }

  lemma NothingInOrder()
    ensures InOrder([])
  {
  }

  // ---- percentiles ----

  const SELF := (x: real) => x

  function SortReals(s: seq<real>): seq<real> { Sorting.Sort(s, SELF) }

  ghost predicate Ascending(s: seq<real>) { forall i, j :: 0 <= i <= j < |s| ==> s[i] <= s[j] }

  lemma SortRealsSorts(s: seq<real>)
    ensures Ascending(SortReals(s)) && multiset(SortReals(s)) == multiset(s)
    ensures |SortReals(s)| == |s|
  {
    hide Sorting.Sort;
    Sorting.SortSorts(s, SELF);
    forall i, j | 0 <= i <= j < |s| ensures SortReals(s)[i] <= SortReals(s)[j] {
      Sorting.SortedPairs(SortReals(s), SELF, i, j);
    }
  }

  /** How many values are at most, or below, v. */
  function AtMost(s: seq<real>, v: real): nat {
    if s == [] then 0 else (if s[0] <= v then 1 else 0) + AtMost(s[1..], v)
  }

  function Below(s: seq<real>, v: real): nat {
    if s == [] then 0 else (if s[0] < v then 1 else 0) + Below(s[1..], v)
  }

  lemma {:induction false} CountsInSorted(s: seq<real>, i: nat)
    requires Ascending(s) && i < |s|
    ensures AtMost(s, s[i]) >= i + 1 && Below(s, s[i]) <= i
  {
    if i > 0 {
      CountsInSorted(s[1..], i - 1);
    } else {
      NoneBelow(s, s[0]);
    }
  }

  lemma {:induction false} NoneBelow(s: seq<real>, v: real)
    requires forall i :: 0 <= i < |s| ==> v <= s[i]
    ensures Below(s, v) == 0
  {
    if s != [] {
      NoneBelow(s[1..], v);
    }
  }

  lemma {:induction false} PutCounts(x: real, s: seq<real>, v: real)
    ensures AtMost(Sorting.Insert(x, s, SELF), v) == AtMost(s, v) + if x <= v then 1 else 0
    ensures Below(Sorting.Insert(x, s, SELF), v) == Below(s, v) + if x < v then 1 else 0
  {
    if s == [] || x <= s[0] {
      assert ([x] + s)[1..] == s;
    } else {
      PutCounts(x, s[1..], v);
      var rest := Sorting.Insert(x, s[1..], SELF);
      assert ([s[0]] + rest)[1..] == rest;
    }
  }

  /** Sorting does not change how many values are at most, or below, v. */
  lemma {:induction false} SortCounts(s: seq<real>, v: real)
    ensures AtMost(SortReals(s), v) == AtMost(s, v) && Below(SortReals(s), v) == Below(s, v)
  {
    if s != [] {
      SortCounts(s[1..], v);
      PutCounts(s[0], SortReals(s[1..]), v);
    }
  }

  /** The nearest-rank percentile num/den of the values: zero for none. */
  method Percentile(vals: seq<real>, num: nat, den: nat) returns (r: real)
    requires 0 < num <= den
    ensures vals == [] ==> r == 0.0
    ensures vals != [] ==> r in vals
    ensures vals != [] ==> AtMost(vals, r) * den >= num * |vals|
    ensures vals != [] ==> Below(vals, r) * den < num * |vals|
  {
    if vals == [] {
      return 0.0;
    }
    var s := SortReals(vals);
    SortRealsSorts(vals);
    var rank := (num * |s| + den - 1) / den;
    RankBounds(num, den, |s|);
    var idx := rank - 1;
    r := s[idx];
    CountsInSorted(s, idx);
    assert r in multiset(s);
    SortCounts(vals, r);
    Scale(AtMost(s, r), rank, den);
    Scale(rank - 1, Below(s, r), den);
  }

  lemma Scale(a: int, b: int, den: nat)
    requires a >= b
    ensures a * den >= b * den
  {
  }

  /** The rank is the least whole number at or above num/den of n. */
  lemma RankBounds(num: nat, den: nat, n: nat)
    requires 0 < num <= den && n > 0
    ensures var rank := (num * n + den - 1) / den;
            1 <= rank <= n && rank * den >= num * n > (rank - 1) * den
  {
    var x := num * n + den - 1;
    var rank := x / den;
    assert x == rank * den + x % den;
    assert num * n >= 1;
    assert num * n <= den * n;
    assert rank <= 0 ==> rank * den <= 0;
    assert rank >= n + 1 ==> rank * den >= (n + 1) * den;
  }
}
