/**
  * The rows of a search, counted: every matching row of the store as often as it is stored, under the times and
  * the stream the query names, in the order of time it asks for.
  */
module SearchRows {
  import opened Wrappers
  import opened DayStore
  import opened LogStore
  import opened Search
  import opened StableSort
  import SortedSets

  // ---- which rows ----

  /**
    * A stored row matches exactly when the condition selects it, the millisecond it was stored under overlaps
    * the query's range of nanoseconds, and the stream is the one asked for, if any.
    */
  lemma MatchesIff(q: Query, r: Row)
    requires -TS_LIMIT < r.ts < TS_LIMIT
    ensures Matches(q, r) <==>
            && q.expr(r)
            && (q.from.Some? ==> q.from.value < (r.ts + 1) * 1_000_000)
            && (q.to.Some? ==> r.ts * 1_000_000 <= q.to.value)
            && (q.stream == "" || r.stream == q.stream)
  {
  }

  /** A day is asked exactly when some instant of it is in the query's range. */
  lemma InRangeIff(q: Query, day: int)
    requires q.from.Some? && q.to.Some? ==> q.from.value <= q.to.value
    ensures InRange(q, day) <==>
            exists t: int :: t / 86_400_000_000_000 == day &&
                             (q.from.Some? ==> q.from.value <= t) && (q.to.Some? ==> t <= q.to.value)
  {
    if InRange(q, day) {
      var t := if q.from.Some? && q.from.value > day * DAY_NS then q.from.value else day * DAY_NS;
      assert t / DAY_NS == day;
    }
    if t: int :| t / DAY_NS == day && (q.from.Some? ==> q.from.value <= t) && (q.to.Some? ==> t <= q.to.value) {
      if q.from.Some? {
        SameOrLaterDay(q.from.value, t);
      }
      if q.to.Some? {
        SameOrLaterDay(t, q.to.value);
      }
    }
  }

  lemma SameOrLaterDay(a: int, b: int)
    requires a <= b
    ensures a / DAY_NS <= b / DAY_NS
  {
  }

  // ---- how often ----

  /** How often the partitions of the given days hold a row. */
  ghost function Copies(parts: map<int, Partition>, days: seq<int>, r: Row): nat {
    if days == [] then 0
    else Copies(parts, days[..|days| - 1], r) + multiset(View(parts, days[|days| - 1]).rows)[r]
  }

  lemma {:induction false} FilterCounts(rows: seq<Row>, q: Query, r: Row)
    ensures multiset(Filter(rows, q))[r] == if Matches(q, r) then multiset(rows)[r] else 0
  {
    hide Matches;
    if rows != [] {
      FilterCounts(rows[1..], q, r);
      assert rows == [rows[0]] + rows[1..];
      var first := if Matches(q, rows[0]) then [rows[0]] else [];
      assert Filter(rows, q) == first + Filter(rows[1..], q);
    }
  }

  lemma {:induction false} PerDayCounts(parts: map<int, Partition>, days: seq<int>, q: Query,
                                        plan: seq<Row> -> seq<Row>, r: Row)
    requires Permutes(plan)
    ensures multiset(Concat(PerDay(parts, days, q, plan)))[r] == if Matches(q, r) then Copies(parts, days, r) else 0
    decreases |days|
  {
    hide Matches, Filter, Concat, View, Permutes;
    if days == [] {
      EmptyConcat();
    } else {
      var n := |days| - 1;
      var rows := View(parts, days[n]).rows;
      PerDayCounts(parts, days[..n], q, plan, r);
      ConcatSnoc(PerDay(parts, days[..n], q, plan), plan(Filter(rows, q)));
      Permuted(plan, Filter(rows, q));
      FilterCounts(rows, q, r);
    }
  }

  lemma Permuted(plan: seq<Row> -> seq<Row>, rows: seq<Row>)
    requires Permutes(plan)
    ensures multiset(plan(rows)) == multiset(rows)
  {
  }

  /** Every matching row is found as often as it is stored, and no other row at all. */
  lemma AllMatchesCounts(parts: map<int, Partition>, days: seq<int>, q: Query, plan: seq<Row> -> seq<Row>, r: Row)
    requires Permutes(plan)
    ensures multiset(AllMatches(parts, days, q, plan))[r] == if Matches(q, r) then Copies(parts, days, r) else 0
  {
    hide Matches, Concat, Permutes, Sort, Key;
    SortSorts(Concat(PerDay(parts, days, q, plan)), Key(q.asc));
    PerDayCounts(parts, days, q, plan, r);
  }

  // ---- no message twice ----

  lemma RowsOfDay(parts: map<int, Partition>, d: int, r: Row)
    requires PartsOk(parts)
    ensures multiset(View(parts, d).rows)[r] <= 1
    ensures multiset(View(parts, d).rows)[r] > 0 ==> Holds(parts, d, r.id)
  {
    hide PartitionOk;
    var rows := View(parts, d).rows;
    IdsDiffer(parts, d);
    HeldOnce(rows, r);
    if r in rows {
      assert HasId(rows, r.id);
    }
  }

  lemma {:induction false} HeldOnce(rows: seq<Row>, r: Row)
    requires forall i, j :: 0 <= i < j < |rows| ==> rows[i].id != rows[j].id
    ensures multiset(rows)[r] <= 1
    ensures multiset(rows)[r] > 0 <==> r in rows
  {
    if rows != [] {
      var rest := rows[1..];
      assert forall i :: 0 <= i < |rest| ==> rest[i] == rows[i + 1];
      HeldOnce(rest, r);
      assert rows == [rows[0]] + rest;
      assert r == rows[0] ==> r !in rest;
    }
  }

  lemma IdsDiffer(parts: map<int, Partition>, d: int)
    requires PartsOk(parts)
    ensures forall i, j :: 0 <= i < j < |View(parts, d).rows| ==> View(parts, d).rows[i].id != View(parts, d).rows[j].id
  {
    ViewOk(parts, d);
  }

  lemma {:induction false} CopiedOnce(parts: map<int, Partition>, days: seq<int>, r: Row)
    requires PartsOk(parts) && IdsUnique(parts) && SortedSets.Ascending(days)
    ensures Copies(parts, days, r) <= 1
    ensures Copies(parts, days, r) > 0 ==> exists i :: 0 <= i < |days| && Holds(parts, days[i], r.id)
    decreases |days|
  {
    hide PartsOk, Holds, View;
    if days != [] {
      var n := |days| - 1;
      CopiedOnce(parts, days[..n], r);
      RowsOfDay(parts, days[n], r);
      if i :| 0 <= i < n && Holds(parts, days[..n][i], r.id) {
        assert days[..n][i] == days[i] && days[i] != days[n];
        assert Holds(parts, days[i], r.id);
      }
      assert Copies(parts, days[..n], r) > 0 ==>
          exists i :: 0 <= i < n && Holds(parts, days[..n][i], r.id) && Holds(parts, days[i], r.id);
    }
  }

  lemma OnceAtMost<T>(s: seq<T>, i: nat, j: nat)
    requires i < j < |s| && s[i] == s[j]
    ensures multiset(s)[s[i]] >= 2
  {
    assert s == s[..i] + [s[i]] + s[i + 1..j] + [s[j]] + s[j + 1..];
  }

  /** No two rows of the reference carry one id. */
  lemma NoIdTwice(parts: map<int, Partition>, days: seq<int>, q: Query, plan: seq<Row> -> seq<Row>, i: nat, j: nat)
    requires Permutes(plan) && PartsOk(parts) && IdsUnique(parts)
    requires SortedSets.Ascending(days) && SortedSets.Elements(days) == parts.Keys
    requires i < j < |AllMatches(parts, days, q, plan)|
    ensures AllMatches(parts, days, q, plan)[i].id != AllMatches(parts, days, q, plan)[j].id
  {
    hide Permutes, PartitionOk, SortedSets.Ascending, SortedSets.Elements, AllMatches, Matches;
    var all := AllMatches(parts, days, q, plan);
    var a, b := all[i], all[j];
    if a.id == b.id {
      AllMatchesAreTheMatches(parts, days, q, plan, a);
      AllMatchesAreTheMatches(parts, days, q, plan, b);
      var d :| d in parts && a in parts[d].rows && Matches(q, a);
      var e :| e in parts && b in parts[e].rows && Matches(q, b);
      assert Holds(parts, d, a.id) && Holds(parts, e, a.id);
      assert d == e;
      IdsDiffer(parts, d);
      assert a == b;
      OnceAtMost(all, i, j);
      AllMatchesCounts(parts, days, q, plan, a);
      CopiedOnce(parts, days, a);
    }
  }

  // ---- the total ----

  /** Where the matching rows of a partition lie, among its first n rows. */
  ghost function PlacesIn(day: int, rows: seq<Row>, q: Query, n: nat): set<(int, nat)>
    requires n <= |rows|
  {
    set i | 0 <= i < n && Matches(q, rows[i]) :: (day, i)
  }

  /** Where the matching rows of the store lie. */
  ghost function Places(parts: map<int, Partition>, q: Query): set<(int, nat)> {
    set d, i | d in parts && 0 <= i < |parts[d].rows| && Matches(q, parts[d].rows[i]) :: (d, i)
  }

  lemma {:induction false} FilterSnoc(rows: seq<Row>, r: Row, q: Query)
    ensures Filter(rows + [r], q) == Filter(rows, q) + if Matches(q, r) then [r] else []
  {
    hide Matches;
    if rows == [] {
      assert rows + [r] == [r] && [r][1..] == [];
    } else {
      assert (rows + [r])[1..] == rows[1..] + [r];
      FilterSnoc(rows[1..], r, q);
    }
  }

  lemma {:induction false} PlacesOfDay(day: int, rows: seq<Row>, q: Query, n: nat)
    requires n <= |rows|
    ensures |PlacesIn(day, rows, q, n)| == |Filter(rows[..n], q)|
  {
    hide Matches;
    if n > 0 {
      var before := PlacesIn(day, rows, q, n - 1);
      PlacesOfDay(day, rows, q, n - 1);
      FilterSnoc(rows[..n - 1], rows[n - 1], q);
      assert rows[..n] == rows[..n - 1] + [rows[n - 1]];
      assert PlacesIn(day, rows, q, n) == before + if Matches(q, rows[n - 1]) then {(day, n - 1)} else {};
    }
  }

  /** The places in the listed days. */
  ghost function PlacesUpTo(parts: map<int, Partition>, days: seq<int>, q: Query): set<(int, nat)> {
    if days == [] then {}
    else
      var d := days[|days| - 1];
      PlacesUpTo(parts, days[..|days| - 1], q) + PlacesIn(d, View(parts, d).rows, q, |View(parts, d).rows|)
  }

  lemma {:induction false} PlacesAre(parts: map<int, Partition>, days: seq<int>, q: Query, d: int, i: nat)
    ensures (d, i) in PlacesUpTo(parts, days, q) <==>
            && (exists k :: 0 <= k < |days| && days[k] == d)
            && i < |View(parts, d).rows| && Matches(q, View(parts, d).rows[i])
    decreases |days|
  {
    hide Matches, View;
    if days != [] {
      var n := |days| - 1;
      PlacesAre(parts, days[..n], q, d, i);
      assert days == days[..n] + [days[n]];
      assert (exists k :: 0 <= k < |days| && days[k] == d) <==> d == days[n] || d in days[..n];
    }
  }

  lemma {:induction false} PlacesCount(parts: map<int, Partition>, days: seq<int>, q: Query)
    requires SortedSets.Ascending(days)
    ensures |PlacesUpTo(parts, days, q)| == |Matching(parts, days, q)|
    decreases |days|
  {
    hide Matches, View, Filter, PlacesIn, SortedSets.Ascending;
    if days != [] {
      var n := |days| - 1;
      var d, rows := days[n], View(parts, days[n]).rows;
      var before, here := PlacesUpTo(parts, days[..n], q), PlacesIn(d, rows, q, |rows|);
      AscendingInit(days);
      PlacesCount(parts, days[..n], q);
      PlacesOfDay(d, rows, q, |rows|);
      assert rows[..|rows|] == rows;
      OtherPlaces(parts, days, q);
      assert |before + here| == |before| + |here|;
    }
  }

  lemma AscendingInit(days: seq<int>)
    requires days != [] && SortedSets.Ascending(days)
    ensures SortedSets.Ascending(days[..|days| - 1]) && days[|days| - 1] !in days[..|days| - 1]
  {
  }

  /** The last day's places are none of the days before it. */
  lemma OtherPlaces(parts: map<int, Partition>, days: seq<int>, q: Query)
    requires days != [] && days[|days| - 1] !in days[..|days| - 1]
    ensures var (n, d) := (|days| - 1, days[|days| - 1]);
            PlacesUpTo(parts, days[..n], q) !! PlacesIn(d, View(parts, d).rows, q, |View(parts, d).rows|)
  {
    hide Matches, View, PlacesUpTo;
    var n := |days| - 1;
    forall x | x in PlacesUpTo(parts, days[..n], q) ensures x.0 in days[..n] {
      PlacesAre(parts, days[..n], q, x.0, x.1);
    }
  }

  lemma PlacesOfStore(parts: map<int, Partition>, days: seq<int>, q: Query)
    requires SortedSets.Elements(days) == parts.Keys
    ensures PlacesUpTo(parts, days, q) == Places(parts, q)
  {
    hide Matches;
    forall x: (int, nat) ensures x in PlacesUpTo(parts, days, q) <==> x in Places(parts, q) {
      PlacesAre(parts, days, q, x.0, x.1);
      assert (exists k :: 0 <= k < |days| && days[k] == x.0) <==> x.0 in SortedSets.Elements(days);
    }
  }

  /** A search's total is the number of places where the store holds a matching row. */
  lemma TotalIsPlaces(parts: map<int, Partition>, days: seq<int>, q: Query, plan: seq<Row> -> seq<Row>)
    requires Permutes(plan) && SortedSets.Ascending(days) && SortedSets.Elements(days) == parts.Keys
    ensures |AllMatches(parts, days, q, plan)| == |Places(parts, q)|
  {
    hide Matches, Permutes, Filter, AllMatches, Matching;
    MatchingIsTotal(parts, days, q, plan);
    PlacesCount(parts, days, q);
    PlacesOfStore(parts, days, q);
  }

  // ---- the histogram's counts ----

  /** The query for the rows whose time falls into one bucket. */
  function OfBucket(q: Query, interval: int, start: int): Query
    requires interval > 0
  {
    q.(expr := r => interval > 0 && q.expr(r) && StartOf(r.ts, interval) == start)
  }

  lemma {:induction false} BucketFiltered(rows: seq<Row>, q: Query, interval: int, start: int)
    requires interval > 0
    ensures CountIn(Filter(rows, q), interval, start) == |Filter(rows, OfBucket(q, interval, start))|
    decreases |rows|
  {
    hide StartOf, Filter, CountIn;
    if rows == [] {
      NothingInBucket(q, interval, start);
    } else {
      var n := |rows| - 1;
      BucketFiltered(rows[..n], q, interval, start);
      assert rows == rows[..n] + [rows[n]];
      FilterSnoc(rows[..n], rows[n], q);
      FilterSnoc(rows[..n], rows[n], OfBucket(q, interval, start));
      CountInConcat(Filter(rows[..n], q), [rows[n]], interval, start);
      CountOne(rows[n], interval, start);
      assert Filter(rows[..n], q) + [] == Filter(rows[..n], q);
    }
  }

  lemma NothingInBucket(q: Query, interval: int, start: int)
    requires interval > 0
    ensures CountIn(Filter([], q), interval, start) == 0 && Filter([], OfBucket(q, interval, start)) == []
    ensures CountIn([], interval, start) == 0
  {
  }

  lemma CountOne(r: Row, interval: int, start: int)
    requires interval > 0
    ensures CountIn([r], interval, start) == if StartOf(r.ts, interval) == start then 1 else 0
  {
    hide StartOf;
    assert [r][1..] == [];
  }

  lemma {:induction false} BucketMatching(parts: map<int, Partition>, days: seq<int>, q: Query, interval: int,
                                          start: int)
    requires interval > 0
    ensures CountIn(Matching(parts, days, q), interval, start) ==
            |Matching(parts, days, OfBucket(q, interval, start))|
    decreases |days|
  {
    hide StartOf, Filter, CountIn, OfBucket;
    if days == [] {
      NothingInBucket(q, interval, start);
    } else {
      var n := |days| - 1;
      var rows := View(parts, days[n]).rows;
      BucketMatching(parts, days[..n], q, interval, start);
      BucketFiltered(rows, q, interval, start);
      CountInConcat(Matching(parts, days[..n], q), Filter(rows, q), interval, start);
    }
  }

  /** A bucket counts the places in the store where a matching row's time falls into it. */
  lemma BucketIsPlaces(parts: map<int, Partition>, days: seq<int>, q: Query, interval: int, start: int)
    requires interval > 0 && SortedSets.Ascending(days) && SortedSets.Elements(days) == parts.Keys
    ensures CountIn(Matching(parts, days, q), interval, start) == |Places(parts, OfBucket(q, interval, start))|
  {
    hide StartOf, CountIn, OfBucket, Matching, Places, PlacesUpTo, Matches;
    BucketMatching(parts, days, q, interval, start);
    PlacesCount(parts, days, OfBucket(q, interval, start));
    PlacesOfStore(parts, days, OfBucket(q, interval, start));
  }

  // ---- in which order ----

  /** Earlier rows first when asked so, otherwise later rows first. */
  lemma InTimeOrder(parts: map<int, Partition>, days: seq<int>, q: Query, plan: seq<Row> -> seq<Row>, i: nat, j: nat)
    requires i < j < |AllMatches(parts, days, q, plan)|
    ensures var (a, b) := (AllMatches(parts, days, q, plan)[i], AllMatches(parts, days, q, plan)[j]);
            if q.asc then a.ts <= b.ts else a.ts >= b.ts
  {
    hide Sort, Concat, PerDay;
    var all := Concat(PerDay(parts, days, q, plan));
    SortSorts(all, Key(q.asc));
    SortedPairs(Sort(all, Key(q.asc)), Key(q.asc), i, j);
  }

  /** A page holds the rows from its offset on, at most limit of them, 100 when no limit is given. */
  lemma PageIs(all: seq<Row>, q: Query, k: nat)
    ensures var page := Page(all, q.offset, Limit(q));
            var limit := if q.limit <= 0 then 100 else q.limit;
            && |page| == Max(0, Min(limit, |all| - q.offset))
            && (k < |page| ==> page[k] == all[q.offset + k])
  {
  }
}
