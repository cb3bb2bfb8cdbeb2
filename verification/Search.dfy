/** Searching the partitions: fan-out, merge, paging and the time histogram. */
module Search {
  import opened Wrappers
  import opened DayStore
  import opened LogStore
  import opened StableSort
  import SortedSets

  const DEFAULT_LIMIT := 100

  /** A query: times are nanoseconds, absent when open-ended; expr is the compiled condition. */
  datatype Query = Query(from: Option<int>, to: Option<int>, expr: Row -> bool, stream: string,
                         limit: int, offset: nat, asc: bool)

  function Limit(q: Query): nat { if q.limit <= 0 then DEFAULT_LIMIT else q.limit }

  function Lo(q: Query): int { if q.from.Some? then q.from.value / MILLI_NS else -TS_LIMIT }

  function Hi(q: Query): int { if q.to.Some? then q.to.value / MILLI_NS else TS_LIMIT }

  /** The WHERE clause: the query, the time bounds and the stream. */
  predicate Matches(q: Query, r: Row) {
    q.expr(r) && Lo(q) <= r.ts <= Hi(q) && (q.stream != "" ==> r.stream == q.stream)
  }

  function Filter(rows: seq<Row>, q: Query): seq<Row> {
    if rows == [] then [] else (if Matches(q, rows[0]) then [rows[0]] else []) + Filter(rows[1..], q)
  }

  function Key(asc: bool): Row -> real {
    if asc then (r: Row) => r.ts as real else (r: Row) => -(r.ts as real)
  }

  /** Partition days overlapping the query's range. */
  predicate InRange(q: Query, day: int) {
    (q.from.Some? ==> day >= q.from.value / DAY_NS) && (q.to.Some? ==> day <= q.to.value / DAY_NS)
  }

  /** The order in which the database visits matching rows with equal times: fixed, but unknown. */
  ghost predicate Permutes(plan: seq<Row> -> seq<Row>) {
    forall rows :: multiset(plan(rows)) == multiset(rows)
  }

  /** The matching rows of every given day. */
  function PerDay(parts: map<int, Partition>, days: seq<int>, q: Query, plan: seq<Row> -> seq<Row>): (r: seq<seq<Row>>)
    ensures |r| == |days|
  {
    if days == [] then []
    else PerDay(parts, days[..|days| - 1], q, plan) + [plan(Filter(View(parts, days[|days| - 1]).rows, q))]
  }

  /** The reference: every matching row of the whole store, sorted at once. */
  function AllMatches(parts: map<int, Partition>, days: seq<int>, q: Query, plan: seq<Row> -> seq<Row>): seq<Row> {
    Sort(Concat(PerDay(parts, days, q, plan)), Key(q.asc))
  }

  function Page<T>(s: seq<T>, offset: nat, limit: nat): seq<T> {
    if offset < |s| then Take(s[offset..], limit) else []
  }

  // ---- day pruning ----

  lemma {:induction false} FilterIs(rows: seq<Row>, q: Query)
    ensures forall i :: 0 <= i < |Filter(rows, q)| ==> Filter(rows, q)[i] in rows && Matches(q, Filter(rows, q)[i])
    ensures forall i :: 0 <= i < |rows| && Matches(q, rows[i]) ==> rows[i] in Filter(rows, q)
  {
    if rows != [] {
      FilterIs(rows[1..], q);
      forall i | 0 <= i < |rows| && Matches(q, rows[i]) ensures rows[i] in Filter(rows, q) {
        if i > 0 {
          assert rows[i] == rows[1..][i - 1];
        }
      }
    }
  }

  /** A day outside the range holds no matching row. */
  lemma PrunedDayIsEmpty(day: int, p: Partition, q: Query)
    requires PartitionOk(day, p) && !InRange(q, day)
    ensures Filter(p.rows, q) == []
  {
    if q.from.Some? {
      DayOfMillis(q.from.value);
    }
    if q.to.Some? {
      DayOfMillis(q.to.value);
    }
    forall i | 0 <= i < |p.rows| ensures !Matches(q, p.rows[i]) {
      MonotoneDay(Lo(q), p.rows[i].ts);
      MonotoneDay(p.rows[i].ts, Hi(q));
    }
    NothingMatches(p.rows, q);
  }

  lemma {:induction false} NothingMatches(rows: seq<Row>, q: Query)
    requires forall i :: 0 <= i < |rows| ==> !Matches(q, rows[i])
    ensures Filter(rows, q) == []
  {
    if rows != [] {
      NothingMatches(rows[1..], q);
    }
  }

  lemma MonotoneDay(a: int, b: int)
    ensures a <= b ==> a / DAY_MS <= b / DAY_MS
  {
  }

  // ---- lists of days ----

  lemma ConcatSnoc<T>(parts: seq<seq<T>>, x: seq<T>)
    ensures Concat(parts + [x]) == Concat(parts) + x
  {
    if parts == [] {
      assert parts + [x] == [x] && [x][1..] == [];
    } else {
      assert (parts + [x])[1..] == parts[1..] + [x];
      ConcatSnoc(parts[1..], x);
    }
  }

  lemma TopsSnoc<T>(parts: seq<seq<T>>, x: seq<T>, n: nat, key: T -> real)
    ensures Tops(parts + [x], n, key) == Tops(parts, n, key) + Take(Sort(x, key), n)
  {
    hide Sort, Take;
    if parts == [] {
      assert parts + [x] == [x] && [x][1..] == [];
    } else {
      assert (parts + [x])[1..] == parts[1..] + [x];
      TopsSnoc(parts[1..], x, n, key);
    }
  }

  /** The first elements of a page depend only on the first offset + limit elements. */
  lemma PageOfTake<T>(s: seq<T>, t: seq<T>, offset: nat, limit: nat)
    requires Take(s, offset + limit) == Take(t, offset + limit)
    ensures Page(s, offset, limit) == Page(t, offset, limit)
  {
    PageIsSlice(s, offset, limit);
    PageIsSlice(t, offset, limit);
  }

  lemma PageIsSlice<T>(s: seq<T>, offset: nat, limit: nat)
    ensures Page(s, offset, limit) == Page(Take(s, offset + limit), offset, limit)
  {
  }

  /** The first n pages of a list, one after the other. */
  function Pages<T>(s: seq<T>, limit: nat, n: nat): seq<T> {
    if n == 0 then [] else Pages(s, limit, n - 1) + Page(s, (n - 1) * limit, limit)
  }

  /** Consecutive pages tile the list: no gap, no repeat, in order. */
  lemma {:induction false} PagesTile<T>(s: seq<T>, limit: nat, n: nat)
    ensures Pages(s, limit, n) == Take(s, n * limit)
  {
    if n > 0 {
      PagesTile(s, limit, n - 1);
      var o := (n - 1) * limit;
      assert o >= 0 && n * limit == o + limit;
      NextPage(s, o, limit);
    }
  }

  lemma NextPage<T>(s: seq<T>, o: nat, limit: nat)
    ensures Take(s, o) + Page(s, o, limit) == Take(s, o + limit)
  {
  }

  // ---- search ----

  /** One partition's rows: sorted by time, cut to the limit. */
  method SearchDay(p: Partition, q: Query, limit: nat, plan: seq<Row> -> seq<Row>) returns (rows: seq<Row>)
    ensures rows == Take(Sort(plan(Filter(p.rows, q)), Key(q.asc)), limit)
  {
    rows := Sort(plan(Filter(p.rows, q)), Key(q.asc));
    if |rows| > limit {
      rows := rows[..limit];
    }
  }

  lemma PlanLength(plan: seq<Row> -> seq<Row>, rows: seq<Row>)
    requires Permutes(plan)
    ensures |plan(rows)| == |rows|
  {
    assert |multiset(plan(rows))| == |multiset(rows)|;
  }

  /**
    * Fans out over the days in range, takes the first offset + limit rows of each, merges and cuts the page.
    * The result is the page, and the count, of all matching rows of the whole store sorted at once.
    */
  method Search(s: Store, q: Query, plan: seq<Row> -> seq<Row>) returns (messages: seq<Row>, total: nat)
    requires s.Valid() && Permutes(plan)
    ensures forall days :: SortedSets.Ascending(days) && SortedSets.Elements(days) == s.parts.Keys ==>
              && messages == Page(AllMatches(s.parts, days, q, plan), q.offset, Limit(q))
              && total == |AllMatches(s.parts, days, q, plan)|
  {
    hide PartitionOk, Filter, Sort, Key, SortedSets.Elements, SortedSets.Ascending, Permutes, InRange, Page, Take, Tops;
    var limit := Limit(q);
    var days := s.ListDays();
    var perDay := q.offset + limit;
    var all: seq<Row> := [];
    total := 0;
    SearchStart(s.parts, days, q, plan, perDay);
    Store.Listed(days);
    for i := 0 to |days|
      invariant all == Tops(PerDay(s.parts, days[..i], q, plan), perDay, Key(q.asc))
      invariant total == |Concat(PerDay(s.parts, days[..i], q, plan))|
    {
      assert days[i] in s.parts;
      SearchGrows(s.parts, days, i, q, plan, perDay);
      if InRange(q, days[i]) {
        var rows := SearchDay(s.parts[days[i]], q, perDay, plan);
        all := all + rows;
        PlanLength(plan, Filter(s.parts[days[i]].rows, q));
        total := total + |Filter(s.parts[days[i]].rows, q)|;
      } else {
        SearchPrunes(days[i], s.parts[days[i]], q, plan, perDay);
        assert all + [] == all;
      }
    }
    assert days[..|days|] == days;
    Store.OnlyOrder(days);
    ghost var parts := PerDay(s.parts, days, q, plan);
    TopsAreEnough(parts, perDay, Key(q.asc));
    all := Sort(all, Key(q.asc));
    PageOfTake(all, Sort(Concat(parts), Key(q.asc)), q.offset, limit);
    messages := CutPage(all, q.offset, limit);
  }

  /** Applies the offset and the limit to the merged list. */
  method CutPage<T>(all: seq<T>, offset: nat, limit: nat) returns (page: seq<T>)
    ensures page == Page(all, offset, limit)
  {
    page := if offset < |all| then all[offset..] else [];
    if |page| > limit {
      page := page[..limit];
    }
  }

  lemma SearchStart(parts: map<int, Partition>, days: seq<int>, q: Query, plan: seq<Row> -> seq<Row>, n: nat)
    ensures Tops(PerDay(parts, days[..0], q, plan), n, Key(q.asc)) == []
    ensures Concat(PerDay(parts, days[..0], q, plan)) == []
  {
  }

  lemma SearchGrows(parts: map<int, Partition>, days: seq<int>, i: nat, q: Query, plan: seq<Row> -> seq<Row>, n: nat)
    requires i < |days| && days[i] in parts
    ensures var rows := plan(Filter(parts[days[i]].rows, q));
            && Tops(PerDay(parts, days[..i + 1], q, plan), n, Key(q.asc)) ==
               Tops(PerDay(parts, days[..i], q, plan), n, Key(q.asc)) + Take(Sort(rows, Key(q.asc)), n)
            && Concat(PerDay(parts, days[..i + 1], q, plan)) == Concat(PerDay(parts, days[..i], q, plan)) + rows
  {
    hide Filter, Key, Sort, Take, Tops, Concat;
    var rows := plan(Filter(parts[days[i]].rows, q));
    assert days[..i + 1][..i] == days[..i];
    assert PerDay(parts, days[..i + 1], q, plan) == PerDay(parts, days[..i], q, plan) + [rows];
    TopsSnoc(PerDay(parts, days[..i], q, plan), rows, n, Key(q.asc));
    ConcatSnoc(PerDay(parts, days[..i], q, plan), rows);
  }

  lemma SearchPrunes(day: int, p: Partition, q: Query, plan: seq<Row> -> seq<Row>, n: nat)
    requires PartitionOk(day, p) && !InRange(q, day) && Permutes(plan)
    ensures plan(Filter(p.rows, q)) == [] && Take(Sort(plan(Filter(p.rows, q)), Key(q.asc)), n) == []
  {
    PrunedDayIsEmpty(day, p, q);
    PlanLength(plan, Filter(p.rows, q));
  }

  /** The reference holds exactly the matching rows of the store's partitions, in time order. */
  lemma AllMatchesAreTheMatches(parts: map<int, Partition>, days: seq<int>, q: Query,
                                plan: seq<Row> -> seq<Row>, r: Row)
    requires Permutes(plan) && SortedSets.Elements(days) == parts.Keys
    ensures r in AllMatches(parts, days, q, plan) <==> exists d :: d in parts && r in parts[d].rows && Matches(q, r)
    ensures Sorted(AllMatches(parts, days, q, plan), Key(q.asc))
  {
    hide Sort, Key, Matches, Filter, Permutes, SortedSets.Elements;
    var all := Concat(PerDay(parts, days, q, plan));
    SortSorts(all, Key(q.asc));
    SameMembers(AllMatches(parts, days, q, plan), all, r);
    InPerDay(parts, days, q, plan, r);
    if d :| d in parts && r in parts[d].rows && Matches(q, r) {
      DayListed(days, d);
      var i :| 0 <= i < |days| && days[i] == d;
    }
    if r in all {
      var i :| 0 <= i < |days| && r in View(parts, days[i]).rows && Matches(q, r);
      DayIndexed(days, i);
    }
  }

  lemma DayListed(days: seq<int>, d: int)
    requires d in SortedSets.Elements(days)
    ensures exists i :: 0 <= i < |days| && days[i] == d
  {
  }

  lemma DayIndexed(days: seq<int>, i: nat)
    requires i < |days|
    ensures days[i] in SortedSets.Elements(days)
  {
  }

  lemma SameMembers(a: seq<Row>, b: seq<Row>, r: Row)
    requires multiset(a) == multiset(b)
    ensures r in a <==> r in b
  {
    assert r in a <==> r in multiset(a);
    assert r in b <==> r in multiset(b);
  }

  lemma {:induction false} InPerDay(parts: map<int, Partition>, days: seq<int>, q: Query,
                                    plan: seq<Row> -> seq<Row>, r: Row)
    requires Permutes(plan)
    ensures r in Concat(PerDay(parts, days, q, plan)) <==>
            exists i :: 0 <= i < |days| && r in View(parts, days[i]).rows && Matches(q, r)
    decreases |days|
  {
    hide Matches, Filter, Permutes, Concat;
    if days == [] {
      EmptyConcat();
    } else {
      var n := |days| - 1;
      var rows := View(parts, days[n]).rows;
      InPerDay(parts, days[..n], q, plan, r);
      ConcatSnoc(PerDay(parts, days[..n], q, plan), plan(Filter(rows, q)));
      PlanMembers(plan, Filter(rows, q), r);
      FilterIs(rows, q);
      if i :| 0 <= i < n && r in View(parts, days[..n][i]).rows && Matches(q, r) {
        assert days[i] == days[..n][i];
      }
      if i :| 0 <= i < |days| && r in View(parts, days[i]).rows && Matches(q, r) {
        if i < n {
          assert days[i] == days[..n][i];
        }
      }
    }
  }

  lemma EmptyConcat()
    ensures Concat<Row>([]) == []
  {
  }

  lemma PlanMembers(plan: seq<Row> -> seq<Row>, rows: seq<Row>, r: Row)
    requires Permutes(plan)
    ensures r in plan(rows) <==> r in rows
  {
    SameMembers(plan(rows), rows, r);
  }

  // ---- histogram ----

  datatype Bucket = Bucket(start: int, count: nat)

  /** SQL integer division, which truncates toward zero, times the interval. */
  function StartOf(ts: int, interval: int): int
    requires interval > 0
  {
    if ts >= 0 then ts / interval * interval else -((-ts) / interval * interval)
  }

  /** A start is a multiple of the interval: the last one up to the time, or for negative times the next one. */
  lemma StartIsMultiple(ts: int, interval: int)
    requires interval > 0
    ensures StartOf(ts, interval) % interval == 0
    ensures if ts >= 0 then StartOf(ts, interval) <= ts < StartOf(ts, interval) + interval
            else StartOf(ts, interval) - interval < ts <= StartOf(ts, interval)
  {
    if ts >= 0 {
      var k := ts / interval;
      assert ts == k * interval + ts % interval;
      MultipleHasNoRest(k, interval);
    } else {
      var k := (-ts) / interval;
      assert -ts == k * interval + (-ts) % interval;
      assert StartOf(ts, interval) == (-k) * interval;
      MultipleHasNoRest(-k, interval);
    }
  }

  /** A timestamp lies in its own bucket exactly when it is not negative or falls on a bucket's start. */
  lemma InOwnBucket(ts: int, interval: int)
    requires interval > 0
    ensures StartOf(ts, interval) <= ts < StartOf(ts, interval) + interval <==> ts >= 0 || ts % interval == 0
  {
    if ts >= 0 {
      var k := ts / interval;
      assert ts == k * interval + ts % interval;
    } else {
      var k, r := (-ts) / interval, (-ts) % interval;
      assert -ts == k * interval + r && 0 <= r < interval;
      assert ts == -(k * interval) - r;
      if r == 0 {
        assert ts == (-k) * interval;
        MultipleHasNoRest(-k, interval);
      } else if ts % interval == 0 {
        var j := ts / interval;
        assert ts == j * interval;
        assert r == (-j - k) * interval;
        SmallMultiple(-j - k, interval, r);
      }
    }
  }

  /** One millisecond before the epoch is counted in the bucket that starts at the epoch. */
  lemma BeforeEpochIsMisplaced()
    ensures StartOf(-1, 1000) == 0 && !(StartOf(-1, 1000) <= -1)
  {
    InOwnBucket(-1, 1000);
  }

  lemma MultipleHasNoRest(k: int, n: int)
    requires n > 0
    ensures k * n % n == 0
  {
    var q, r := k * n / n, k * n % n;
    assert k * n == q * n + r;
    assert r == (k - q) * n;
    SmallMultiple(k - q, n, r);
  }

  lemma SmallMultiple(d: int, n: int, r: int)
    requires n > 0 && 0 <= r < n && r == d * n
    ensures r == 0
  {
  }

  function CountIn(rows: seq<Row>, interval: int, start: int): nat
    requires interval > 0
  {
    if rows == [] then 0
    else (if StartOf(rows[0].ts, interval) == start then 1 else 0) + CountIn(rows[1..], interval, start)
  }

  /** One partition's SELECT bucket, COUNT(*) ... GROUP BY bucket. */
  function GroupCounts(rows: seq<Row>, interval: int): map<int, nat>
    requires interval > 0
  {
    if rows == [] then map[]
    else
      var m := GroupCounts(rows[1..], interval);
      var b := StartOf(rows[0].ts, interval);
      m[b := 1 + if b in m then m[b] else 0]
  }

  lemma {:induction false} GroupCountsAre(rows: seq<Row>, interval: int)
    requires interval > 0
    ensures forall b :: (b in GroupCounts(rows, interval) <==> CountIn(rows, interval, b) > 0)
    ensures forall b :: b in GroupCounts(rows, interval) ==>
              GroupCounts(rows, interval)[b] == CountIn(rows, interval, b)
  {
    hide StartOf;
    if rows != [] {
      GroupCountsAre(rows[1..], interval);
    }
  }

  /** The counts of all rows seen so far, per bucket; a bucket without rows has no entry. */
  ghost predicate Counts(counts: map<int, nat>, rows: seq<Row>, interval: int)
    requires interval > 0
  {
    && (forall b :: b in counts <==> CountIn(rows, interval, b) > 0)
    && (forall b :: b in counts ==> counts[b] == CountIn(rows, interval, b))
  }

  lemma {:induction false} CountInConcat(a: seq<Row>, b: seq<Row>, interval: int, start: int)
    requires interval > 0
    ensures CountIn(a + b, interval, start) == CountIn(a, interval, start) + CountIn(b, interval, start)
  {
    hide StartOf;
    if a == [] {
      assert a + b == b;
    } else {
      assert (a + b)[1..] == a[1..] + b;
      CountInConcat(a[1..], b, interval, start);
    }
  }

  /** Adds one day's counts to the running counts. */
  method AddCounts(counts: map<int, nat>, seen: seq<Row>, rows: seq<Row>, interval: int) returns (r: map<int, nat>)
    requires interval > 0 && Counts(counts, seen, interval)
    ensures Counts(r, seen + rows, interval)
  {
    hide StartOf, CountIn;
    var day := GroupCounts(rows, interval);
    GroupCountsAre(rows, interval);
    r := counts;
    var rest := day.Keys;
    while rest != {}
      invariant rest <= day.Keys
      invariant r.Keys == counts.Keys + (day.Keys - rest)
      invariant forall b :: b in r ==>
                  r[b] == (if b in counts then counts[b] else 0) + if b in day && b !in rest then day[b] else 0
      decreases rest
    {
      SortedSets.EmptyOrNot(rest);
      var b :| b in rest;
      r := r[b := (if b in r then r[b] else 0) + day[b]];
      rest := rest - {b};
    }
    forall b ensures CountIn(seen + rows, interval, b) == CountIn(seen, interval, b) + CountIn(rows, interval, b) {
      CountInConcat(seen, rows, interval, b);
    }
  }

  /** The sum of a list of counts. */
  function SumCounts(buckets: seq<Bucket>): nat {
    if buckets == [] then 0 else SumCounts(buckets[..|buckets| - 1]) + buckets[|buckets| - 1].count
  }

  /** The matching rows of every given day, unsorted. */
  function Matching(parts: map<int, Partition>, days: seq<int>, q: Query): seq<Row> {
    if days == [] then [] else Matching(parts, days[..|days| - 1], q) + Filter(View(parts, days[|days| - 1]).rows, q)
  }

  /** Buckets counts per interval over the days in range, merging the partitions' partial counts. */
  method Histogram(s: Store, q: Query, interval: int) returns (r: Result<seq<Bucket>, string>)
    requires s.Valid()
    ensures r.Err? <==> interval <= 0
    ensures r.Ok? ==> forall i, k :: 0 <= i < k < |r.value| ==> r.value[i].start < r.value[k].start
    ensures r.Ok? ==> forall days :: SortedSets.Ascending(days) && SortedSets.Elements(days) == s.parts.Keys ==>
              BucketsOf(r.value, Matching(s.parts, days, q), interval)
  {
    hide PartitionOk, Filter, SortedSets.Elements, Counts, InRange;
    if interval <= 0 {
      return Err("histogram interval must be positive");
    }
    var days := s.ListDays();
    var counts: map<int, nat> := map[];
    assert Counts(counts, Matching(s.parts, days[..0], q), interval) by { NoCounts(interval); }
    Store.Listed(days);
    for i := 0 to |days|
      invariant Counts(counts, Matching(s.parts, days[..i], q), interval)
    {
      assert days[..i + 1][..i] == days[..i];
      assert days[i] in s.parts;
      var rows := Filter(s.parts[days[i]].rows, q);
      if InRange(q, days[i]) {
        counts := AddCounts(counts, Matching(s.parts, days[..i], q), rows, interval);
      } else {
        PrunedDayIsEmpty(days[i], s.parts[days[i]], q);
        assert Matching(s.parts, days[..i], q) + [] == Matching(s.parts, days[..i], q);
      }
    }
    assert days[..|days|] == days;
    Store.OnlyOrder(days);
    var buckets := SortBuckets(counts, Matching(s.parts, days, q), interval);
    r := Ok(buckets);
  }

  lemma NoCounts(interval: int)
    requires interval > 0
    ensures Counts(map[], [], interval)
  {
  }

  /** The buckets are those of the rows: one per start that occurs, with its count. */
  ghost predicate BucketsOf(buckets: seq<Bucket>, rows: seq<Row>, interval: int)
    requires interval > 0
  {
    && (forall i :: 0 <= i < |buckets| ==> buckets[i].count == CountIn(rows, interval, buckets[i].start) > 0)
    && (forall k :: 0 <= k < |rows| ==> HasStart(buckets, StartOf(rows[k].ts, interval)))
  }

  ghost predicate HasStart(buckets: seq<Bucket>, start: int) {
    exists i :: 0 <= i < |buckets| && buckets[i].start == start
  }

  method SortBuckets(counts: map<int, nat>, ghost rows: seq<Row>, interval: int) returns (buckets: seq<Bucket>)
    requires interval > 0 && Counts(counts, rows, interval)
    ensures forall i, k :: 0 <= i < k < |buckets| ==> buckets[i].start < buckets[k].start
    ensures BucketsOf(buckets, rows, interval)
  {
    hide StartOf;
    var starts := SortedSets.InOrder(counts.Keys);
    buckets := [];
    for i := 0 to |starts|
      invariant |buckets| == i
      invariant forall k :: 0 <= k < i ==> starts[k] in counts && buckets[k] == Bucket(starts[k], counts[starts[k]])
    {
      assert starts[i] in SortedSets.Elements(starts);
      buckets := buckets + [Bucket(starts[i], counts[starts[i]])];
    }
    forall k | 0 <= k < |rows| ensures HasStart(buckets, StartOf(rows[k].ts, interval)) {
      OccursCounts(rows, interval, k);
      assert StartOf(rows[k].ts, interval) in SortedSets.Elements(starts);
      var i :| 0 <= i < |starts| && starts[i] == StartOf(rows[k].ts, interval);
      assert buckets[i].start == starts[i];
    }
  }

  lemma {:induction false} OccursCounts(rows: seq<Row>, interval: int, k: nat)
    requires interval > 0 && k < |rows|
    ensures CountIn(rows, interval, StartOf(rows[k].ts, interval)) > 0
  {
    hide StartOf;
    if k > 0 {
      OccursCounts(rows[1..], interval, k - 1);
    }
  }

  /** How many rows fall in one of the listed buckets. */
  function CountAll(buckets: seq<Bucket>, rows: seq<Row>, interval: int): nat
    requires interval > 0
  {
    if buckets == [] then 0
    else CountAll(buckets[..|buckets| - 1], rows, interval) + CountIn(rows, interval, buckets[|buckets| - 1].start)
  }

  lemma {:induction false} CountAllCons(buckets: seq<Bucket>, r: Row, rows: seq<Row>, interval: int)
    requires interval > 0
    requires forall i, k :: 0 <= i < k < |buckets| ==> buckets[i].start < buckets[k].start
    ensures CountAll(buckets, [r] + rows, interval) == CountAll(buckets, rows, interval) +
            if HasStart(buckets, StartOf(r.ts, interval)) then 1 else 0
    decreases |buckets|
  {
    hide StartOf;
    assert ([r] + rows)[1..] == rows;
    if buckets != [] {
      var rest := buckets[..|buckets| - 1];
      CountAllCons(rest, r, rows, interval);
      var b := StartOf(r.ts, interval);
      if i :| 0 <= i < |rest| && rest[i].start == b {
        assert buckets[i].start == b;
      } else if i :| 0 <= i < |buckets| && buckets[i].start == b {
        assert i == |buckets| - 1;
      }
    }
  }

  lemma {:induction false} CoveredCounts(buckets: seq<Bucket>, rows: seq<Row>, interval: int)
    requires interval > 0
    requires forall i, k :: 0 <= i < k < |buckets| ==> buckets[i].start < buckets[k].start
    requires forall k :: 0 <= k < |rows| ==> HasStart(buckets, StartOf(rows[k].ts, interval))
    ensures CountAll(buckets, rows, interval) == |rows|
    decreases rows
  {
    hide StartOf, HasStart;
    if rows == [] {
      NoneCounted(buckets, interval);
    } else {
      assert rows == [rows[0]] + rows[1..];
      forall k | 0 <= k < |rows[1..]| ensures HasStart(buckets, StartOf(rows[1..][k].ts, interval)) {
        assert rows[1..][k] == rows[k + 1];
      }
      CoveredCounts(buckets, rows[1..], interval);
      CountAllCons(buckets, rows[0], rows[1..], interval);
    }
  }

  lemma {:induction false} NoneCounted(buckets: seq<Bucket>, interval: int)
    requires interval > 0
    ensures CountAll(buckets, [], interval) == 0
    decreases |buckets|
  {
    if buckets != [] {
      NoneCounted(buckets[..|buckets| - 1], interval);
    }
  }

  lemma {:induction false} SumIsCountAll(buckets: seq<Bucket>, rows: seq<Row>, interval: int)
    requires interval > 0
    requires forall i :: 0 <= i < |buckets| ==> buckets[i].count == CountIn(rows, interval, buckets[i].start)
    ensures SumCounts(buckets) == CountAll(buckets, rows, interval)
    decreases |buckets|
  {
    hide CountIn;
    if buckets != [] {
      SumIsCountAll(buckets[..|buckets| - 1], rows, interval);
    }
  }

  /** The histogram loses and repeats nothing: its counts sum to the number of matching rows. */
  lemma {:induction false} HistogramSumsToTotal(buckets: seq<Bucket>, rows: seq<Row>, interval: int)
    requires interval > 0 && BucketsOf(buckets, rows, interval)
    requires forall i, k :: 0 <= i < k < |buckets| ==> buckets[i].start < buckets[k].start
    ensures SumCounts(buckets) == |rows|
  {
    hide CountIn, StartOf;
    SumIsCountAll(buckets, rows, interval);
    CoveredCounts(buckets, rows, interval);
  }

  /** The rows a histogram counts are as many as a search's total. */
  lemma {:induction false} MatchingIsTotal(parts: map<int, Partition>, days: seq<int>, q: Query,
                                           plan: seq<Row> -> seq<Row>)
    requires Permutes(plan)
    ensures |Matching(parts, days, q)| == |AllMatches(parts, days, q, plan)|
    decreases |days|
  {
    hide Filter, Permutes, Concat;
    if days == [] {
      EmptyConcat();
    } else {
      var n := |days| - 1;
      MatchingIsTotal(parts, days[..n], q, plan);
      PlanLength(plan, Filter(View(parts, days[n]).rows, q));
      ConcatSnoc(PerDay(parts, days[..n], q, plan), plan(Filter(View(parts, days[n]).rows, q)));
    }
  }
}
