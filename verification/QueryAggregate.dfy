/**
  * Aggregation over the store (internal/logstore/sqlite/aggregate.go): the partitions in range, the rows that
  * match, and what the merged answer says about all matching rows at once.
  */
module QueryAggregate {
  import opened Wrappers
  import opened Sequences
  import A = Aggregate
  import Ast = QueryAst
  import C = SqlCompile
  import D = DayStore
  import F = Search
  import L = LogStore
  import M = QueryMeaning
  import QS = QuerySearch
  import R = SearchRows
  import SortedSets

  /** The metric, whether there is a group field, and how a row shows its group key and its metric value. */
  datatype Spec = Spec(metric: A.Metric, grouped: bool, keyOf: D.Row -> A.Key, valOf: D.Row -> Option<real>, limit: int)

  function Data(rows: seq<D.Row>, spec: Spec): seq<A.Datum> {
    seq(|rows|, i requires 0 <= i < |rows| => A.Datum(spec.keyOf(rows[i]), spec.valOf(rows[i])))
  }

  /** The order in which the database returns the groups of a partition: unknown. */
  type Grouping = seq<A.Datum> -> seq<A.Key>

  ghost predicate Groups(order: Grouping) { forall rows :: A.KeysOf(rows, order(rows)) }

  /** One partition as the aggregation sees it. */
  function DayOf(p: D.Partition, q: F.Query, spec: Spec, order: Grouping): A.Day {
    var rows := Data(F.Filter(p.rows, q), spec);
    A.Day(rows, order(rows))
  }

  /** The partitions in range. */
  function DaysOf(parts: map<int, D.Partition>, days: seq<int>, q: F.Query, spec: Spec, order: Grouping): seq<A.Day> {
    if days == [] then []
    else
      var d := days[|days| - 1];
      DaysOf(parts, days[..|days| - 1], q, spec, order) +
      if F.InRange(q, d) then [DayOf(L.View(parts, d), q, spec, order)] else []
  }

  // ---- the partitions hold the matching rows ----

  lemma DataConcat(a: seq<D.Row>, b: seq<D.Row>, spec: Spec)
    ensures Data(a + b, spec) == Data(a, spec) + Data(b, spec)
  {
  }

  lemma {:induction false} SelectConcat(a: seq<A.Datum>, b: seq<A.Datum>, key: string)
    ensures A.Select(a + b, key) == A.Select(a, key) + A.Select(b, key)
  {
    if a == [] {
      assert a + b == b;
    } else {
      SelectConcat(a[1..], b, key);
      SelectFirst(a, b, key);
    }
  }

  lemma SelectFirst(a: seq<A.Datum>, b: seq<A.Datum>, key: string)
    requires a != [] && A.Select(a[1..] + b, key) == A.Select(a[1..], key) + A.Select(b, key)
    ensures A.Select(a + b, key) == A.Select(a, key) + A.Select(b, key)
  {
    var ab := a + b;
    assert ab[0] == a[0] && ab[1..] == a[1..] + b;
    var first := if A.GoKey(a[0].key) == key then [a[0].val] else [];
    assert A.Select(ab, key) == first + A.Select(ab[1..], key) && A.Select(a, key) == first + A.Select(a[1..], key);
    Associates(first, A.Select(a[1..], key), A.Select(b, key));
  }

  lemma DaysSnoc(days: seq<A.Day>, d: A.Day, key: string)
    ensures A.AllSelected(days + [d], key) == A.AllSelected(days, key) + A.Select(d.rows, key)
    ensures A.DaysOk(days) && A.KeysOf(d.rows, d.keys) ==> A.DaysOk(days + [d])
  {
    assert (days + [d])[..|days|] == days;
  }

  /** Over all listed days, what is selected for a key is selected from the matching rows of the whole store. */
  lemma {:induction false} SelectedOfStore(parts: map<int, D.Partition>, days: seq<int>, q: F.Query, spec: Spec,
                                           order: Grouping, key: string)
    requires L.PartsOk(parts) && Groups(order)
    ensures A.DaysOk(DaysOf(parts, days, q, spec, order))
    ensures A.AllSelected(DaysOf(parts, days, q, spec, order), key) ==
            A.Select(Data(F.Matching(parts, days, q), spec), key)
    decreases |days|
  {
    hide L.PartsOk, D.PartitionOk, F.Filter, F.InRange, Data, A.Select, A.KeysOf, A.AllSelected, A.DaysOk;
    if days == [] {
      NothingSelected(spec, key);
    } else {
      var rest, d := days[..|days| - 1], days[|days| - 1];
      var rows, before := F.Filter(L.View(parts, d).rows, q), F.Matching(parts, rest, q);
      SelectedOfStore(parts, rest, q, spec, order, key);
      DataConcat(before, rows, spec);
      SelectConcat(Data(before, spec), Data(rows, spec), key);
      if F.InRange(q, d) {
        DaysSnoc(DaysOf(parts, rest, q, spec, order), DayOf(L.View(parts, d), q, spec, order), key);
      } else {
        L.ViewOk(parts, d);
        F.PrunedDayIsEmpty(d, L.View(parts, d), q);
        assert before + [] == before;
        assert DaysOf(parts, rest, q, spec, order) + [] == DaysOf(parts, rest, q, spec, order);
      }
    }
  }

  lemma NothingSelected(spec: Spec, key: string)
    ensures A.DaysOk([]) && A.AllSelected([], key) == []
    ensures A.Select(Data([], spec), key) == []
  {
  }

  /** The merged value of a key. */
  function Merged(metric: A.Metric, days: seq<A.Day>, key: string): real {
    A.Value(metric, A.Merge(metric, A.ZERO, A.OfKey(A.AllSqlRows(metric, true, days), key)))
  }

  /**
    * A grouped aggregation of the store speaks of all its matching rows at once: for every key, the count and the
    * sum are those of all of them that read as the key, the extremes are right exactly when every group that
    * reads as the key has a value or some value is on the other side of zero, and the average is right when
    * every row has a value.
    */
  lemma StoreAggregation(parts: map<int, D.Partition>, days: seq<int>, q: F.Query, spec: Spec, order: Grouping,
                         key: string)
    requires L.PartsOk(parts) && Groups(order)
    ensures var sent := DaysOf(parts, days, q, spec, order);
            var all := A.Select(Data(F.Matching(parts, days, q), spec), key);
            var vs := A.Values(all);
            var valued := A.AllValued(A.AllGroups(sent, key));
            && Merged(A.MCount, sent, key) == |all| as real
            && Merged(A.MSum, sent, key) == A.Sum(vs)
            && (vs != [] ==>
                  && (Merged(A.MMin, sent, key) == A.Smallest(vs) <==> valued || A.SomeAtMost(vs, 0.0))
                  && (Merged(A.MMax, sent, key) == A.Largest(vs) <==> valued || A.SomeAtLeast(vs, 0.0))
                  && (A.AllPresent(all) ==> Merged(A.MAvg, sent, key) == A.Sum(vs) / |vs| as real))
  {
    hide L.PartsOk, A.Value, A.Merge, A.OfKey, A.AllSqlRows, A.Select, A.Values, A.Sum, A.AllValued, A.AllGroups;
    hide Data, DaysOf, F.Matching, A.DaysOk, A.SomeAtMost, A.SomeAtLeast, A.Smallest, A.Largest, A.AllPresent;
    hide A.AllSelected;
    var sent := DaysOf(parts, days, q, spec, order);
    SelectedOfStore(parts, days, q, spec, order, key);
    A.GroupedAggregation(sent, key);
    if A.Values(A.AllSelected(sent, key)) != [] {
      A.GroupedExtremes(sent, key);
    }
  }

  // ---- where the counted rows lie ----

  /** The query for the rows that read as the key. */
  function OfGroup(q: F.Query, spec: Spec, key: string): F.Query {
    q.(expr := r => q.expr(r) && A.GoKey(spec.keyOf(r)) == key)
  }

  lemma SelectSnoc(rows: seq<D.Row>, r: D.Row, spec: Spec, key: string)
    ensures |A.Select(Data(rows + [r], spec), key)| ==
            |A.Select(Data(rows, spec), key)| + if A.GoKey(spec.keyOf(r)) == key then 1 else 0
  {
    hide A.Select;
    DataConcat(rows, [r], spec);
    SelectConcat(Data(rows, spec), Data([r], spec), key);
    assert Data([r], spec) == [A.Datum(spec.keyOf(r), spec.valOf(r))];
    A.SelectOne(A.Datum(spec.keyOf(r), spec.valOf(r)), key);
  }

  lemma {:induction false} SelectFiltered(rows: seq<D.Row>, q: F.Query, spec: Spec, key: string)
    ensures |A.Select(Data(F.Filter(rows, q), spec), key)| == |F.Filter(rows, OfGroup(q, spec, key))|
    decreases |rows|
  {
    hide A.Select, Data, A.GoKey, F.Filter;
    if rows == [] {
      NothingFiltered(q, spec, key);
    } else {
      var n := |rows| - 1;
      SelectFiltered(rows[..n], q, spec, key);
      assert rows == rows[..n] + [rows[n]];
      R.FilterSnoc(rows[..n], rows[n], q);
      R.FilterSnoc(rows[..n], rows[n], OfGroup(q, spec, key));
      SelectSnoc(F.Filter(rows[..n], q), rows[n], spec, key);
      assert F.Filter(rows[..n], q) + [] == F.Filter(rows[..n], q);
    }
  }

  lemma NothingFiltered(q: F.Query, spec: Spec, key: string)
    ensures A.Select(Data(F.Filter([], q), spec), key) == [] && F.Filter([], OfGroup(q, spec, key)) == []
  {
  }

  lemma {:induction false} SelectMatching(parts: map<int, D.Partition>, days: seq<int>, q: F.Query, spec: Spec,
                                          key: string)
    ensures |A.Select(Data(F.Matching(parts, days, q), spec), key)| ==
            |F.Matching(parts, days, OfGroup(q, spec, key))|
    decreases |days|
  {
    hide A.Select, Data, F.Filter, OfGroup;
    if days == [] {
      NothingSelected(spec, key);
    } else {
      var n := |days| - 1;
      var rows := L.View(parts, days[n]).rows;
      SelectMatching(parts, days[..n], q, spec, key);
      SelectFiltered(rows, q, spec, key);
      DataConcat(F.Matching(parts, days[..n], q), F.Filter(rows, q), spec);
      SelectConcat(Data(F.Matching(parts, days[..n], q), spec), Data(F.Filter(rows, q), spec), key);
    }
  }

  /** The count of a key is the number of places in the store where a matching row reads as the key. */
  lemma CountIsPlaces(parts: map<int, D.Partition>, days: seq<int>, q: F.Query, spec: Spec, order: Grouping,
                      key: string)
    requires L.PartsOk(parts) && Groups(order)
    requires SortedSets.Ascending(days) && SortedSets.Elements(days) == parts.Keys
    ensures Merged(A.MCount, DaysOf(parts, days, q, spec, order), key) ==
            |R.Places(parts, OfGroup(q, spec, key))| as real
  {
    hide L.PartsOk, A.Value, A.Merge, A.OfKey, A.AllSqlRows, A.Select, Data, DaysOf, OfGroup, R.Places, R.PlacesUpTo;
    hide A.Values, A.Sum, A.AllValued, A.AllGroups, A.Smallest, A.Largest, A.AllPresent, F.Matching, F.Matches;
    StoreAggregation(parts, days, q, spec, order, key);
    SelectMatching(parts, days, q, spec, key);
    R.PlacesCount(parts, days, OfGroup(q, spec, key));
    R.PlacesOfStore(parts, days, OfGroup(q, spec, key));
  }

  // ---- without a group field ----

  lemma {:induction false} ValuesOfConcat(a: seq<A.Datum>, b: seq<A.Datum>)
    ensures A.AllValues(a + b) == A.AllValues(a) + A.AllValues(b)
  {
    if a == [] {
      assert a + b == b;
    } else {
      var ab := a + b;
      assert ab[0] == a[0] && ab[1..] == a[1..] + b;
      ValuesOfConcat(a[1..], b);
    }
  }

  lemma WholeSnoc(days: seq<A.Day>, d: A.Day)
    ensures A.Flatten(A.WholeGroups(days + [d])) == A.Flatten(A.WholeGroups(days)) + A.AllValues(d.rows)
  {
    hide A.AllValues;
    assert (days + [d])[..|days|] == days;
    var gs := A.WholeGroups(days) + [A.AllValues(d.rows)];
    assert A.WholeGroups(days + [d]) == gs && gs[..|gs| - 1] == A.WholeGroups(days);
  }

  lemma NoWholeValues(spec: Spec)
    ensures A.Flatten(A.WholeGroups([])) == [] && A.AllValues(Data([], spec)) == []
  {
  }

  /** The values of all days are those of the matching rows of the store. */
  lemma {:induction false} WholeOfStore(parts: map<int, D.Partition>, days: seq<int>, q: F.Query, spec: Spec,
                                        order: Grouping)
    requires L.PartsOk(parts)
    ensures A.Flatten(A.WholeGroups(DaysOf(parts, days, q, spec, order))) ==
            A.AllValues(Data(F.Matching(parts, days, q), spec))
    decreases |days|
  {
    hide L.PartsOk, D.PartitionOk, F.Filter, F.InRange, Data, A.AllValues, A.WholeGroups, A.Flatten;
    if days == [] {
      NoWholeValues(spec);
    } else {
      var rest, d := days[..|days| - 1], days[|days| - 1];
      var rows, before := F.Filter(L.View(parts, d).rows, q), F.Matching(parts, rest, q);
      WholeOfStore(parts, rest, q, spec, order);
      DataConcat(before, rows, spec);
      ValuesOfConcat(Data(before, spec), Data(rows, spec));
      if F.InRange(q, d) {
        WholeSnoc(DaysOf(parts, rest, q, spec, order), DayOf(L.View(parts, d), q, spec, order));
      } else {
        L.ViewOk(parts, d);
        F.PrunedDayIsEmpty(d, L.View(parts, d), q);
        assert before + [] == before;
        assert DaysOf(parts, rest, q, spec, order) + [] == DaysOf(parts, rest, q, spec, order);
      }
    }
  }

  /** The merged value without a group field. */
  function Total(metric: A.Metric, days: seq<A.Day>): real {
    A.Value(metric, A.Merge(metric, A.ZERO, A.OfKey(A.AllSqlRows(metric, false, days), "")))
  }

  /**
    * The same without a group field: count and sum are those of all matching rows, and the extremes are right
    * exactly when every day in range has a value or some value is on the other side of zero.
    */
  lemma StoreTotals(parts: map<int, D.Partition>, days: seq<int>, q: F.Query, spec: Spec, order: Grouping)
    requires L.PartsOk(parts)
    ensures var sent := DaysOf(parts, days, q, spec, order);
            var all := A.AllValues(Data(F.Matching(parts, days, q), spec));
            var vs := A.Values(all);
            var valued := A.AllValued(A.WholeGroups(sent));
            && Total(A.MCount, sent) == |all| as real
            && Total(A.MSum, sent) == A.Sum(vs)
            && (vs != [] ==>
                  && (Total(A.MMin, sent) == A.Smallest(vs) <==> valued || A.SomeAtMost(vs, 0.0))
                  && (Total(A.MMax, sent) == A.Largest(vs) <==> valued || A.SomeAtLeast(vs, 0.0)))
  {
    hide L.PartsOk, A.Value, A.Merge, A.OfKey, A.AllSqlRows, A.Values, A.Sum, A.AllValued, A.WholeGroups, A.Flatten;
    hide Data, DaysOf, F.Matching, A.SomeAtMost, A.SomeAtLeast, A.Smallest, A.Largest, A.AllPresent, A.AllValues;
    var sent := DaysOf(parts, days, q, spec, order);
    WholeOfStore(parts, days, q, spec, order);
    A.UngroupedSums(sent);
    if A.Values(A.Flatten(A.WholeGroups(sent))) != [] {
      A.UngroupedExtremes(sent);
    }
  }

  // ---- the keys of the answer ----

  lemma {:induction false} SelectNothing(rows: seq<A.Datum>, key: string)
    ensures A.Select(rows, key) != [] <==> exists i :: 0 <= i < |rows| && A.GoKey(rows[i].key) == key
  {
    if rows != [] {
      SelectNothing(rows[1..], key);
      if i :| 0 <= i < |rows| && A.GoKey(rows[i].key) == key {
        assert i > 0 ==> rows[1..][i - 1] == rows[i];
      }
      if i :| 0 <= i < |rows[1..]| && A.GoKey(rows[1..][i].key) == key {
        assert rows[i + 1] == rows[1..][i];
      }
    }
  }

  lemma KeyHasRows(metric: A.Metric, days: seq<A.Day>, key: string)
    requires A.DaysOk(days)
    ensures A.OfKey(A.AllSqlRows(metric, true, days), key) != [] <==> A.AllSelected(days, key) != []
  {
    hide A.OfKey, A.AllSqlRows, A.AllGroups, A.AllSelected, A.Partials, A.Flatten, A.DaysOk;
    A.GroupsOfDays(metric, days, key);
    NonemptyGroups(days, key);
    var gs, all := A.AllGroups(days, key), A.AllSelected(days, key);
    PartialsLength(metric, gs);
    assert |multiset(A.Flatten(gs))| == |A.Flatten(gs)| && |multiset(all)| == |all|;
    FlattenNonempty(gs);
  }

  lemma {:induction false} PartialsLength(metric: A.Metric, gs: seq<seq<Option<real>>>)
    ensures |A.Partials(metric, gs)| == |gs|
    decreases |gs|
  {
    if gs != [] {
      PartialsLength(metric, gs[..|gs| - 1]);
    }
  }

  lemma {:induction false} FlattenNonempty(gs: seq<seq<Option<real>>>)
    requires forall i :: 0 <= i < |gs| ==> gs[i] != []
    ensures |A.Flatten(gs)| >= |gs| && (gs == [] ==> A.Flatten(gs) == [])
    decreases |gs|
  {
    if gs != [] {
      FlattenNonempty(gs[..|gs| - 1]);
    }
  }

  /** SQL returns no empty groups. */
  lemma {:induction false} NonemptyGroups(days: seq<A.Day>, key: string)
    requires A.DaysOk(days)
    ensures forall i :: 0 <= i < |A.AllGroups(days, key)| ==> A.AllGroups(days, key)[i] != []
    decreases |days|
  {
    hide A.GroupsFor;
    if days != [] {
      var d := days[|days| - 1];
      NonemptyGroups(days[..|days| - 1], key);
      NonemptyGroupsOf(d.rows, d.keys, key);
    }
  }

  lemma {:induction false} NonemptyGroupsOf(rows: seq<A.Datum>, keys: seq<A.Key>, key: string)
    requires forall i :: 0 <= i < |keys| ==> A.GroupOf(rows, keys[i]) != []
    ensures forall i :: 0 <= i < |A.GroupsFor(rows, keys, key)| ==> A.GroupsFor(rows, keys, key)[i] != []
    decreases |keys|
  {
    hide A.GroupOf;
    if keys != [] {
      NonemptyGroupsOf(rows, keys[..|keys| - 1], key);
    }
  }

  /** Some matching row reads as the key. */
  ghost predicate Read(rows: seq<D.Row>, spec: Spec, key: string) {
    exists i :: 0 <= i < |rows| && A.GoKey(spec.keyOf(rows[i])) == key
  }

  lemma ReadIsSelected(rows: seq<D.Row>, spec: Spec, key: string)
    ensures Read(rows, spec, key) <==> A.Select(Data(rows, spec), key) != []
  {
    hide A.GoKey, A.Select;
    SelectNothing(Data(rows, spec), key);
    if i :| 0 <= i < |rows| && A.GoKey(spec.keyOf(rows[i])) == key {
      assert Data(rows, spec)[i].key == spec.keyOf(rows[i]);
    }
    if i :| 0 <= i < |rows| && A.GoKey(Data(rows, spec)[i].key) == key {
      assert Data(rows, spec)[i].key == spec.keyOf(rows[i]);
    }
  }

  /** The rows of a grouped answer, before it is cut: one for every key that a matching row reads as, and no other. */
  lemma AnswerOfStore(parts: map<int, D.Partition>, days: seq<int>, q: F.Query, spec: Spec, order: Grouping,
                      r: A.AggRow)
    requires L.PartsOk(parts) && Groups(order)
    ensures var sent := DaysOf(parts, days, q, spec, order);
            r in A.AnswerSet(spec.metric, A.AllSqlRows(spec.metric, true, sent)) <==>
            Read(F.Matching(parts, days, q), spec, r.key) && r.value == Merged(spec.metric, sent, r.key)
  {
    hide L.PartsOk, A.OfKey, A.AllSqlRows, A.Select, A.AllSelected, A.DaysOk, A.Value, A.Merge, A.GoKey;
    hide Data, DaysOf, F.Matching, Read;
    var sent := DaysOf(parts, days, q, spec, order);
    var rows := A.AllSqlRows(spec.metric, true, sent);
    SelectedOfStore(parts, days, q, spec, order, r.key);
    KeyHasRows(spec.metric, sent, r.key);
    ReadIsSelected(F.Matching(parts, days, q), spec, r.key);
    A.HasKey(rows, r.key);
    if r in A.AnswerSet(spec.metric, rows) {
      var i :| 0 <= i < |rows| && r == A.Answer(spec.metric, rows, A.GoKey(rows[i].key));
    }
    if i :| 0 <= i < |rows| && A.GoKey(rows[i].key) == r.key {
      assert A.Answer(spec.metric, rows, A.GoKey(rows[i].key)) in A.AnswerSet(spec.metric, rows);
    }
  }

  // ---- the operation ----

  /** Sends the query to every partition in range, merges what they return and lists the answer. */
  method AggregateStore(s: L.Store, q: F.Query, spec: Spec, order: Grouping)
    returns (out: seq<A.AggRow>, ghost full: seq<A.AggRow>)
    requires s.Valid()
    ensures forall days :: SortedSets.Ascending(days) && SortedSets.Elements(days) == s.parts.Keys ==>
              AnswerIs(out, full, DaysOf(s.parts, days, q, spec, order), spec)
  {
    hide L.PartsOk, F.InRange, F.Filter, Data, A.InOrder, A.RowSet, A.AnswerSet, A.AllSqlRows, A.Before, AnswerIs;
    hide SortedSets.Elements, SortedSets.Ascending;
    var days := s.ListDays();
    L.Store.Listed(days);
    L.Store.OnlyOrder(days);
    var sent: seq<A.Day> := [];
    for i := 0 to |days|
      invariant sent == DaysOf(s.parts, days[..i], q, spec, order)
    {
      assert days[..i + 1][..i] == days[..i];
      assert days[i] in s.parts;
      if F.InRange(q, days[i]) {
        sent := sent + [DayOf(s.parts[days[i]], q, spec, order)];
      } else {
        assert sent + [] == sent;
      }
    }
    assert days[..|days|] == days;
    out, full := A.AggregateDays(spec.metric, spec.grouped, sent, spec.limit);
    assert AnswerIs(out, full, sent, spec) by { IsAnswer(out, full, sent, spec); }
  }

  /** The first rows, at most as many as asked for, of the one ordered list of all rows of the answer. */
  ghost predicate AnswerIs(out: seq<A.AggRow>, full: seq<A.AggRow>, sent: seq<A.Day>, spec: Spec) {
    && A.InOrder(full)
    && A.RowSet(full) == A.AnswerSet(spec.metric, A.AllSqlRows(spec.metric, spec.grouped, sent))
    && out == if |full| > A.Cap(spec.limit) then full[..A.Cap(spec.limit)] else full
  }

  lemma IsAnswer(out: seq<A.AggRow>, full: seq<A.AggRow>, sent: seq<A.Day>, spec: Spec)
    requires A.InOrder(full)
    requires A.RowSet(full) == A.AnswerSet(spec.metric, A.AllSqlRows(spec.metric, spec.grouped, sent))
    requires out == if |full| > A.Cap(spec.limit) then full[..A.Cap(spec.limit)] else full
    ensures AnswerIs(out, full, sent, spec)
  {
  }

  /** The rows aggregated for a compiled query text are exactly the stored rows that its tree is true of. */
  lemma {:induction false} MatchingIsWanted(env: M.Env, view: QS.View, parts: map<int, D.Partition>, days: seq<int>,
                                            req: QS.Request, n: Ast.Node, row: D.Row)
    requires C.Compile(env, n).Ok?
    ensures |C.Compile(env, n).value.1| == C.Holes(C.Compile(env, n).value.0)
    ensures var (sql, args) := C.Compile(env, n).value;
            row in F.Matching(parts, days, QS.QueryOf(req, QS.Selects(env, view, sql, args))) <==>
            exists i :: 0 <= i < |days| && row in L.View(parts, days[i]).rows && QS.Wanted(env, view, n, req, row)
    decreases |days|
  {
    hide C.Compile, F.Matches, F.Filter, QS.Wanted, L.View;
    QS.MatchesIsWanted(env, view, n, req, row);
    if days != [] {
      var (sql, args) := C.Compile(env, n).value;
      var k := |days| - 1;
      MatchingIsWanted(env, view, parts, days[..k], req, n, row);
      F.FilterIs(L.View(parts, days[k]).rows, QS.QueryOf(req, QS.Selects(env, view, sql, args)));
      forall i | 0 <= i < k ensures days[..k][i] == days[i] {
      }
    }
  }
}
