/** The store's operations over its partitions: batches, retries and retention. */
module LogStore {
  import opened Wrappers
  import opened DayStore
  import SortedSets

  /** A day's partition; a day without a file has an empty one. */
  function View(parts: map<int, Partition>, day: int): Partition {
    if day in parts then parts[day] else EMPTY
  }

  ghost predicate PartsOk(parts: map<int, Partition>) {
    forall d :: d in parts ==> PartitionOk(d, parts[d])
  }

  ghost predicate AllFit(msgs: seq<Message>) {
    forall i :: 0 <= i < |msgs| ==> TimeFits(msgs[i])
  }

  /** The partition of a day after the days `done` of a batch were committed. */
  function After(parts: map<int, Partition>, done: set<int>, msgs: seq<Message>, day: int): Partition {
    if day in done then InsertAll(View(parts, day), Batch(msgs, day)) else View(parts, day)
  }

  lemma EmptyOk(day: int)
    ensures PartitionOk(day, EMPTY)
  {
  }

  lemma {:induction false} BatchIs(msgs: seq<Message>, day: int)
    ensures forall i :: 0 <= i < |Batch(msgs, day)| ==> Batch(msgs, day)[i] in msgs && DayOf(Batch(msgs, day)[i]) == day
    ensures forall i :: 0 <= i < |msgs| && DayOf(msgs[i]) == day ==> msgs[i] in Batch(msgs, day)
    ensures Batch(msgs, day) == [] <==> day !in Days(msgs)
  {
    if msgs != [] {
      BatchIs(msgs[1..], day);
      DaysCons(msgs);
      forall i | 0 <= i < |msgs| && DayOf(msgs[i]) == day ensures msgs[i] in Batch(msgs, day) {
        if i > 0 {
          assert msgs[i] == msgs[1..][i - 1];
        }
      }
    }
  }

  lemma DaysCons(msgs: seq<Message>)
    requires msgs != []
    ensures Days(msgs) == {DayOf(msgs[0])} + Days(msgs[1..])
  {
  }

  lemma BatchCons(m: Message, msgs: seq<Message>, day: int)
    ensures Batch([m] + msgs, day) == (if DayOf(m) == day then [m] else []) + Batch(msgs, day)
  {
    assert ([m] + msgs)[1..] == msgs;
  }

  lemma {:induction false} BatchSnoc(msgs: seq<Message>, m: Message, day: int)
    ensures Batch(msgs + [m], day) == Batch(msgs, day) + if DayOf(m) == day then [m] else []
  {
    hide DayOf;
    if msgs == [] {
      assert [] + [m] == [m] && [m][1..] == [];
    } else {
      var x, rest := msgs[0], msgs[1..];
      BatchSnoc(rest, m, day);
      assert msgs == [x] + rest;
      BatchConsSnoc(x, rest, m, day);
    }
  }

  lemma BatchConsSnoc(x: Message, rest: seq<Message>, m: Message, day: int)
    requires Batch(rest + [m], day) == Batch(rest, day) + if DayOf(m) == day then [m] else []
    ensures Batch([x] + rest + [m], day) == Batch([x] + rest, day) + if DayOf(m) == day then [m] else []
  {
    hide Batch, DayOf;
    BatchCons(x, rest, day);
    BatchCons(x, rest + [m], day);
    assert [x] + (rest + [m]) == [x] + rest + [m];
  }

  lemma DaysSnoc(msgs: seq<Message>, m: Message)
    ensures Days(msgs + [m]) == Days(msgs) + {DayOf(m)}
  {
    forall d ensures d in Days(msgs + [m]) <==> d in Days(msgs) + {DayOf(m)} {
      if d in Days(msgs) {
        var i :| 0 <= i < |msgs| && DayOf(msgs[i]) == d;
        assert (msgs + [m])[i] == msgs[i];
      }
      assert (msgs + [m])[|msgs|] == m;
    }
  }

  /** The messages grouped by day. */
  ghost predicate Grouped(byDay: map<int, seq<Message>>, msgs: seq<Message>) {
    byDay.Keys == Days(msgs) && forall d :: d in byDay ==> byDay[d] == Batch(msgs, d)
  }

  method GroupByDay(msgs: seq<Message>) returns (byDay: map<int, seq<Message>>)
    ensures Grouped(byDay, msgs)
  {
    hide Grouped, DayOf;
    byDay := map[];
    NothingGrouped();
    for i := 0 to |msgs|
      invariant Grouped(byDay, msgs[..i])
    {
      assert msgs[..i + 1] == msgs[..i] + [msgs[i]];
      GroupedSnoc(byDay, msgs[..i], msgs[i]);
      var d := DayOf(msgs[i]);
      byDay := byDay[d := (if d in byDay then byDay[d] else []) + [msgs[i]]];
    }
    assert msgs[..|msgs|] == msgs;
  }

  lemma NothingGrouped()
    ensures Grouped(map[], [])
  {
  }

  /** One more message goes to the end of its day's batch. */
  lemma GroupedSnoc(byDay: map<int, seq<Message>>, msgs: seq<Message>, m: Message)
    requires Grouped(byDay, msgs)
    ensures var d := DayOf(m);
            Grouped(byDay[d := (if d in byDay then byDay[d] else []) + [m]], msgs + [m])
  {
    hide Batch, Days, DayOf;
    DaysSnoc(msgs, m);
    BatchIs(msgs, DayOf(m));
    forall e ensures Batch(msgs + [m], e) == Batch(msgs, e) + if DayOf(m) == e then [m] else [] {
      BatchSnoc(msgs, m, e);
    }
  }

  // ---- batches over days ----

  lemma DayBatchOk(msgs: seq<Message>, day: int)
    requires AllFit(msgs)
    ensures forall i :: 0 <= i < |Batch(msgs, day)| ==>
              DayOf(Batch(msgs, day)[i]) == day && TimeFits(Batch(msgs, day)[i])
  {
  }

  lemma ViewOk(parts: map<int, Partition>, day: int)
    requires PartsOk(parts)
    ensures PartitionOk(day, View(parts, day))
  {
  }

  /**
    * A retry after a partial failure: storing more days of the same batch on top of what an earlier attempt
    * committed is storing the union of the days once.
    */
  lemma RetryMerges(parts: map<int, Partition>, mid: map<int, Partition>, d1: set<int>, d2: set<int>,
                    msgs: seq<Message>, day: int)
    requires PartsOk(parts) && AllFit(msgs)
    requires forall d :: View(mid, d) == After(parts, d1, msgs, d)
    ensures After(mid, d2, msgs, day) == After(parts, d1 + d2, msgs, day)
  {
    hide PartitionOk;
    ViewOk(parts, day);
    DayBatchOk(msgs, day);
    StoringTwiceIsStoringOnce(day, View(parts, day), Batch(msgs, day));
  }

  /** A fault that the day's transaction meets: at one of its inserts, or at the commit that follows them. */
  predicate Faulted(faults: map<int, nat>, msgs: seq<Message>, day: int) {
    day in faults && faults[day] <= |Batch(msgs, day)|
  }

  /** No day of the batch meets a fault. */
  ghost predicate Unfaulted(faults: map<int, nat>, msgs: seq<Message>) {
    forall d :: d in Days(msgs) ==> !Faulted(faults, msgs, d)
  }

  /** How many rows carry an id. */
  function Count(rows: seq<Row>, id: string): nat {
    if rows == [] then 0 else (if rows[0].id == id then 1 else 0) + Count(rows[1..], id)
  }

  lemma {:induction false} CountIsOne(rows: seq<Row>, id: string)
    requires forall i, j :: 0 <= i < j < |rows| ==> rows[i].id != rows[j].id
    ensures Count(rows, id) == if HasId(rows, id) then 1 else 0
  {
    if rows != [] {
      var rest := rows[1..];
      assert forall i :: 0 <= i < |rest| ==> rest[i] == rows[i + 1];
      CountIsOne(rest, id);
      if HasId(rows, id) && rows[0].id != id {
        var i :| 0 <= i < |rows| && rows[i].id == id;
        assert rest[i - 1].id == id;
      }
      if HasId(rest, id) {
        var i :| 0 <= i < |rest| && rest[i].id == id;
        assert rows[i + 1].id == id && rows[0].id != id;
      }
    }
  }

  /** After a batch's day is stored, each of its messages is stored exactly once, however often it was retried. */
  lemma StoredExactlyOnce(parts: map<int, Partition>, msgs: seq<Message>, i: nat)
    requires PartsOk(parts) && AllFit(msgs) && i < |msgs|
    ensures Count(InsertAll(View(parts, DayOf(msgs[i])), Batch(msgs, DayOf(msgs[i]))).rows, msgs[i].id) == 1
  {
    hide HasId, Batch, DayOf;
    var d := DayOf(msgs[i]);
    var b := Batch(msgs, d);
    var p := InsertAll(View(parts, d), b);
    ViewOk(parts, d);
    DayBatchOk(msgs, d);
    InsertAllKeeps(d, View(parts, d), b);
    BatchIs(msgs, d);
    var k :| 0 <= k < |b| && b[k] == msgs[i];
    assert HasId(p.rows, b[k].id);
    CountIsOne(p.rows, msgs[i].id);
  }

  /** The row shows the message: its columns, and its time, or the time of receipt, in whole milliseconds. */
  predicate Shows(row: Row, m: Message) {
    var t := if m.timestamp.Some? then m.timestamp.value else m.received;
    && row.id == m.id && row.stream == m.stream && row.body == m.body && row.other == m.other
    && row.ts * 1_000_000 <= t < (row.ts + 1) * 1_000_000
  }

  lemma RowShows(rowid: nat, m: Message)
    ensures Shows(RowOf(rowid, m), m)
  {
  }

  /** Inserting a batch whose first message with an id is new leaves a row that shows that message. */
  lemma {:induction false} BatchShown(day: int, p: Partition, batch: seq<Message>, k: nat)
    requires PartitionOk(day, p) && forall i :: 0 <= i < |batch| ==> DayOf(batch[i]) == day && TimeFits(batch[i])
    requires k < |batch| && !HasId(p.rows, batch[k].id)
    requires forall l :: 0 <= l < k ==> batch[l].id != batch[k].id
    ensures exists j :: 0 <= j < |InsertAll(p, batch).rows| && Shows(InsertAll(p, batch).rows[j], batch[k])
    decreases batch
  {
    hide PartitionOk, DayOf, TimeFits, Shows, RowOf;
    var q := Insert(p, batch[0]);
    InsertKeeps(day, p, batch[0]);
    InsertAllKeeps(day, q, batch[1..]);
    if k == 0 {
      var row := RowOf(NextRowid(p.rows), batch[0]);
      RowShows(NextRowid(p.rows), batch[0]);
      assert q.rows[|p.rows|] == row;
      assert InsertAll(p, batch).rows[|p.rows|] == row;
    } else {
      assert batch[1..][k - 1] == batch[k];
      NotInserted(p, batch[0], batch[k].id);
      BatchShown(day, q, batch[1..], k - 1);
      assert InsertAll(p, batch) == InsertAll(q, batch[1..]);
      var j :| 0 <= j < |InsertAll(q, batch[1..]).rows| && Shows(InsertAll(q, batch[1..]).rows[j], batch[1..][k - 1]);
      assert Shows(InsertAll(p, batch).rows[j], batch[k]);
    }
  }

  lemma NotInserted(p: Partition, m: Message, id: string)
    requires !HasId(p.rows, id) && m.id != id
    ensures !HasId(Insert(p, m).rows, id)
  {
  }

  /**
    * A new message is stored in the partition of its own day, in a row that shows it: neither another day's
    * partition nor another message's columns.
    */
  lemma StoredRow(parts: map<int, Partition>, msgs: seq<Message>, i: nat)
    requires PartsOk(parts) && AllFit(msgs) && i < |msgs|
    requires forall k :: 0 <= k < |msgs| && k != i ==> msgs[k].id != msgs[i].id
    ensures var (d, m) := (DayOf(msgs[i]), msgs[i]);
            var t := if m.timestamp.Some? then m.timestamp.value else m.received;
            && d * 86_400_000_000_000 <= t < (d + 1) * 86_400_000_000_000
            && (!Holds(parts, d, m.id) ==>
                  exists row :: row in InsertAll(View(parts, d), Batch(msgs, d)).rows && Shows(row, m))
  {
    var (d, m) := (DayOf(msgs[i]), msgs[i]);
    hide PartitionOk, DayOf, TimeFits, Shows, HasId, InsertAll, Batch;
    ViewOk(parts, d);
    DayBatchOk(msgs, d);
    BatchIs(msgs, d);
    if !Holds(parts, d, m.id) {
      var k := FirstWith(Batch(msgs, d), m);
      BatchShown(d, View(parts, d), Batch(msgs, d), k);
    }
  }

  /** The first message of a list with a given one's id. */
  lemma FirstWith(batch: seq<Message>, m: Message) returns (k: nat)
    requires m in batch && forall i :: 0 <= i < |batch| && batch[i].id == m.id ==> batch[i] == m
    ensures k < |batch| && batch[k] == m && forall l :: 0 <= l < k ==> batch[l].id != m.id
  {
    k := 0;
    while batch[k].id != m.id
      invariant k < |batch| && forall l :: 0 <= l < k ==> batch[l].id != m.id
      decreases |batch| - k
    {
      k := k + 1;
    }
  }

  /** An id that is stored once on its day is stored once whatever further days of a batch are stored. */
  lemma OnceStaysOnce(parts: map<int, Partition>, done: set<int>, msgs: seq<Message>, day: int, id: string)
    requires PartsOk(parts) && AllFit(msgs) && Count(View(parts, day).rows, id) == 1
    ensures Count(After(parts, done, msgs, day).rows, id) == 1
  {
    hide PartsOk, AllFit, Count, HasId, Batch, DayOf, InsertAll, View;
    var p, q := View(parts, day), After(parts, done, msgs, day);
    ViewOk(parts, day);
    DayBatchOk(msgs, day);
    InsertAllKeeps(day, p, Batch(msgs, day));
    assert PartitionOk(day, q) && p.rows <= q.rows;
    CountIsOne(p.rows, id);
    CountIsOne(q.rows, id);
    HasIdGrows(p.rows, q.rows, id);
  }

  ghost predicate Holds(parts: map<int, Partition>, day: int, id: string) { HasId(View(parts, day).rows, id) }

  /** No id is stored under two days. */
  ghost predicate IdsUnique(parts: map<int, Partition>) {
    forall d, e, id :: Holds(parts, d, id) && Holds(parts, e, id) ==> d == e
  }

  /** No id of the batch is stored, or repeated in the batch, under another day. */
  ghost predicate IdsAgree(parts: map<int, Partition>, msgs: seq<Message>) {
    && (forall k, d :: 0 <= k < |msgs| && Holds(parts, d, msgs[k].id) ==> DayOf(msgs[k]) == d)
    && (forall k, l :: 0 <= k < |msgs| && 0 <= l < |msgs| && msgs[k].id == msgs[l].id ==>
          DayOf(msgs[k]) == DayOf(msgs[l]))
  }

  /** A row after inserting a batch was there before or carries an id of the batch. */
  lemma {:induction false} RowsFrom(p: Partition, batch: seq<Message>, id: string)
    requires HasId(InsertAll(p, batch).rows, id)
    ensures HasId(p.rows, id) || exists k :: 0 <= k < |batch| && batch[k].id == id
    decreases batch
  {
    if batch != [] {
      var q := Insert(p, batch[0]);
      RowsFrom(q, batch[1..], id);
      if HasId(q.rows, id) {
        var i :| 0 <= i < |q.rows| && q.rows[i].id == id;
        if i < |p.rows| {
          assert p.rows[i].id == id;
        } else {
          assert batch[0].id == id;
        }
      } else {
        var k :| 0 <= k < |batch[1..]| && batch[1..][k].id == id;
        assert batch[k + 1].id == id;
      }
    }
  }

  /** Where a stored id comes from: the same day before, or a message of the batch for that day. */
  lemma Origin(parts: map<int, Partition>, next: map<int, Partition>, done: set<int>, msgs: seq<Message>,
               d: int, id: string)
    requires View(next, d) == After(parts, done, msgs, d) && Holds(next, d, id)
    ensures Holds(parts, d, id) || exists k :: 0 <= k < |msgs| && DayOf(msgs[k]) == d && msgs[k].id == id
  {
    hide InsertAll, DayOf, HasId;
    if d in done {
      var b := Batch(msgs, d);
      RowsFrom(View(parts, d), b, id);
      if !Holds(parts, d, id) {
        var l :| 0 <= l < |b| && b[l].id == id;
        BatchIs(msgs, d);
        var k :| 0 <= k < |msgs| && msgs[k] == b[l];
        assert DayOf(msgs[k]) == d && msgs[k].id == id;
      }
    }
  }

  /** Storing a batch, wholly or in part, keeps ids unique across days. */
  lemma StoreKeepsIdsUnique(parts: map<int, Partition>, next: map<int, Partition>, done: set<int>, msgs: seq<Message>)
    requires IdsUnique(parts) && IdsAgree(parts, msgs)
    requires forall d :: View(next, d) == After(parts, done, msgs, d)
    ensures IdsUnique(next)
  {
    hide After, View, DayOf, HasId;
    forall d, e, id | Holds(next, d, id) && Holds(next, e, id) ensures d == e {
      Origin(parts, next, done, msgs, d, id);
      Origin(parts, next, done, msgs, e, id);
    }
  }

  // ---- retention over the whole store ----

  function Pruned(p: Partition, stream: string, cutMs: int): Partition {
    PruneTable(PruneIndex(p, stream, cutMs), stream, cutMs)
  }

  /** Exactly the stream's rows from before the cutoff go; what remains keeps its order. */
  lemma PrunedRows(day: int, p: Partition, stream: string, cutMs: int, row: Row)
    requires PartitionOk(day, p)
    ensures row in Pruned(p, stream, cutMs).rows <==> row in p.rows && (row.stream != stream || row.ts >= cutMs)
    ensures PartitionOk(day, Pruned(p, stream, cutMs))
  {
    KeepIs(p.rows, stream, cutMs);
    PruneKeeps(day, p, stream, cutMs);
  }

  /** A partition after the first of the two statements, after both, or after neither. */
  function PrunedFor(p: Partition, statements: int, stream: string, cutMs: int): Partition {
    if statements <= 0 then p else if statements == 1 then PruneIndex(p, stream, cutMs) else Pruned(p, stream, cutMs)
  }

  /** The store after a prune that got through the given number of statements, two for each day in order. */
  ghost predicate PrunedUpTo(before: map<int, Partition>, after: map<int, Partition>, days: seq<int>,
                             statements: nat, stream: string, cutMs: int)
    requires SortedSets.Elements(days) == before.Keys == after.Keys
  {
    forall i :: 0 <= i < |days| ==>
      && days[i] in SortedSets.Elements(days)
      && after[days[i]] == PrunedFor(before[days[i]], statements - 2 * i, stream, cutMs)
  }

  /** A prune that stops leaves the store in order exactly when it does not stop between two effective statements. */
  lemma StoppedPruneIff(before: map<int, Partition>, after: map<int, Partition>, days: seq<int>, statements: nat,
                        stream: string, cutMs: int)
    requires PartsOk(before) && SortedSets.Elements(days) == before.Keys == after.Keys
    requires PrunedUpTo(before, after, days, statements, stream, cutMs)
    ensures statements < 2 * |days| ==> days[statements / 2] in before
    ensures PartsOk(after) <==>
            (statements % 2 == 1 && statements < 2 * |days| ==>
              Untouched(before[days[statements / 2]], stream, cutMs))
  {
    hide PartitionOk, Pruned, PruneIndex, Untouched;
    var at := statements / 2;
    forall i | 0 <= i < |days|
      ensures days[i] in before
      ensures PartitionOk(days[i], after[days[i]]) <==>
              (statements == 2 * i + 1 ==> Untouched(before[days[i]], stream, cutMs))
    {
      DayAfterPrune(days[i], before[days[i]], statements - 2 * i, stream, cutMs);
    }
    if PartsOk(after) {
      assert at < |days| ==> days[at] in before;
    }
    forall d | d in after ensures exists i :: 0 <= i < |days| && days[i] == d {
      assert d in SortedSets.Elements(days);
    }
  }

  /** No row is selected by the prune. */
  predicate Untouched(p: Partition, stream: string, cutMs: int) {
    forall i :: 0 <= i < |p.rows| ==> !Expired(p.rows[i], stream, cutMs)
  }

  lemma DayAfterPrune(day: int, p: Partition, statements: int, stream: string, cutMs: int)
    requires PartitionOk(day, p)
    ensures PartitionOk(day, PrunedFor(p, statements, stream, cutMs)) <==>
            (statements == 1 ==> Untouched(p, stream, cutMs))
  {
    hide TableOk, Mirror, Expired;
    PruneKeeps(day, p, stream, cutMs);
    IndexPrunedAlone(day, p, stream, cutMs);
  }

  /** How many rows a prune deletes from the given days. */
  function Removed(parts: map<int, Partition>, days: seq<int>, stream: string, cutMs: int): int {
    if days == [] then 0
    else
      var p := View(parts, days[|days| - 1]);
      Removed(parts, days[..|days| - 1], stream, cutMs) + |p.rows| - |Keep(p.rows, stream, cutMs)|
  }

  /** The days before a cutoff. */
  ghost function DaysBefore(days: set<int>, cutoffDay: int): set<int> {
    set d | d in days && d < cutoffDay
  }

  /** What a drop leaves: exactly the partitions from the cutoff on, each as it was. */
  lemma DroppedDays(parts: map<int, Partition>, cutoffDay: int, d: int)
    ensures var left := parts - DaysBefore(parts.Keys, cutoffDay);
            && (d in left <==> d in parts && d >= cutoffDay)
            && (d in left ==> left[d] == parts[d])
            && |left| + |DaysBefore(parts.Keys, cutoffDay)| == |parts|
  {
    var gone := DaysBefore(parts.Keys, cutoffDay);
    var left := parts - gone;
    assert left.Keys == parts.Keys - gone && gone <= parts.Keys;
    assert |left.Keys| + |gone| == |parts.Keys|;
  }

  lemma DaysBeforeAdd(days: set<int>, d: int, cutoffDay: int)
    requires d !in days
    ensures DaysBefore(days + {d}, cutoffDay) == DaysBefore(days, cutoffDay) + if d < cutoffDay then {d} else {}
    ensures d !in DaysBefore(days, cutoffDay)
    ensures DaysBefore({}, cutoffDay) == {}
  {
  }

  // ---- the store ----

  class Store {
    var parts: map<int, Partition>

    ghost predicate Valid()
      reads this
    {
      PartsOk(parts)
    }

    constructor ()
      ensures Valid() && parts == map[]
    {
      parts := map[];
    }

    /** The handle of a day's partition, creating its file on demand. */
    method OpenDay(day: int)
      requires Valid()
      modifies this
      ensures Valid()
      ensures parts == if day in old(parts) then old(parts) else old(parts)[day := EMPTY]
    {
      hide PartitionOk;
      if day !in parts {
        EmptyOk(day);
        parts := parts[day := EMPTY];
      }
    }

    /**
      * Stores a day's batch in one transaction. An error at insert number faultAt, or at the commit when
      * faultAt is the batch's length, rolls everything back.
      */
    method StoreDay(day: int, batch: seq<Message>, faultAt: nat) returns (ok: bool)
      requires Valid()
      requires forall i :: 0 <= i < |batch| ==> DayOf(batch[i]) == day && TimeFits(batch[i])
      modifies this
      ensures Valid()
      ensures ok <==> faultAt > |batch|
      ensures day in parts
      ensures parts == old(parts)[day := if ok then InsertAll(View(old(parts), day), batch) else View(old(parts), day)]
    {
      hide PartitionOk, DayOf, TimeFits;
      OpenDay(day);
      var tx := parts[day];
      assert batch[0..] == batch;
      for i := 0 to |batch|
        invariant parts == old(parts)[day := View(old(parts), day)] && Valid() && faultAt >= i
        invariant InsertAll(tx, batch[i..]) == InsertAll(View(old(parts), day), batch)
      {
        if faultAt == i {
          return false;
        }
        assert batch[i..][1..] == batch[i + 1..];
        tx := InsertRow(tx, batch[i]);
      }
      if faultAt == |batch| {
        return false;
      }
      ViewOk(old(parts), day);
      InsertAllKeeps(day, View(old(parts), day), batch);
      parts := parts[day := tx];
      ok := true;
    }

    /** INSERT OR IGNORE, then the index entry if a row was inserted. */
    static method InsertRow(p: Partition, m: Message) returns (q: Partition)
      ensures q == Insert(p, m)
    {
      if HasId(p.rows, m.id) {
        return p;
      }
      var rowid := NextRowid(p.rows);
      q := p.(rows := p.rows + [RowOf(rowid, m)]);
      q := q.(fts := q.fts[rowid := m.body]);
    }

    /**
      * Stores a batch day by day, in any order, stopping at the first day that fails. `done` is the set of
      * days that were committed; faults says at which insert a day fails.
      */
    method Store(msgs: seq<Message>, faults: map<int, nat>) returns (ok: bool, ghost done: set<int>)
      requires Valid() && AllFit(msgs)
      modifies this
      ensures Valid()
      ensures done <= Days(msgs) && (ok <==> done == Days(msgs))
      ensures (ok <==> Unfaulted(faults, msgs)) && forall d :: d in done ==> !Faulted(faults, msgs, d)
      ensures forall d :: View(parts, d) == After(old(parts), done, msgs, d)
    {
      hide PartitionOk, TimeFits, DayOf, InsertAll, Batch;
      done := {};
      if |msgs| == 0 {
        return true, {};
      }
      var byDay := GroupByDay(msgs);
      var rest := byDay.Keys;
      while rest != {}
        invariant Valid() && rest <= byDay.Keys && done == byDay.Keys - rest
        invariant forall d :: d in done ==> !Faulted(faults, msgs, d)
        invariant forall d :: View(parts, d) == After(old(parts), done, msgs, d)
        decreases rest
      {
        SortedSets.EmptyOrNot(rest);
        var day :| day in rest;
        rest := rest - {day};
        DayBatchOk(msgs, day);
        ghost var before := parts;
        var stored := StoreDay(day, byDay[day], if day in faults then faults[day] else |byDay[day]| + 1);
        forall d ensures View(parts, d) == After(old(parts), if stored then done + {day} else done, msgs, d) {
          assert View(before, d) == After(old(parts), done, msgs, d);
        }
        if !stored {
          return false, done;
        }
        done := done + {day};
      }
      ok := true;
    }

    /** The days that have partitions, oldest first. */
    method ListDays() returns (days: seq<int>)
      ensures SortedSets.Ascending(days) && SortedSets.Elements(days) == parts.Keys
    {
      days := SortedSets.InOrder(parts.Keys);
    }

    /** Deletes whole partitions older than the cutoff day. */
    method DropBefore(cutoffDay: int) returns (dropped: nat)
      requires Valid()
      modifies this
      ensures Valid()
      ensures parts == old(parts) - DaysBefore(old(parts).Keys, cutoffDay)
      ensures dropped == |DaysBefore(old(parts).Keys, cutoffDay)|
    {
      hide PartsOk, DaysBefore, SortedSets.Elements, SortedSets.Ascending;
      var days := ListDays();
      dropped := 0;
      ghost var gone: set<int> := {};
      NothingListed(days);
      DaysBeforeAdd({}, 0, cutoffDay);
      for i := 0 to |days|
        invariant gone == DaysBefore(SortedSets.Elements(days[..i]), cutoffDay)
        invariant dropped == |gone| && parts == old(parts) - gone && Valid()
      {
        NotYetListed(days, i);
        DaysBeforeAdd(SortedSets.Elements(days[..i]), days[i], cutoffDay);
        if days[i] < cutoffDay {
          DropOne(old(parts), gone, days[i]);
          parts := parts - {days[i]};
          gone := gone + {days[i]};
          dropped := dropped + 1;
        }
      }
      assert days[..|days|] == days;
    }

    static lemma DropOne(parts: map<int, Partition>, gone: set<int>, d: int)
      requires PartsOk(parts - gone)
      ensures parts - gone - {d} == parts - (gone + {d})
      ensures PartsOk(parts - gone - {d})
    {
      hide PartitionOk;
    }

    static lemma NothingListed(days: seq<int>)
      ensures SortedSets.Elements(days[..0]) == {}
    {
    }

    static lemma NotYetListed(days: seq<int>, i: nat)
      requires SortedSets.Ascending(days) && i < |days|
      ensures days[i] !in SortedSets.Elements(days[..i])
      ensures SortedSets.Elements(days[..i + 1]) == SortedSets.Elements(days[..i]) + {days[i]}
    {
    }

    /**
      * Deletes a stream's rows older than the cutoff from every partition, index entries first. Every day
      * takes two statements; the prune returns when the one numbered fault fails.
      */
    method DeleteStreamBefore(stream: string, cutMs: int, fault: nat) returns (total: nat, ok: bool)
      requires Valid()
      modifies this
      ensures parts.Keys == old(parts).Keys
      ensures forall days :: SortedSets.Ascending(days) && SortedSets.Elements(days) == parts.Keys ==>
                && ok == (fault >= 2 * |days|)
                && total == Removed(old(parts), days[..Min(fault / 2, |days|)], stream, cutMs)
                && PrunedUpTo(old(parts), parts, days, fault, stream, cutMs)
      ensures ok ==> Valid() && parts == map d | d in old(parts) :: Pruned(old(parts)[d], stream, cutMs)
    {
      hide PartitionOk, Pruned, PruneIndex, PruneTable, Keep, Removed, SortedSets.Elements, SortedSets.Ascending;
      hide PrunedUpTo;
      var days := ListDays();
      total := 0;
      RemovedNone(old(parts), days, stream, cutMs);
      OnlyOrder(days);
      NonePruned(parts, days, stream, cutMs);
      for i := 0 to |days|
        invariant Valid() && parts.Keys == old(parts).Keys && 2 * i <= fault
        invariant total == Removed(old(parts), days[..i], stream, cutMs)
        invariant PrunedUpTo(old(parts), parts, days, 2 * i, stream, cutMs)
      {
        RemovedStep(old(parts), days, i, stream, cutMs);
        OneMorePruned(old(parts), parts, days, i, stream, cutMs);
        if fault == 2 * i {
          return total, false;
        }
        if fault == 2 * i + 1 {
          parts := parts[days[i] := PruneIndex(parts[days[i]], stream, cutMs)];
          return total, false;
        }
        var n := PruneDay(days[i], stream, cutMs);
        total := total + n;
      }
      AllPruned(old(parts), parts, days, fault, stream, cutMs);
      assert days[..|days|] == days;
      ok := true;
    }

    static lemma NonePruned(parts: map<int, Partition>, days: seq<int>, stream: string, cutMs: int)
      requires SortedSets.Ascending(days) && SortedSets.Elements(days) == parts.Keys
      ensures PrunedUpTo(parts, parts, days, 0, stream, cutMs)
    {
      hide SortedSets.Elements, SortedSets.Ascending, Pruned, PruneIndex;
      Listed(days);
    }

    /** The next day's two statements. */
    static lemma OneMorePruned(before: map<int, Partition>, after: map<int, Partition>, days: seq<int>, i: nat,
                               stream: string, cutMs: int)
      requires SortedSets.Ascending(days) && SortedSets.Elements(days) == before.Keys == after.Keys && i < |days|
      requires PrunedUpTo(before, after, days, 2 * i, stream, cutMs)
      ensures days[i] in after && after[days[i]] == before[days[i]]
      ensures var p := after[days[i]];
              && after[days[i] := PruneIndex(p, stream, cutMs)].Keys == after.Keys
              && PrunedUpTo(before, after[days[i] := PruneIndex(p, stream, cutMs)], days, 2 * i + 1, stream, cutMs)
              && after[days[i] := Pruned(p, stream, cutMs)].Keys == after.Keys
              && PrunedUpTo(before, after[days[i] := Pruned(p, stream, cutMs)], days, 2 * (i + 1), stream, cutMs)
    {
      hide SortedSets.Elements, SortedSets.Ascending, Pruned, PruneIndex;
      Listed(days);
      assert 2 * i - 2 * i == 0;
    }

    static lemma AllPruned(before: map<int, Partition>, after: map<int, Partition>, days: seq<int>,
                           statements: nat, stream: string, cutMs: int)
      requires SortedSets.Ascending(days) && SortedSets.Elements(days) == before.Keys == after.Keys
      requires PrunedUpTo(before, after, days, 2 * |days|, stream, cutMs) && statements >= 2 * |days|
      ensures PrunedUpTo(before, after, days, statements, stream, cutMs)
      ensures after == map d | d in before :: Pruned(before[d], stream, cutMs)
    {
      hide SortedSets.Elements, SortedSets.Ascending, Pruned, PruneIndex;
      Listed(days);
      forall d | d in before ensures after[d] == Pruned(before[d], stream, cutMs) {
        assert d in SortedSets.Elements(days);
      }
    }

    static lemma RemovedStep(parts: map<int, Partition>, days: seq<int>, i: nat, stream: string, cutMs: int)
      requires i < |days|
      ensures Removed(parts, days[..i + 1], stream, cutMs) == Removed(parts, days[..i], stream, cutMs) +
              |View(parts, days[i]).rows| - |Keep(View(parts, days[i]).rows, stream, cutMs)|
    {
      assert days[..i + 1][..i] == days[..i];
    }

    static lemma RemovedNone(parts: map<int, Partition>, days: seq<int>, stream: string, cutMs: int)
      ensures Removed(parts, days[..0], stream, cutMs) == 0
    {
    }

    /** Every listed day is a key, every key is listed, and no day is listed twice. */
    static lemma Listed(days: seq<int>)
      requires SortedSets.Ascending(days)
      ensures forall i :: 0 <= i < |days| ==> days[i] in SortedSets.Elements(days)
      ensures forall i, j :: 0 <= i < |days| && 0 <= j < |days| && i != j ==> days[i] != days[j]
      ensures forall d :: d in SortedSets.Elements(days) ==> exists i :: 0 <= i < |days| && days[i] == d
    {
    }

    static lemma OnlyOrder(days: seq<int>)
      requires SortedSets.Ascending(days)
      ensures forall other ::
                SortedSets.Ascending(other) && SortedSets.Elements(other) == SortedSets.Elements(days) ==> other == days
    {
      forall other | SortedSets.Ascending(other) && SortedSets.Elements(other) == SortedSets.Elements(days)
        ensures other == days
      {
        SortedSets.OneOrder(other, days);
      }
    }

    /** The two statements on one partition; returns how many rows were deleted. */
    method PruneDay(day: int, stream: string, cutMs: int) returns (n: nat)
      requires Valid() && day in parts
      modifies this
      ensures Valid()
      ensures parts == old(parts)[day := Pruned(old(parts)[day], stream, cutMs)]
      ensures n == |old(parts)[day].rows| - |Keep(old(parts)[day].rows, stream, cutMs)|
    {
      hide PartitionOk;
      PruneKeeps(day, parts[day], stream, cutMs);
      KeepIs(parts[day].rows, stream, cutMs);
      parts := parts[day := PruneIndex(parts[day], stream, cutMs)];
      n := |parts[day].rows| - |Keep(parts[day].rows, stream, cutMs)|;
      parts := parts[day := PruneTable(parts[day], stream, cutMs)];
    }
  }
}
