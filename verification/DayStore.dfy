/** The day-partitioned log store: one table and one full-text index per UTC day. */
module DayStore {
  import opened Wrappers

  const DAY_MS := 86_400_000
  const MILLI_NS := 1_000_000
  const DAY_NS := 86_400_000_000_000
  const TS_LIMIT := 0x4000_0000_0000_0000

  /** A message to store; times are nanoseconds since the epoch. `other` stands for the remaining columns. */
  datatype Message = Message(id: string, timestamp: Option<int>, received: int, stream: string, body: string,
                             other: string)

  /** A stored row; ts is in milliseconds. */
  datatype Row = Row(rowid: nat, id: string, ts: int, stream: string, body: string, other: string)

  /** A day's database: the table in rowid order, and the full-text index from rowid to indexed body. */
  datatype Partition = Partition(rows: seq<Row>, fts: map<nat, string>)

  const EMPTY := Partition([], map[])

  /** The event time, defaulting to the time of receipt. */
  function Time(m: Message): int { if m.timestamp.Some? then m.timestamp.value else m.received }

  function DayOf(m: Message): int { Time(m) / DAY_NS }

  function RowOf(rowid: nat, m: Message): Row { Row(rowid, m.id, Time(m) / MILLI_NS, m.stream, m.body, m.other) }

  /** The day a stored millisecond time falls on is the day of the message. */
  lemma DayOfMillis(t: int)
    ensures t / MILLI_NS / DAY_MS == t / DAY_NS
  {
  }

  // ---- inserting ----

  predicate HasId(rows: seq<Row>, id: string) { exists i :: 0 <= i < |rows| && rows[i].id == id }

  /** SQLite's next rowid: one more than the largest. */
  function NextRowid(rows: seq<Row>): nat { if rows == [] then 1 else rows[|rows| - 1].rowid + 1 }

  /** INSERT OR IGNORE into the table, and into the index only if a row was inserted. */
  function Insert(p: Partition, m: Message): Partition {
    if HasId(p.rows, m.id) then p
    else
      var r := NextRowid(p.rows);
      Partition(p.rows + [RowOf(r, m)], p.fts[r := m.body])
  }

  function InsertAll(p: Partition, batch: seq<Message>): Partition
    decreases batch
  {
    if batch == [] then p else InsertAll(Insert(p, batch[0]), batch[1..])
  }

  /** The messages of one day, in order. */
  function Batch(msgs: seq<Message>, day: int): seq<Message> {
    if msgs == [] then [] else (if DayOf(msgs[0]) == day then [msgs[0]] else []) + Batch(msgs[1..], day)
  }

  ghost function Days(msgs: seq<Message>): set<int> { set i | 0 <= i < |msgs| :: DayOf(msgs[i]) }

  // ---- the invariant of a partition ----

  ghost function Rowids(rows: seq<Row>): set<nat> { set i | 0 <= i < |rows| :: rows[i].rowid }

  /** The index holds exactly the (rowid, body) pairs of the table. */
  ghost predicate Mirror(p: Partition) {
    && p.fts.Keys == Rowids(p.rows)
    && (forall i :: 0 <= i < |p.rows| ==> p.rows[i].rowid in p.fts && p.fts[p.rows[i].rowid] == p.rows[i].body)
  }

  ghost predicate TableOk(day: int, rows: seq<Row>) {
    && (forall i, j :: 0 <= i < j < |rows| ==> rows[i].rowid < rows[j].rowid)
    && (forall i, j :: 0 <= i < j < |rows| ==> rows[i].id != rows[j].id)
    && (forall i :: 0 <= i < |rows| ==> rows[i].ts / DAY_MS == day && -TS_LIMIT < rows[i].ts < TS_LIMIT)
  }

  ghost predicate PartitionOk(day: int, p: Partition) { TableOk(day, p.rows) && Mirror(p) }

  /** Times stay within what a 62-bit millisecond bound can express. */
  predicate TimeFits(m: Message) { -TS_LIMIT < Time(m) / MILLI_NS < TS_LIMIT }

  lemma RowidsSnoc(rows: seq<Row>, r: Row)
    ensures Rowids(rows + [r]) == Rowids(rows) + {r.rowid}
  {
    forall x ensures x in Rowids(rows + [r]) <==> x in Rowids(rows) + {r.rowid} {
      if x in Rowids(rows) {
        var i :| 0 <= i < |rows| && rows[i].rowid == x;
        assert (rows + [r])[i].rowid == x;
      }
      assert (rows + [r])[|rows|] == r;
    }
  }

  lemma NextRowidIsNew(rows: seq<Row>, i: nat)
    requires forall i, j :: 0 <= i < j < |rows| ==> rows[i].rowid < rows[j].rowid
    requires i < |rows|
    ensures rows[i].rowid < NextRowid(rows)
  {
  }

  lemma InsertKeeps(day: int, p: Partition, m: Message)
    requires PartitionOk(day, p) && DayOf(m) == day && TimeFits(m)
    ensures PartitionOk(day, Insert(p, m))
    ensures HasId(Insert(p, m).rows, m.id)
    ensures p.rows <= Insert(p, m).rows
  {
    hide Rowids;
    if !HasId(p.rows, m.id) {
      var r := RowOf(NextRowid(p.rows), m);
      var q := Insert(p, m);
      DayOfMillis(Time(m));
      RowidsSnoc(p.rows, r);
      forall i | 0 <= i < |p.rows| ensures p.rows[i].rowid < r.rowid && p.rows[i].id != m.id {
        NextRowidIsNew(p.rows, i);
      }
      assert q.rows[|p.rows|] == r;
    }
  }

  lemma {:induction false} InsertAllKeeps(day: int, p: Partition, batch: seq<Message>)
    requires PartitionOk(day, p)
    requires forall i :: 0 <= i < |batch| ==> DayOf(batch[i]) == day && TimeFits(batch[i])
    ensures PartitionOk(day, InsertAll(p, batch))
    ensures p.rows <= InsertAll(p, batch).rows
    ensures forall i :: 0 <= i < |batch| ==> HasId(InsertAll(p, batch).rows, batch[i].id)
    decreases batch
  {
    hide PartitionOk, Insert, HasId, DayOf, TimeFits;
    if batch != [] {
      var q := Insert(p, batch[0]);
      InsertKeeps(day, p, batch[0]);
      InsertAllKeeps(day, q, batch[1..]);
      HasIdGrows(q.rows, InsertAll(q, batch[1..]).rows, batch[0].id);
      forall i | 0 <= i < |batch| ensures HasId(InsertAll(p, batch).rows, batch[i].id) {
        if i > 0 {
          assert batch[i] == batch[1..][i - 1];
        }
      }
    }
  }

  lemma HasIdGrows(a: seq<Row>, b: seq<Row>, id: string)
    requires a <= b && HasId(a, id)
    ensures HasId(b, id)
  {
  }

  /** Inserting a batch whose ids are all present changes nothing. */
  lemma {:induction false} InsertPresent(p: Partition, batch: seq<Message>)
    requires forall i :: 0 <= i < |batch| ==> HasId(p.rows, batch[i].id)
    ensures InsertAll(p, batch) == p
    decreases batch
  {
    hide HasId;
    if batch != [] {
      assert HasId(p.rows, batch[0].id);
      forall i | 0 <= i < |batch[1..]| ensures HasId(p.rows, batch[1..][i].id) {
        assert batch[1..][i] == batch[i + 1];
      }
      InsertPresent(p, batch[1..]);
    }
  }

  /** Retrying is harmless: a day's batch stored twice is the batch stored once. */
  lemma StoringTwiceIsStoringOnce(day: int, p: Partition, batch: seq<Message>)
    requires PartitionOk(day, p)
    requires forall i :: 0 <= i < |batch| ==> DayOf(batch[i]) == day && TimeFits(batch[i])
    ensures InsertAll(InsertAll(p, batch), batch) == InsertAll(p, batch)
  {
    hide PartitionOk, DayOf, TimeFits, HasId;
    InsertAllKeeps(day, p, batch);
    InsertPresent(InsertAll(p, batch), batch);
  }

  // ---- deleting a stream's old rows ----

  predicate Expired(r: Row, stream: string, cutMs: int) { r.stream == stream && r.ts < cutMs }

  function Keep(rows: seq<Row>, stream: string, cutMs: int): seq<Row> {
    if rows == [] then []
    else (if Expired(rows[0], stream, cutMs) then [] else [rows[0]]) + Keep(rows[1..], stream, cutMs)
  }

  /** The rowids of the rows a prune selects. */
  function ExpiredIds(rows: seq<Row>, stream: string, cutMs: int): set<nat> {
    set i | 0 <= i < |rows| && Expired(rows[i], stream, cutMs) :: rows[i].rowid
  }

  /** First statement: the index forgets the selected rows. */
  function PruneIndex(p: Partition, stream: string, cutMs: int): Partition {
    p.(fts := p.fts - ExpiredIds(p.rows, stream, cutMs))
  }

  /** Second statement: the table deletes them. */
  function PruneTable(p: Partition, stream: string, cutMs: int): Partition {
    p.(rows := Keep(p.rows, stream, cutMs))
  }

  lemma {:induction false} KeepIs(rows: seq<Row>, stream: string, cutMs: int)
    ensures forall i :: 0 <= i < |Keep(rows, stream, cutMs)| ==>
              Keep(rows, stream, cutMs)[i] in rows && !Expired(Keep(rows, stream, cutMs)[i], stream, cutMs)
    ensures forall i :: 0 <= i < |rows| && !Expired(rows[i], stream, cutMs) ==> rows[i] in Keep(rows, stream, cutMs)
    ensures |Keep(rows, stream, cutMs)| <= |rows|
  {
    if rows != [] {
      KeepIs(rows[1..], stream, cutMs);
      forall i | 0 <= i < |rows| && !Expired(rows[i], stream, cutMs) ensures rows[i] in Keep(rows, stream, cutMs) {
        if i > 0 {
          assert rows[i] == rows[1..][i - 1];
        }
      }
    }
  }

  lemma {:induction false} KeepKeepsOrder(day: int, rows: seq<Row>, stream: string, cutMs: int)
    requires TableOk(day, rows)
    ensures TableOk(day, Keep(rows, stream, cutMs))
  {
    if rows != [] {
      var rest, kept := rows[1..], Keep(rows[1..], stream, cutMs);
      forall i | 0 <= i < |rest| ensures rest[i] == rows[i + 1] {
      }
      KeepKeepsOrder(day, rest, stream, cutMs);
      KeepIs(rest, stream, cutMs);
      forall j | 0 <= j < |kept| ensures rows[0].rowid < kept[j].rowid && rows[0].id != kept[j].id {
        assert kept[j] in rest;
        var k :| 0 <= k < |rest| && rest[k] == kept[j];
        assert rows[k + 1] == kept[j];
      }
      if !Expired(rows[0], stream, cutMs) {
        assert Keep(rows, stream, cutMs) == [rows[0]] + kept;
        TableCons(day, rows[0], kept);
      }
    }
  }

  lemma TableCons(day: int, r: Row, rows: seq<Row>)
    requires TableOk(day, rows) && r.ts / DAY_MS == day && -TS_LIMIT < r.ts < TS_LIMIT
    requires forall j :: 0 <= j < |rows| ==> r.rowid < rows[j].rowid && r.id != rows[j].id
    ensures TableOk(day, [r] + rows)
  {
  }

  lemma KeptIds(day: int, rows: seq<Row>, stream: string, cutMs: int)
    requires TableOk(day, rows)
    ensures Rowids(Keep(rows, stream, cutMs)) == Rowids(rows) - ExpiredIds(rows, stream, cutMs)
  {
    var kept := Keep(rows, stream, cutMs);
    KeepIs(rows, stream, cutMs);
    forall x ensures x in Rowids(kept) <==> x in Rowids(rows) - ExpiredIds(rows, stream, cutMs) {
      if x in Rowids(kept) {
        var i :| 0 <= i < |kept| && kept[i].rowid == x;
        var k :| 0 <= k < |rows| && rows[k] == kept[i];
        assert x in Rowids(rows);
        forall l | 0 <= l < |rows| && rows[l].rowid == x ensures !Expired(rows[l], stream, cutMs) {
          assert l == k;
        }
      }
      if x in Rowids(rows) && x !in ExpiredIds(rows, stream, cutMs) {
        var k :| 0 <= k < |rows| && rows[k].rowid == x;
        assert rows[k] in kept;
        var i :| 0 <= i < |kept| && kept[i] == rows[k];
      }
    }
  }

  /** Both statements together keep the partition's invariant. */
  lemma PruneKeeps(day: int, p: Partition, stream: string, cutMs: int)
    requires PartitionOk(day, p)
    ensures PartitionOk(day, PruneTable(PruneIndex(p, stream, cutMs), stream, cutMs))
  {
    hide ExpiredIds, Rowids, TableOk;
    var kept := Keep(p.rows, stream, cutMs);
    var fts := p.fts - ExpiredIds(p.rows, stream, cutMs);
    KeepKeepsOrder(day, p.rows, stream, cutMs);
    KeptIds(day, p.rows, stream, cutMs);
    KeepIs(p.rows, stream, cutMs);
    forall i | 0 <= i < |kept| ensures kept[i].rowid in fts && fts[kept[i].rowid] == kept[i].body {
      assert kept[i].rowid in Rowids(kept) by { RowidIn(kept, i); }
      var k :| 0 <= k < |p.rows| && p.rows[k] == kept[i];
    }
  }

  lemma RowidIn(rows: seq<Row>, i: nat)
    requires i < |rows|
    ensures rows[i].rowid in Rowids(rows)
  {
  }

  /** If only the first statement takes effect, the index still mirrors the table just when nothing was selected. */
  lemma IndexPrunedAlone(day: int, p: Partition, stream: string, cutMs: int)
    requires PartitionOk(day, p)
    ensures Mirror(PruneIndex(p, stream, cutMs)) <==>
            forall i :: 0 <= i < |p.rows| ==> !Expired(p.rows[i], stream, cutMs)
  {
  }

  /**
    * If a message is stored between the two statements, the index still mirrors the table just when the
    * message is not one the prune selects: its row would be deleted and its index entry left behind.
    */
  lemma StoreBetweenStatements(day: int, p: Partition, m: Message, stream: string, cutMs: int)
    requires PartitionOk(day, p) && DayOf(m) == day && TimeFits(m) && !HasId(p.rows, m.id)
    ensures Mirror(PruneTable(Insert(PruneIndex(p, stream, cutMs), m), stream, cutMs)) <==>
            !Expired(RowOf(NextRowid(p.rows), m), stream, cutMs)
  {
    hide Rowids, ExpiredIds;
    var r := RowOf(NextRowid(p.rows), m);
    var kept := Keep(p.rows, stream, cutMs);
    var fts := p.fts - ExpiredIds(p.rows, stream, cutMs);
    KeepSnoc(p.rows, r, stream, cutMs);
    PruneKeeps(day, p, stream, cutMs);
    KeptIds(day, p.rows, stream, cutMs);
    NewRowid(p.rows, kept);
    var q := PruneTable(Insert(PruneIndex(p, stream, cutMs), m), stream, cutMs);
    assert q.fts == fts[r.rowid := m.body];
    if Expired(r, stream, cutMs) {
      assert q.rows == kept && r.rowid in q.fts && r.rowid !in Rowids(kept);
    } else {
      assert q.rows == kept + [r];
      RowidsSnoc(kept, r);
      forall i | 0 <= i < |q.rows| ensures q.rows[i].rowid in q.fts && q.fts[q.rows[i].rowid] == q.rows[i].body {
        if i < |kept| {
          RowidIn(kept, i);
        }
      }
    }
  }

  /** A message of the stream, stored between the statements on an empty day, leaves its index entry behind. */
  lemma LateMessageLeavesEntry()
    ensures var m := Message("id", Some(0), 0, "s", "text", "");
            && PartitionOk(0, EMPTY)
            && !Mirror(PruneTable(Insert(PruneIndex(EMPTY, "s", 1), m), "s", 1))
  {
    hide PruneIndex, PruneTable, Insert, Mirror;
    EmptyMirrors();
    StoreBetweenStatements(0, EMPTY, Message("id", Some(0), 0, "s", "text", ""), "s", 1);
  }

  /** A message of the stream, and a prune of its day that stops after its first statement: a row without an entry. */
  lemma HalfPruneLeavesRow()
    ensures var p := Insert(EMPTY, Message("id", Some(0), 0, "s", "text", ""));
            PartitionOk(0, p) && !Mirror(PruneIndex(p, "s", 1))
  {
    hide PruneIndex, Mirror, PartitionOk;
    var m := Message("id", Some(0), 0, "s", "text", "");
    EmptyMirrors();
    InsertKeeps(0, EMPTY, m);
    var p := Insert(EMPTY, m);
    assert p.rows == [RowOf(1, m)] && Expired(p.rows[0], "s", 1);
    IndexPrunedAlone(0, p, "s", 1);
  }

  lemma EmptyMirrors()
    ensures PartitionOk(0, EMPTY)
  {
  }

  lemma NewRowid(rows: seq<Row>, kept: seq<Row>)
    requires forall i, j :: 0 <= i < j < |rows| ==> rows[i].rowid < rows[j].rowid
    requires Rowids(kept) <= Rowids(rows)
    ensures NextRowid(rows) !in Rowids(rows) && NextRowid(rows) !in Rowids(kept)
  {
  }

  lemma {:induction false} KeepSnoc(rows: seq<Row>, r: Row, stream: string, cutMs: int)
    ensures Keep(rows + [r], stream, cutMs) == Keep(rows, stream, cutMs) + if Expired(r, stream, cutMs) then [] else [r]
  {
    if rows == [] {
      assert rows + [r] == [r];
      assert [r][1..] == [];
    } else {
      assert (rows + [r])[1..] == rows[1..] + [r];
      KeepSnoc(rows[1..], r, stream, cutMs);
    }
  }
}
