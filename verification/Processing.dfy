/**
  * The processor (internal/processing/processor.go) with nobody else at work: Next and gather over the
  * journal's reader, one batch through the store with retries, the commit. Interleavings are in JournalRuns.
  */
module Processing {
  import opened Wrappers
  import opened Frames
  import opened JournalFiles
  import JR = JournalReader
  import M = JournalModel
  import R = ReaderModel
  import Runs = JournalRuns
  import D = DayStore
  import L = LogStore

  const STORE_RETRIES := 3
  const DEFAULT_BATCH_SIZE := 2000

  type Item = (nat, Record)

  /** Decoding a record and running the pipelines: none when it does not decode or is dropped. */
  type Decoder = (nat, Record) -> Option<D.Message>

  function Decoded(decode: Decoder, batch: seq<Item>): seq<D.Message> {
    if batch == [] then []
    else
      var m := decode(batch[|batch| - 1].0, batch[|batch| - 1].1);
      Decoded(decode, batch[..|batch| - 1]) + if m.Some? then [m.value] else []
  }

  /** The messages of a batch in two parts are those of the first, then those of the second. */
  lemma {:induction false} DecodedConcat(decode: Decoder, a: seq<Item>, b: seq<Item>)
    ensures Decoded(decode, a + b) == Decoded(decode, a) + Decoded(decode, b)
    decreases |b|
  {
    if b == [] {
      assert a + b == a;
    } else {
      var n := |b| - 1;
      assert (a + b)[..|a + b| - 1] == a + b[..n] && (a + b)[|a + b| - 1] == b[n];
      DecodedConcat(decode, a, b[..n]);
    }
  }

  /** A single record gives its message if it has one, and nothing otherwise. */
  lemma DecodedOne(decode: Decoder, item: Item)
    ensures Decoded(decode, [item]) == match decode(item.0, item.1) case Some(m) => [m] case None => []
  {
    assert [item][..0] == [];
  }

  /** The message of every record that decodes is there, where those of the records before it end. */
  lemma DecodedAt(decode: Decoder, batch: seq<Item>, k: nat)
    requires k < |batch| && decode(batch[k].0, batch[k].1).Some?
    ensures var i := |Decoded(decode, batch[..k])|;
            i < |Decoded(decode, batch)| && Decoded(decode, batch)[i] == decode(batch[k].0, batch[k].1).value
  {
    hide Decoded;
    DecodedConcat(decode, batch[..k], batch[k..]);
    DecodedConcat(decode, [batch[k]], batch[k + 1..]);
    DecodedOne(decode, batch[k]);
    assert batch[..k] + batch[k..] == batch && [batch[k]] + batch[k + 1..] == batch[k..];
  }

  ghost predicate DecodesFit(decode: Decoder) {
    forall q, rec :: decode(q, rec).Some? ==> D.TimeFits(decode(q, rec).value)
  }

  lemma {:induction false} DecodedFit(decode: Decoder, batch: seq<Item>)
    requires DecodesFit(decode)
    ensures L.AllFit(Decoded(decode, batch))
  {
    hide D.TimeFits;
    if batch != [] {
      DecodedFit(decode, batch[..|batch| - 1]);
    }
  }

  // ---- storing with retries ----

  /** What a batch left in the store: the days `done` of it whole, the others untouched. */
  ghost predicate StoredDays(before: map<int, D.Partition>, after: map<int, D.Partition>, done: set<int>,
                             msgs: seq<D.Message>)
  {
    done <= D.Days(msgs) && forall d :: L.View(after, d) == L.After(before, done, msgs, d)
  }

  lemma NothingStored(parts: map<int, D.Partition>, msgs: seq<D.Message>)
    ensures StoredDays(parts, parts, {}, msgs)
  {
    hide D.InsertAll, D.Batch;
  }

  lemma StoredAgain(a: map<int, D.Partition>, b: map<int, D.Partition>, c: map<int, D.Partition>,
                    d1: set<int>, d2: set<int>, msgs: seq<D.Message>)
    requires L.PartsOk(a) && L.AllFit(msgs)
    requires StoredDays(a, b, d1, msgs) && StoredDays(b, c, d2, msgs)
    ensures StoredDays(a, c, d1 + d2, msgs)
  {
    hide L.After, L.View, D.Days, L.PartsOk, L.AllFit;
    forall d ensures L.View(c, d) == L.After(a, d1 + d2, msgs, d) {
      L.RetryMerges(a, b, d1, d2, msgs, d);
    }
  }

  /** Some attempt meets no fault. */
  ghost predicate Succeeds(faults: seq<map<int, nat>>, msgs: seq<D.Message>) {
    exists a :: 0 <= a < |faults| && L.Unfaulted(faults[a], msgs)
  }

  /**
    * A batch is attempted up to three times; faults says where each attempt fails, and fewer than three of
    * them that the context was cancelled after the last. Whole days of it are stored once or not at all, and
    * all of them when it succeeds, as it does exactly when one of the attempts meets no fault.
    */
  method StoreWithRetry(store: L.Store, msgs: seq<D.Message>, faults: seq<map<int, nat>>)
    returns (ok: bool, ghost done: set<int>)
    requires store.Valid() && L.AllFit(msgs) && 0 < |faults| <= STORE_RETRIES
    modifies store
    ensures store.Valid()
    ensures StoredDays(old(store.parts), store.parts, done, msgs)
    ensures ok ==> done == D.Days(msgs)
    ensures ok <==> Succeeds(faults, msgs)
  {
    hide L.PartsOk, L.AllFit, D.Days, StoredDays, L.After, L.View, L.Unfaulted;
    ghost var before := store.parts;
    done := {};
    NothingStored(before, msgs);
    if |msgs| == 0 {
      NoDays();
      assert L.Unfaulted(faults[0], msgs) by { NoFaults(faults[0]); }
      return true, {};
    }
    for attempt := 0 to |faults|
      invariant store.Valid() && StoredDays(before, store.parts, done, msgs)
      invariant forall a :: 0 <= a < attempt ==> !L.Unfaulted(faults[a], msgs)
    {
      ghost var mid := store.parts;
      ghost var more;
      ok, more := store.Store(msgs, faults[attempt]);
      assert StoredDays(mid, store.parts, more, msgs) by { StoredIs(mid, store.parts, more, msgs); }
      StoredAgain(before, mid, store.parts, done, more, msgs);
      AllDays(before, store.parts, done, more, msgs);
      done := done + more;
      if ok {
        return true, done;
      }
    }
    ok := false;
  }

  lemma NoDays()
    ensures D.Days([]) == {}
  {
  }

  lemma NoFaults(faults: map<int, nat>)
    ensures L.Unfaulted(faults, [])
  {
  }

  lemma StoredIs(before: map<int, D.Partition>, after: map<int, D.Partition>, done: set<int>, msgs: seq<D.Message>)
    requires done <= D.Days(msgs) && forall d :: L.View(after, d) == L.After(before, done, msgs, d)
    ensures StoredDays(before, after, done, msgs)
  {
  }

  lemma AllDays(before: map<int, D.Partition>, after: map<int, D.Partition>, d1: set<int>, d2: set<int>,
                msgs: seq<D.Message>)
    requires StoredDays(before, after, d1 + d2, msgs)
    ensures d2 == D.Days(msgs) ==> d1 + d2 == D.Days(msgs)
  {
  }

  /** A stored batch holds every message exactly once, however often it was retried. */
  lemma StoredOnce(before: map<int, D.Partition>, after: map<int, D.Partition>, msgs: seq<D.Message>, i: nat)
    requires L.PartsOk(before) && L.AllFit(msgs) && i < |msgs|
    requires StoredDays(before, after, D.Days(msgs), msgs)
    ensures L.Count(L.View(after, D.DayOf(msgs[i])).rows, msgs[i].id) == 1
  {
    hide L.PartsOk, L.AllFit, L.Count, D.DayOf, L.View, D.InsertAll, D.Batch;
    L.StoredExactlyOnce(before, msgs, i);
    assert D.DayOf(msgs[i]) in D.Days(msgs);
  }

  /** The message of a record, if it has one, is stored exactly once, in the day of its time. */
  ghost predicate Kept(parts: map<int, D.Partition>, decode: Decoder, item: Item) {
    match decode(item.0, item.1)
    case Some(m) => L.Count(L.View(parts, D.DayOf(m)).rows, m.id) == 1
    case None => true
  }

  ghost predicate AllKept(parts: map<int, D.Partition>, decode: Decoder, batch: seq<Item>) {
    forall k :: 0 <= k < |batch| ==> Kept(parts, decode, batch[k])
  }

  /** A batch that the store took is kept record by record. */
  lemma BatchIsKept(before: map<int, D.Partition>, after: map<int, D.Partition>, decode: Decoder, batch: seq<Item>)
    requires L.PartsOk(before) && DecodesFit(decode)
    requires StoredDays(before, after, D.Days(Decoded(decode, batch)), Decoded(decode, batch))
    ensures AllKept(after, decode, batch)
  {
    hide L.PartsOk, L.Count, D.DayOf, L.View, Decoded, StoredDays, DecodesFit;
    DecodedFit(decode, batch);
    forall k | 0 <= k < |batch| ensures Kept(after, decode, batch[k]) {
      if decode(batch[k].0, batch[k].1).Some? {
        DecodedAt(decode, batch, k);
        StoredOnce(before, after, Decoded(decode, batch), |Decoded(decode, batch[..k])|);
      }
    }
  }

  /** What is stored once stays so while further batches are stored. */
  lemma KeptStays(before: map<int, D.Partition>, after: map<int, D.Partition>, done: set<int>, msgs: seq<D.Message>,
                  decode: Decoder, item: Item)
    requires L.PartsOk(before) && L.AllFit(msgs) && StoredDays(before, after, done, msgs)
    requires Kept(before, decode, item)
    ensures Kept(after, decode, item)
  {
    hide L.PartsOk, L.AllFit, L.Count, L.View, D.DayOf, StoredDays, D.InsertAll, D.Batch;
    if decode(item.0, item.1).Some? {
      var m := decode(item.0, item.1).value;
      L.OnceStaysOnce(before, done, msgs, D.DayOf(m), m.id);
      assert L.View(after, D.DayOf(m)) == L.After(before, done, msgs, D.DayOf(m)) by {
        ViewAfter(before, after, done, msgs, D.DayOf(m));
      }
    }
  }

  lemma ViewAfter(before: map<int, D.Partition>, after: map<int, D.Partition>, done: set<int>, msgs: seq<D.Message>,
                  day: int)
    requires StoredDays(before, after, done, msgs)
    ensures L.View(after, day) == L.After(before, done, msgs, day)
  {
  }

  lemma AllKeptStays(before: map<int, D.Partition>, after: map<int, D.Partition>, done: set<int>,
                     msgs: seq<D.Message>, decode: Decoder, batch: seq<Item>)
    requires L.PartsOk(before) && L.AllFit(msgs) && StoredDays(before, after, done, msgs)
    requires AllKept(before, decode, batch)
    ensures AllKept(after, decode, batch)
  {
    hide L.PartsOk, L.AllFit, StoredDays, Kept;
    forall k | 0 <= k < |batch| ensures Kept(after, decode, batch[k]) {
      KeptStays(before, after, done, msgs, decode, batch[k]);
    }
  }

  // ---- reading with nobody else at work ----

  /** Everything from a to b has been evicted. */
  ghost predicate Gone(j: M.Journal, a: nat, b: nat)
    requires M.Valid(j)
  {
    forall q :: a <= q < b ==> R.Evicted(j, q)
  }

  /** A batch holds what is stored from pos on, in order, each sequence with its record. */
  ghost predicate Delivers(j: M.Journal, pos: nat, batch: seq<Item>)
    requires M.Valid(j)
  {
    forall k {:trigger Before(batch, pos, k)} :: 0 <= k < |batch| ==> DeliversAt(j, Before(batch, pos, k), batch[k])
  }

  /** The next thing stored from pos on. */
  ghost predicate DeliversAt(j: M.Journal, pos: nat, item: Item)
    requires M.Valid(j)
  {
    pos <= item.0 < |j.log| && item.1 == j.log[item.0] && Gone(j, pos, item.0)
  }

  /** The first sequence after the items before k. */
  function Before(batch: seq<Item>, pos: nat, k: nat): nat
    requires k <= |batch|
  {
    if k == 0 then pos else batch[k - 1].0 + 1
  }

  /** The state between two calls of Next. */
  ghost predicate Reading(r: JR.Reader, pos: nat)
    reads r, r.j, r.j.disk
  {
    r.Valid() && M.Valid(r.j.Abs()) && R.ReaderOk(r.j.Abs(), r.Abs(), pos) && r.pc.AtRead?
  }

  /** Next, until it delivers, or has nothing left to deliver: closed and drained, or waiting. */
  method Next(r: JR.Reader, ghost pos: nat) returns (o: R.Outcome)
    requires Reading(r, pos)
    modifies r
    ensures o.Delivered? ==>
              && pos <= o.seqNo < |r.j.Abs().log| && o.rec == r.j.Abs().log[o.seqNo]
              && Reading(r, o.seqNo + 1) && Gone(r.j.Abs(), pos, o.seqNo)
    ensures !o.Delivered? ==>
              && Reading(r, pos) && Gone(r.j.Abs(), pos, |r.j.Abs().log|)
              && o == if r.j.Abs().closed then R.Drained else R.CaughtUp
  {
    hide M.Valid, R.Read, R.Snapshot, R.Open, R.ReaderOk, R.Evicted;
    ghost var j := r.j.Abs();
    while true
      invariant Reading(r, pos) && r.j.Abs() == j
      decreases if R.FrameReady(j, r.Abs()) || r.seqNo == |j.log| then 0 else 1
    {
      ghost var before := r.Abs();
      R.ReadDelivers(j, r.Abs(), pos);
      o := r.ReadStep();
      NotReady(j, before);
      if o.Delivered? {
        return;
      }
      ghost var a := r.Abs();
      R.SnapshotKeeps(j, a, pos);
      SnapshotEnds(j, a, pos);
      o := r.SnapshotStep();
      if o == R.Drained || o == R.CaughtUp {
        return;
      }
      ghost var b := r.Abs();
      R.OpenLands(j, b, pos);
      OpenEnds(j, b, pos);
      r.OpenStep();
    }
  }

  lemma NotReady(j: M.Journal, r: R.Reader)
    requires M.Valid(j)
    ensures R.Read(j, r).1.Delivered? <==> R.FrameReady(j, r)
    ensures R.Read(j, r).0.seqNo == r.seqNo || R.Read(j, r).1.Delivered?
  {
  }

  /** When a snapshot ends the call, everything left has been evicted; otherwise it goes on to an open. */
  lemma SnapshotEnds(j: M.Journal, r: R.Reader, pos: nat)
    requires M.Valid(j) && R.ReaderOk(j, r, pos) && r.pc.AtSnapshot?
    ensures var (t, o) := R.Snapshot(j, r);
            && (o == R.Drained || o == R.CaughtUp ==>
                  Gone(j, pos, |j.log|) && t.pc.AtRead? && (o == R.Drained <==> j.closed))
            && (o != R.Drained && o != R.CaughtUp ==>
                  t.pc == R.AtOpen(j.live, |j.bases|, |j.log|) && r.seqNo < |j.log|)
  {
  }

  lemma OpenEnds(j: M.Journal, r: R.Reader, pos: nat)
    requires M.Valid(j) && R.ReaderOk(j, r, pos) && r.pc == R.AtOpen(j.live, |j.bases|, |j.log|)
    ensures R.FrameReady(j, R.Open(j, r)) || R.Open(j, r).seqNo == |j.log|
  {
    hide M.Valid, R.FrameReady, R.Open;
    R.OpenLands(j, r, pos);
    if r.seqNo < |j.log| {
      R.NotEvictedYet(j, r, pos);
    } else {
      AtEnd(j, r, pos);
    }
  }

  lemma AtEnd(j: M.Journal, r: R.Reader, pos: nat)
    requires M.Valid(j) && R.ReaderOk(j, r, pos) && r.seqNo >= |j.log|
    ensures r.seqNo == |j.log|
  {
  }

  lemma DeliversNothing(j: M.Journal, pos: nat)
    requires M.Valid(j)
    ensures Delivers(j, pos, [])
  {
  }

  lemma DeliversMore(j: M.Journal, pos: nat, batch: seq<Item>, q: nat)
    requires M.Valid(j) && Delivers(j, pos, batch)
    requires Before(batch, pos, |batch|) <= q < |j.log| && Gone(j, Before(batch, pos, |batch|), q)
    ensures Delivers(j, pos, batch + [(q, j.log[q])])
  {
    OneMore(j, pos, batch, (q, j.log[q]));
  }

  lemma OneMore(j: M.Journal, pos: nat, batch: seq<Item>, item: Item)
    requires M.Valid(j) && Delivers(j, pos, batch) && DeliversAt(j, Before(batch, pos, |batch|), item)
    ensures Delivers(j, pos, batch + [item])
  {
    hide M.Valid, DeliversAt;
    var b := batch + [item];
    forall k | 0 <= k < |b| ensures DeliversAt(j, Before(b, pos, k), b[k]) {
      BeforePrefix(batch, item, pos, k);
      assert b[k] == if k < |batch| then batch[k] else item;
    }
  }

  lemma BeforePrefix(batch: seq<Item>, item: Item, pos: nat, k: nat)
    requires k <= |batch|
    ensures Before(batch + [item], pos, k) == Before(batch, pos, k)
  {
  }

  /** Collects up to batchSize records that are there; a smaller batch means that none is left. */
  method Gather(r: JR.Reader, first: Item, batchSize: nat, ghost pos: nat) returns (batch: seq<Item>)
    requires Reading(r, first.0 + 1) && batchSize > 0
    requires Delivers(r.j.Abs(), pos, [first])
    modifies r
    ensures 0 < |batch| <= batchSize && batch[0] == first
    ensures Reading(r, Before(batch, pos, |batch|)) && Delivers(r.j.Abs(), pos, batch)
    ensures |batch| < batchSize ==> Gone(r.j.Abs(), Before(batch, pos, |batch|), |r.j.Abs().log|)
  {
    hide M.Valid, Delivers, Gone, R.ReaderOk;
    ghost var j := r.j.Abs();
    batch := [first];
    while |batch| < batchSize
      invariant 0 < |batch| <= batchSize && batch[0] == first && r.j.Abs() == j
      invariant Reading(r, Before(batch, pos, |batch|)) && Delivers(j, pos, batch)
      decreases batchSize - |batch|
    {
      var o := Next(r, Before(batch, pos, |batch|));
      if !o.Delivered? {
        break;
      }
      DeliversMore(j, pos, batch, o.seqNo);
      batch := batch + [(o.seqNo, o.rec)];
    }
  }

  // ---- a batch ----

  /** What is left when a batch has been processed and committed: everything but the cursor as it was. */
  lemma CommitKeepsReading(j: M.Journal, k: M.Journal, r: R.Reader, pos: nat)
    requires M.Valid(j) && M.Valid(k) && R.ReaderOk(j, r, pos)
    requires k == j.(readNext := k.readNext, saved := k.saved)
    ensures R.ReaderOk(k, r, pos)
  {
  }

  /** A journal but for its cursors. */
  ghost predicate SameRecords(j: M.Journal, k: M.Journal) { k == j.(readNext := k.readNext, saved := k.saved) }

  lemma SameGone(j: M.Journal, k: M.Journal, a: nat, b: nat)
    requires M.Valid(j) && M.Valid(k) && SameRecords(j, k)
    ensures Gone(j, a, b) <==> Gone(k, a, b)
  {
    assert forall q :: R.Evicted(j, q) <==> R.Evicted(k, q);
  }

  lemma SameDelivers(j: M.Journal, k: M.Journal, pos: nat, batch: seq<Item>)
    requires M.Valid(j) && M.Valid(k) && SameRecords(j, k)
    ensures Delivers(j, pos, batch) <==> Delivers(k, pos, batch)
  {
    hide M.Valid, Gone;
    forall i | 0 <= i < |batch|
      ensures DeliversAt(j, Before(batch, pos, i), batch[i]) <==> DeliversAt(k, Before(batch, pos, i), batch[i])
    {
      SameGone(j, k, Before(batch, pos, i), batch[i].0);
    }
  }

  lemma DeliversOn(j: M.Journal, pos: nat, a: seq<Item>, b: seq<Item>)
    requires M.Valid(j) && Delivers(j, pos, a) && Delivers(j, Before(a, pos, |a|), b)
    ensures Delivers(j, pos, a + b)
    ensures Before(a + b, pos, |a + b|) == Before(b, Before(a, pos, |a|), |b|)
  {
    hide M.Valid, DeliversAt;
    var c := a + b;
    forall k | 0 <= k < |c| ensures DeliversAt(j, Before(c, pos, k), c[k]) {
      BeforeOn(pos, a, b, k);
      assert c[k] == if k < |a| then a[k] else b[k - |a|];
    }
    BeforeOn(pos, a, b, |c|);
  }

  lemma BeforeOn(pos: nat, a: seq<Item>, b: seq<Item>, k: nat)
    requires k <= |a + b|
    ensures Before(a + b, pos, k) == if k <= |a| then Before(a, pos, k) else Before(b, Before(a, pos, |a|), k - |a|)
    ensures k == |a| ==> Before(a + b, pos, k) == Before(b, Before(a, pos, |a|), 0)
  {
  }

  /** Each item comes after the one before it. */
  predicate Ascends(pos: nat, batch: seq<Item>) {
    forall k {:trigger Before(batch, pos, k)} :: 0 <= k < |batch| ==> Before(batch, pos, k) <= batch[k].0
  }

  lemma {:induction false} Increases(pos: nat, batch: seq<Item>, k: nat, l: nat)
    requires Ascends(pos, batch) && k < l < |batch|
    ensures batch[k].0 < batch[l].0
    decreases l
  {
    assert Before(batch, pos, l) <= batch[l].0;
    if k < l - 1 {
      Increases(pos, batch, k, l - 1);
    }
  }

  lemma MaxIsLast(pos: nat, batch: seq<Item>)
    requires Ascends(pos, batch) && batch != []
    ensures Runs.MaxSeq(batch) == batch[|batch| - 1].0 >= pos
  {
    hide Runs.MaxSeq, Ascends;
    forall k, l | 0 <= k < l < |batch| ensures batch[k].0 < batch[l].0 {
      Increases(pos, batch, k, l);
    }
    Runs.MaxSeqIsLast(batch);
    FirstIsLater(pos, batch);
    if |batch| > 1 {
      Increases(pos, batch, 0, |batch| - 1);
    }
  }

  lemma FirstIsLater(pos: nat, batch: seq<Item>)
    requires Ascends(pos, batch) && batch != []
    ensures batch[0].0 >= pos
  {
    assert Before(batch, pos, 0) <= batch[0].0;
  }

  /** The processor's largest sequence is the last one it read. */
  lemma LargestIsLast(j: M.Journal, pos: nat, batch: seq<Item>)
    requires M.Valid(j) && Delivers(j, pos, batch) && batch != []
    ensures Runs.MaxSeq(batch) + 1 == Before(batch, pos, |batch|) <= |j.log|
    ensures pos < Before(batch, pos, |batch|)
  {
    hide M.Valid, Gone, Before;
    forall k | 0 <= k < |batch| ensures Before(batch, pos, k) <= batch[k].0 {
      assert DeliversAt(j, Before(batch, pos, k), batch[k]);
    }
    MaxIsLast(pos, batch);
    assert DeliversAt(j, Before(batch, pos, |batch| - 1), batch[|batch| - 1]);
    LastBefore(pos, batch);
  }

  lemma LastBefore(pos: nat, batch: seq<Item>)
    requires batch != []
    ensures Before(batch, pos, |batch|) == batch[|batch| - 1].0 + 1
  {
  }

  // ---- batch after batch ----

  /** Where each batch of a run meets its faults. */
  type Faults = nat -> seq<map<int, nat>>

  function Joined(batches: seq<seq<Item>>): seq<Item> {
    if batches == [] then [] else Joined(batches[..|batches| - 1]) + batches[|batches| - 1]
  }

  /** The messages of the batches that the store took. */
  ghost function Forwarded(decode: Decoder, faults: Faults, batches: seq<seq<Item>>): seq<D.Message> {
    if batches == [] then []
    else
      var n := |batches| - 1;
      var msgs := Decoded(decode, batches[n]);
      Forwarded(decode, faults, batches[..n]) + if Succeeds(faults(n), msgs) then msgs else []
  }

  ghost predicate StoredOf(parts: map<int, D.Partition>, decode: Decoder, faults: Faults, batches: seq<seq<Item>>) {
    forall i :: 0 <= i < |batches| && Succeeds(faults(i), Decoded(decode, batches[i])) ==>
      AllKept(parts, decode, batches[i])
  }

  lemma NothingForwarded(parts: map<int, D.Partition>, decode: Decoder, faults: Faults)
    ensures Joined([]) == [] && Forwarded(decode, faults, []) == [] && StoredOf(parts, decode, faults, [])
  {
  }

  lemma OneMoreBatch(before: map<int, D.Partition>, after: map<int, D.Partition>, done: set<int>, decode: Decoder,
                     faults: Faults, batches: seq<seq<Item>>, batch: seq<Item>)
    requires L.PartsOk(before) && DecodesFit(decode)
    requires StoredDays(before, after, done, Decoded(decode, batch)) && StoredOf(before, decode, faults, batches)
    requires Succeeds(faults(|batches|), Decoded(decode, batch)) ==> AllKept(after, decode, batch)
    ensures var msgs := Decoded(decode, batch);
            && Joined(batches + [batch]) == Joined(batches) + batch
            && Forwarded(decode, faults, batches + [batch]) ==
               Forwarded(decode, faults, batches) + (if Succeeds(faults(|batches|), msgs) then msgs else [])
            && StoredOf(after, decode, faults, batches + [batch])
  {
    hide L.PartsOk, StoredDays, DecodesFit, Decoded, Succeeds, AllKept, L.AllFit;
    var all := batches + [batch];
    assert all[..|batches|] == batches;
    DecodedFit(decode, batch);
    forall i | 0 <= i < |all| && Succeeds(faults(i), Decoded(decode, all[i])) ensures AllKept(after, decode, all[i]) {
      if i < |batches| {
        AllKeptStays(before, after, done, Decoded(decode, batch), decode, batches[i]);
      }
    }
  }

  /**
    * When the store takes every batch, the messages of all records delivered are stored, once each, and all of
    * them go on to the outputs, in order.
    */
  lemma {:induction false} AllForwarded(decode: Decoder, faults: Faults, batches: seq<seq<Item>>,
                                        parts: map<int, D.Partition>)
    requires forall i :: 0 <= i < |batches| ==> Succeeds(faults(i), Decoded(decode, batches[i]))
    requires StoredOf(parts, decode, faults, batches)
    ensures Forwarded(decode, faults, batches) == Decoded(decode, Joined(batches))
    ensures AllKept(parts, decode, Joined(batches))
    decreases |batches|
  {
    hide Decoded, Succeeds, Kept;
    if batches == [] {
      NothingDecoded(decode);
    } else {
      var n := |batches| - 1;
      AllForwarded(decode, faults, batches[..n], parts);
      DecodedConcat(decode, Joined(batches[..n]), batches[n]);
    }
  }

  lemma NothingDecoded(decode: Decoder)
    ensures Decoded(decode, []) == []
  {
  }

  /** The processor: the journal it consumes, the store it fills. */
  class Processor {
    const journal: Journal
    const store: L.Store
    const decode: Decoder
    const batchSize: nat

    constructor (journal: Journal, store: L.Store, decode: Decoder, batchSize: nat)
      ensures this.journal == journal && this.store == store && this.decode == decode
      ensures this.batchSize == if batchSize == 0 then DEFAULT_BATCH_SIZE else batchSize
    {
      this.journal, this.store, this.decode := journal, store, decode;
      this.batchSize := if batchSize == 0 then DEFAULT_BATCH_SIZE else batchSize;
    }

    ghost predicate Ready()
      reads this, journal, journal.disk, store
    {
      journal.Valid() && store.Valid() && DecodesFit(decode) && batchSize > 0
    }

    /**
      * Decodes and stores a batch and moves the cursor behind its largest sequence, whether or not the store
      * took it: stored is the days that it took. When an attempt meets no fault, the message of every record
      * that decodes is stored once and goes on to the outputs; otherwise none goes on.
      */
    method ProcessBatch(batch: seq<Item>, faults: seq<map<int, nat>>, writable: bool)
      returns (sent: seq<D.Message>, ghost stored: set<int>)
      requires Ready() && 0 < |faults| <= STORE_RETRIES
      requires Runs.MaxSeq(batch) < |journal.Abs().log|
      modifies journal`readNext, journal.disk`offset, store
      ensures Ready()
      ensures StoredDays(old(store.parts), store.parts, stored, Decoded(decode, batch))
      ensures if Succeeds(faults, Decoded(decode, batch)) then sent == Decoded(decode, batch) else sent == []
      ensures Succeeds(faults, Decoded(decode, batch)) ==> AllKept(store.parts, decode, batch)
      ensures var moved := M.Advance(old(journal.Abs()), Runs.MaxSeq(batch));
              journal.Abs() == if writable then M.Persist(moved, moved.readNext) else moved
    {
      hide StoredDays, D.Days, D.TimeFits, L.PartsOk, FilesHold, Names, Listing, L.AllFit, AllKept, Succeeds;
      var msgs: seq<D.Message> := [];
      var maxSeq := 0;
      for i := 0 to |batch|
        invariant msgs == Decoded(decode, batch[..i]) && maxSeq == Runs.MaxSeq(batch[..i])
      {
        assert batch[..i + 1][..i] == batch[..i];
        if batch[i].0 > maxSeq {
          maxSeq := batch[i].0;
        }
        var m := decode(batch[i].0, batch[i].1);
        if m.Some? {
          msgs := msgs + [m.value];
        }
      }
      assert batch[..|batch|] == batch;
      DecodedFit(decode, batch);
      var ok;
      ok, stored := StoreWithRetry(store, msgs, faults);
      if ok {
        BatchIsKept(old(store.parts), store.parts, decode, batch);
      }
      sent := if ok then msgs else [];
      var cursor := journal.Advance(maxSeq);
      var _ := journal.Persist(cursor, writable);
    }

    /** One turn of Run: gathers a batch behind its first item, processes and commits it. */
    method Round(r: JR.Reader, first: Item, faults: seq<map<int, nat>>, writable: bool, ghost pos: nat)
      returns (batch: seq<Item>, sent: seq<D.Message>, ghost stored: set<int>)
      requires Ready() && r.j == journal && Reading(r, first.0 + 1) && Delivers(journal.Abs(), pos, [first])
      requires 0 < |faults| <= STORE_RETRIES
      modifies r, journal`readNext, journal.disk`offset, store
      ensures Ready() && batch != []
      ensures M.Valid(old(journal.Abs())) && M.Valid(journal.Abs()) && SameRecords(old(journal.Abs()), journal.Abs())
      ensures Delivers(old(journal.Abs()), pos, batch) && Reading(r, Before(batch, pos, |batch|))
      ensures pos < Before(batch, pos, |batch|) <= |journal.Abs().log|
      ensures journal.Abs().readNext == Max(old(journal.Abs().readNext), Before(batch, pos, |batch|))
      ensures writable ==> journal.Abs().saved == journal.Abs().readNext
      ensures StoredDays(old(store.parts), store.parts, stored, Decoded(decode, batch))
      ensures if Succeeds(faults, Decoded(decode, batch)) then sent == Decoded(decode, batch) else sent == []
      ensures Succeeds(faults, Decoded(decode, batch)) ==> AllKept(store.parts, decode, batch)
    {
      hide M.Valid, M.Layout, R.ReaderOk, FilesHold, Names, Listing, L.PartsOk, JR.Placed;
      hide Gone, Delivers, StoredDays, Runs.MaxSeq, DecodesFit, Before, Succeeds, AllKept, Decoded;
      ghost var j1 := journal.Abs();
      batch := Gather(r, first, batchSize, pos);
      LargestIsLast(j1, pos, batch);
      ghost var reader := r.Abs();
      sent, stored := ProcessBatch(batch, faults, writable);
      CommitKeepsReading(j1, journal.Abs(), reader, Before(batch, pos, |batch|));
    }

    /**
      * Reads batch after batch until there is nothing to deliver. Everything stored from pos on is
      * delivered, in order and once, and the cursor follows to the end whatever the store did. Of every batch
      * that the store took, the message of each record that decodes is stored once when the run ends, and the
      * messages of these batches are what went on to the outputs.
      */
    method Run(r: JR.Reader, faults: nat -> seq<map<int, nat>>, writable: nat -> bool, ghost pos: nat)
      returns (finished: bool, sent: seq<D.Message>, ghost delivered: seq<Item>, ghost batches: seq<seq<Item>>)
      requires Ready() && r.j == journal && Reading(r, pos)
      requires forall i :: 0 < |faults(i)| <= STORE_RETRIES
      modifies r, journal`readNext, journal.disk`offset, store
      ensures Ready() && SameRecords(old(journal.Abs()), journal.Abs())
      ensures M.Valid(old(journal.Abs())) && Delivers(old(journal.Abs()), pos, delivered)
      ensures Gone(old(journal.Abs()), Before(delivered, pos, |delivered|), |journal.Abs().log|)
      ensures finished == journal.Abs().closed
      ensures journal.Abs().readNext == if delivered == [] then old(journal.Abs().readNext) else
                                        Max(old(journal.Abs().readNext), Before(delivered, pos, |delivered|))
      ensures (forall i :: writable(i)) && delivered != [] ==> journal.Abs().saved == journal.Abs().readNext
      ensures delivered == Joined(batches) && sent == Forwarded(decode, faults, batches)
      ensures StoredOf(store.parts, decode, faults, batches)
    {
      hide M.Valid, M.Layout, R.ReaderOk, FilesHold, Names, Listing, L.PartsOk, JR.Placed;
      hide Gone, Delivers, StoredDays, Runs.MaxSeq, DecodesFit, SameRecords;
      hide Joined, Forwarded, StoredOf, Succeeds, AllKept, Decoded, L.AllFit;
      ghost var j0 := journal.Abs();
      assert SameRecords(j0, j0) by { Same(j0); }
      delivered, sent, batches := [], [], [];
      var n := 0;
      NothingForwarded(store.parts, decode, faults);
      DeliversNothing(j0, pos);
      while true
        invariant Ready() && SameRecords(j0, journal.Abs()) && M.Valid(journal.Abs())
        invariant Delivers(j0, pos, delivered) && Reading(r, Before(delivered, pos, |delivered|))
        invariant journal.Abs().readNext == if delivered == [] then j0.readNext else
                                            Max(j0.readNext, Before(delivered, pos, |delivered|))
        invariant (forall i :: writable(i)) && delivered != [] ==> journal.Abs().saved == journal.Abs().readNext
        invariant Before(delivered, pos, |delivered|) <= |j0.log| || delivered == []
        invariant n == |batches| && delivered == Joined(batches) && sent == Forwarded(decode, faults, batches)
        invariant StoredOf(store.parts, decode, faults, batches)
        decreases |j0.log| - Before(delivered, pos, |delivered|)
      {
        ghost var at := Before(delivered, pos, |delivered|);
        var o := Next(r, at);
        if !o.Delivered? {
          SameGone(j0, journal.Abs(), at, |j0.log|);
          finished := o == R.Drained;
          return;
        }
        ghost var j1 := journal.Abs();
        DeliversNothing(j1, at);
        DeliversMore(j1, at, [], o.seqNo);
        assert [] + [(o.seqNo, o.rec)] == [(o.seqNo, o.rec)];
        ghost var parts := store.parts;
        var batch, more, stored := Round(r, (o.seqNo, o.rec), faults(n), writable(n), at);
        SameDelivers(j0, j1, at, batch);
        DeliversOn(j0, pos, delivered, batch);
        SameTwice(j0, j1, journal.Abs());
        OneMoreBatch(parts, store.parts, stored, decode, faults, batches, batch);
        delivered, sent, batches, n := delivered + batch, sent + more, batches + [batch], n + 1;
      }
    }
  }

  lemma Same(j: M.Journal)
    ensures SameRecords(j, j)
  {
  }

  lemma SameTwice(j: M.Journal, k: M.Journal, l: M.Journal)
    requires SameRecords(j, k) && l == k.(readNext := l.readNext, saved := l.saved)
    ensures SameRecords(j, l)
  {
  }
}
