/**
  * Whole runs of the ingest path: any number of appends, a single consumer that reads, batches, processes
  * and commits, closes, crashes and restarts, in every order.
  */
module JournalRuns {
  import opened Wrappers
  import opened Frames
  import opened JournalModel
  import opened ReaderModel

  /** The processor's place: calling Next, or between moving the cursor and writing it to disk. */
  datatype Phase = Collecting | Persisting(cursor: nat)

  /**
    * delivered is what Next has returned since the last start; delivered[done..] is the batch being
    * gathered. processed holds the sequences of every batch that was processed, over all starts.
    */
  datatype System = System(
    cfg: Config,
    batchSize: nat,
    j: Journal,
    r: Reader,
    start: nat,
    delivered: seq<(nat, Record)>,
    done: nat,
    phase: Phase,
    finished: bool,
    lastCommitFailed: bool,
    processed: set<nat>)

  datatype Step =
    | AppendStep(rec: Record)
    | CloseStep
    | ReadStep
    | SnapshotStep
    | OpenStep
    | ProcessStep
    | PersistStep(ok: bool)
    | RestartStep
    | CrashInRotation(rec: Record)
    | CrashInEviction(rec: Record, live: nat)

  function Fresh(cfg: Config, batchSize: nat, j: Journal, processed: set<nat>): System
    requires Valid(j)
  {
    System(cfg, batchSize, j, NewReader(j), NewReader(j).seqNo, [], 0, Collecting, false, false, processed)
  }

  /** The first start, on an empty directory. */
  function Init(cfg: Config, batchSize: nat): System {
    Fresh(cfg, batchSize, EMPTY, {})
  }

  /** The sequence after the last delivered one. */
  function Pos(s: System): nat {
    if s.delivered == [] then s.start else s.delivered[|s.delivered| - 1].0 + 1
  }

  /** The largest sequence of a batch, as the processor's loop finds it. */
  function MaxSeq(batch: seq<(nat, Record)>): nat {
    if batch == [] then 0 else Max(MaxSeq(batch[..|batch| - 1]), batch[|batch| - 1].0)
  }

  function Batch(s: System): seq<(nat, Record)>
    requires s.done <= |s.delivered|
  {
    s.delivered[s.done..]
  }

  function Seqs(batch: seq<(nat, Record)>): set<nat> {
    set i | 0 <= i < |batch| :: batch[i].0
  }

  // ---- steps ----

  predicate InNext(s: System) {
    s.phase == Collecting && !s.finished && s.done <= |s.delivered| && |s.delivered| - s.done < s.batchSize
  }

  predicate Enabled(s: System, step: Step)
    requires Valid(s.j)
  {
    match step
    case AppendStep(_) => true
    case CloseStep => true
    case ReadStep => InNext(s) && s.r.pc.AtRead?
    case SnapshotStep => InNext(s) && s.r.pc.AtSnapshot?
    case OpenStep => InNext(s) && s.r.pc.AtOpen? && s.r.pc.lo <= s.r.pc.hi <= |s.j.bases|
    case ProcessStep => s.phase == Collecting && s.r.pc.AtRead? && s.done < |s.delivered|
    case PersistStep(_) => s.phase.Persisting?
    case RestartStep => true
    case CrashInRotation(rec) => !s.j.closed && s.j.bases != [] && MakeRoom(s.cfg, s.j, rec) != s.j
    case CrashInEviction(rec, live) => !s.j.closed && s.j.live <= live <= Append(s.cfg, s.j, rec).live
  }

  /** The batch is processed (stored, or given up on after the retries) and the cursor in memory moves on. */
  function Process(s: System): System
    requires s.done <= |s.delivered|
  {
    var j := Advance(s.j, MaxSeq(Batch(s)));
    s.(j := j, processed := s.processed + Seqs(Batch(s)), done := |s.delivered|, phase := Persisting(j.readNext))
  }

  function Deliver(s: System, r: Reader, o: Outcome): System {
    match o
    case Delivered(q, rec) => s.(r := r, delivered := s.delivered + [(q, rec)])
    case Drained => s.(r := r, finished := s.done == |s.delivered|)
    case _ => s.(r := r)
  }

  function Restart(s: System, j: Journal): System
    requires Valid(j)
  {
    Fresh(s.cfg, s.batchSize, Reopen(j), s.processed)
  }

  function Do(s: System, step: Step): System
    requires Valid(s.j) && Enabled(s, step)
  {
    match step
    case AppendStep(rec) => s.(j := Append(s.cfg, s.j, rec))
    case CloseStep => s.(j := Close(s.j))
    case ReadStep => var (r, o) := Read(s.j, s.r); Deliver(s, r, o)
    case SnapshotStep => var (r, o) := Snapshot(s.j, s.r); Deliver(s, r, o)
    case OpenStep => s.(r := Open(s.j, s.r))
    case ProcessStep => Process(s)
    case PersistStep(ok) =>
      if ok then s.(j := Persist(s.j, s.phase.cursor), phase := Collecting, lastCommitFailed := false)
      else s.(phase := Collecting, lastCommitFailed := true)
    case RestartStep => Restart(s, s.j)
    case CrashInRotation(rec) =>
      MakeRoomKeeps(s.cfg, s.j, rec);
      Restart(s, MakeRoom(s.cfg, s.j, rec))
    case CrashInEviction(rec, live) =>
      CrashKeepsValid(s.cfg, s.j, rec, live);
      Restart(s, Write(MakeRoom(s.cfg, s.j, rec), rec).(live := live))
  }

  lemma CrashKeepsValid(cfg: Config, j: Journal, rec: Record, live: nat)
    requires Valid(j) && !j.closed && j.live <= live <= Append(cfg, j, rec).live
    ensures Valid(Write(MakeRoom(cfg, j, rec), rec).(live := live))
    ensures MakeRoom(cfg, j, rec).bases != [] && live < |MakeRoom(cfg, j, rec).bases|
  {
    hide Evict;
    MakeRoomKeeps(cfg, j, rec);
    var w := Write(MakeRoom(cfg, j, rec), rec);
    EvictStops(cfg, w, Evict(cfg, w));
  }

  /** t is reached from s by the given steps. */
  ghost predicate Runs(s: System, steps: seq<Step>, t: System)
    decreases |steps|
  {
    if steps == [] then s == t
    else Valid(s.j) && Enabled(s, steps[0]) && Runs(Do(s, steps[0]), steps[1..], t)
  }

  // ---- the invariant ----

  /** Sequence q may be forgotten: a batch holding it was processed, or its segment was evicted. */
  ghost predicate Settled(s: System, q: nat)
    requires Valid(s.j)
  {
    q in s.processed || Evicted(s.j, q)
  }

  ghost predicate SettledBelow(s: System, c: nat)
    requires Valid(s.j)
  {
    forall q :: 0 <= q < c ==> Settled(s, q)
  }

  ghost predicate IsDelivered(s: System, q: nat) {
    exists k :: 0 <= k < |s.delivered| && s.delivered[k].0 == q
  }

  /** Everything delivered since the start is what was appended, in order, and gaps are evictions. */
  ghost predicate DeliveredOk(s: System)
    requires Valid(s.j)
  {
    && (forall k :: 0 <= k < |s.delivered| ==>
          s.start <= s.delivered[k].0 < |s.j.log| && s.delivered[k].1 == s.j.log[s.delivered[k].0])
    && (forall k, l :: 0 <= k < l < |s.delivered| ==> s.delivered[k].0 < s.delivered[l].0)
    && (forall q :: s.start <= q < Pos(s) ==> IsDelivered(s, q) || Evicted(s.j, q))
  }

  ghost predicate CursorOk(s: System)
    requires Valid(s.j)
  {
    && SettledBelow(s, s.j.saved)
    && SettledBelow(s, s.j.readNext)
    && SettledBelow(s, s.start)
    && s.done <= |s.delivered|
    && (forall k :: 0 <= k < s.done ==> s.delivered[k].0 in s.processed)
    && (s.phase.Persisting? ==>
          && s.done == |s.delivered| && Pos(s) <= s.phase.cursor <= |s.j.log|
          && s.j.readNext >= s.phase.cursor && SettledBelow(s, s.phase.cursor) && !s.finished)
  }

  /** With nothing left in the batch, the cursors have caught up with the reader. */
  ghost predicate CaughtUpOk(s: System)
    requires Valid(s.j)
  {
    && (s.phase == Collecting && s.done == |s.delivered| ==>
          && (Pos(s) <= s.j.readNext || Pos(s) <= FirstLive(s.j))
          && (s.lastCommitFailed || Pos(s) <= s.j.saved || Pos(s) <= FirstLive(s.j)))
    && (s.finished ==>
          s.phase == Collecting && s.done == |s.delivered| && s.j.closed &&
          forall q :: Pos(s) <= q < |s.j.log| ==> Evicted(s.j, q))
  }

  /** The newest segment holds a record unless an older one is still linked. */
  ghost predicate NewestHolds(j: Journal)
    requires Valid(j)
  {
    j.bases != [] && j.live == |j.bases| - 1 ==> j.bases[j.live] < |j.log|
  }

  ghost predicate Inv(s: System) {
    && Valid(s.j) && NewestHolds(s.j)
    && ReaderOk(s.j, s.r, Pos(s))
    && DeliveredOk(s) && CursorOk(s) && CaughtUpOk(s)
  }

  // ---- every step keeps it ----

  lemma RestartKeeps(s: System, j: Journal)
    requires Valid(s.j) && CursorOk(s)
    requires Valid(j) && NewestHolds(j) && j.saved == s.j.saved && FirstLive(s.j) <= FirstLive(j)
    ensures Inv(Restart(s, j))
  {
    var t := Restart(s, j);
    NewReaderOk(t.j);
    assert t.j.readNext == j.saved;
    forall q | 0 <= q < t.start ensures Settled(t, q) {
      if q < s.j.saved {
        assert Settled(s, q);
      }
    }
  }

  lemma EmptyKeeps(cfg: Config, batchSize: nat)
    ensures Inv(Init(cfg, batchSize))
  {
  }

  /** The journal may grow, evict, and raise its cursor to the first stored sequence at any moment. */
  lemma JournalStepKeeps(s: System, k: Journal)
    requires Inv(s)
    requires Valid(k) && NewestHolds(k)
    requires s.j.log <= k.log && s.j.bases <= k.bases && s.j.live <= k.live
    requires FirstLive(s.j) <= FirstLive(k)
    requires forall i :: 0 <= i < |s.j.bases| ==> End(s.j.log, s.j.bases, i) <= End(k.log, k.bases, i)
    requires k.saved == s.j.saved
    requires k.readNext == s.j.readNext || s.j.readNext < k.readNext == FirstLive(k)
    requires s.finished ==> k == s.j
    ensures Inv(s.(j := k))
  {
    hide End, ReaderOk;
    var t := s.(j := k);
    JournalMoves(s.j, k, s.r, Pos(s));
    assert forall q :: Evicted(s.j, q) ==> Evicted(k, q);
    assert forall q :: Settled(s, q) ==> Settled(t, q);
    assert forall q :: IsDelivered(t, q) == IsDelivered(s, q);
    forall q | 0 <= q < k.readNext ensures Settled(t, q) {
      if q < s.j.readNext {
        assert Settled(s, q);
      }
    }
  }

  lemma AppendKeeps(s: System, rec: Record)
    requires Inv(s)
    ensures Inv(Do(s, AppendStep(rec)))
  {
    hide Append, Inv, JournalModel.Valid;
    ValidOf(s);
    var k := Append(s.cfg, s.j, rec);
    if s.j.closed {
      assert k == s.j by { ClosedAppend(s.cfg, s.j, rec); }
      assert Do(s, AppendStep(rec)) == s;
    } else {
      AppendExtends(s.cfg, s.j, rec);
      AppendHolds(s.cfg, s.j, rec);
      NotFinished(s);
      JournalStepKeeps(s, k);
    }
  }

  lemma ValidOf(s: System)
    requires Inv(s)
    ensures Valid(s.j)
  {
  }

  lemma NotFinished(s: System)
    requires Inv(s) && !s.j.closed
    ensures !s.finished
  {
  }

  lemma AppendHolds(cfg: Config, j: Journal, rec: Record)
    requires Valid(j) && !j.closed
    ensures NewestHolds(Append(cfg, j, rec))
  {
    hide MakeRoom;
    AppendExtends(cfg, j, rec);
  }

  /** Delivering a record extends the history by the right record and nothing else. */
  lemma DeliverKeeps(s: System, r: Reader, q: nat, rec: Record)
    requires Inv(s) && InNext(s)
    requires Pos(s) <= q < |s.j.log| && rec == s.j.log[q]
    requires forall x :: Pos(s) <= x < q ==> Evicted(s.j, x)
    requires ReaderOk(s.j, r, q + 1)
    ensures Inv(s.(r := r, delivered := s.delivered + [(q, rec)]))
  {
    var t := s.(r := r, delivered := s.delivered + [(q, rec)]);
    forall x | s.start <= x < Pos(t) ensures IsDelivered(t, x) || Evicted(t.j, x) {
      if x < Pos(s) && IsDelivered(s, x) {
        var k :| 0 <= k < |s.delivered| && s.delivered[k].0 == x;
        assert t.delivered[k].0 == x;
      } else if x == q {
        assert t.delivered[|s.delivered|].0 == q;
      }
    }
    assert forall x :: Settled(s, x) ==> Settled(t, x);
  }

  lemma ReadKeeps(s: System)
    requires Inv(s) && Enabled(s, ReadStep)
    ensures Inv(Do(s, ReadStep))
  {
    hide Read, DeliveredOk, CaughtUpOk, CursorOk, ReaderOk;
    ReadDelivers(s.j, s.r, Pos(s));
    var (r, o) := Read(s.j, s.r);
    if o.Delivered? {
      DeliverKeeps(s, r, o.seqNo, o.rec);
    } else {
      ReaderMoves(s, r);
    }
  }

  lemma ReaderMoves(s: System, r: Reader)
    requires Inv(s) && ReaderOk(s.j, r, Pos(s))
    ensures Inv(s.(r := r))
  {
    var t := s.(r := r);
    assert forall x :: IsDelivered(t, x) == IsDelivered(s, x);
    assert forall x :: Settled(t, x) == Settled(s, x);
  }

  lemma SnapshotStepKeeps(s: System)
    requires Inv(s) && Enabled(s, SnapshotStep)
    ensures Inv(Do(s, SnapshotStep))
  {
    hide Snapshot, ReaderOk, DeliveredOk;
    SnapshotKeeps(s.j, s.r, Pos(s));
    var (r, o) := Snapshot(s.j, s.r);
    ReaderMoves(s, r);
    var t := Do(s, SnapshotStep);
    if o == Drained {
      var u := s.(r := r);
      assert t == u.(finished := s.done == |s.delivered|);
      assert DeliveredOk(t) by { FinishKeepsDelivered(u, t.finished); }
      assert forall x :: Settled(t, x) == Settled(u, x);
    }
  }

  lemma FinishKeepsDelivered(s: System, finished: bool)
    requires Valid(s.j) && DeliveredOk(s)
    ensures DeliveredOk(s.(finished := finished))
  {
    assert forall x :: IsDelivered(s.(finished := finished), x) == IsDelivered(s, x);
  }

  lemma OpenKeeps(s: System)
    requires Inv(s) && Enabled(s, OpenStep)
    ensures Inv(Do(s, OpenStep))
  {
    hide Open, ReaderOk, DeliveredOk, CaughtUpOk, CursorOk;
    OpenLands(s.j, s.r, Pos(s));
    ReaderMoves(s, Open(s.j, s.r));
  }

  /** In an increasing batch the largest sequence is the last one. */
  lemma {:induction false} MaxSeqIsLast(batch: seq<(nat, Record)>)
    requires batch != []
    requires forall k, l :: 0 <= k < l < |batch| ==> batch[k].0 < batch[l].0
    ensures MaxSeq(batch) == batch[|batch| - 1].0
  {
    var rest := batch[..|batch| - 1];
    if rest != [] {
      assert rest[|rest| - 1] == batch[|batch| - 2];
      MaxSeqIsLast(rest);
    }
  }

  /** After a batch is processed, everything up to its last sequence is settled. */
  lemma ProcessSettles(s: System, t: System)
    requires Inv(s) && Enabled(s, ProcessStep) && t == Do(s, ProcessStep)
    ensures Valid(t.j) && SettledBelow(t, t.j.readNext)
    ensures forall x :: Settled(s, x) ==> Settled(t, x)
    ensures forall k :: 0 <= k < t.done ==> t.delivered[k].0 in t.processed
    ensures t.j.readNext == Max(s.j.readNext, Pos(s))
  {
    hide ReaderOk;
    var b := Batch(s);
    MaxSeqIsLast(b);
    forall k | 0 <= k < t.done ensures t.delivered[k].0 in t.processed {
      if s.done <= k {
        assert b[k - s.done].0 in Seqs(b);
      }
    }
    forall x | 0 <= x < Max(s.j.readNext, Pos(s)) ensures Settled(t, x) {
      if x < s.j.readNext || x < s.start {
        assert Settled(s, x);
      } else if IsDelivered(s, x) {
        var k :| 0 <= k < |s.delivered| && s.delivered[k].0 == x;
        assert t.delivered[k].0 in t.processed;
      }
    }
  }

  lemma ProcessKeeps(s: System)
    requires Inv(s) && Enabled(s, ProcessStep)
    ensures Inv(Do(s, ProcessStep))
  {
    hide MaxSeq, Seqs, Batch;
    var t := Do(s, ProcessStep);
    ProcessSettles(s, t);
    assert forall x :: IsDelivered(t, x) == IsDelivered(s, x);
    assert t.j == s.j.(readNext := t.j.readNext);
  }

  lemma PersistKeeps(s: System, ok: bool)
    requires Inv(s) && Enabled(s, PersistStep(ok))
    ensures Inv(Do(s, PersistStep(ok)))
  {
    var t := Do(s, PersistStep(ok));
    assert forall x :: IsDelivered(t, x) == IsDelivered(s, x);
    assert forall x :: Settled(t, x) == Settled(s, x);
  }

  lemma CloseKeeps(s: System)
    requires Inv(s)
    ensures Inv(Do(s, CloseStep))
  {
    var t := Do(s, CloseStep);
    assert forall x :: IsDelivered(t, x) == IsDelivered(s, x);
    assert forall x :: Settled(t, x) == Settled(s, x);
  }

  lemma CrashKeeps(s: System, step: Step)
    requires Inv(s) && Enabled(s, step)
    requires step.RestartStep? || step.CrashInRotation? || step.CrashInEviction?
    ensures Inv(Do(s, step))
  {
    hide MakeRoom, Evict, DeliveredOk, CaughtUpOk, ReaderOk, Settled, JournalModel.Append, Restart;
    match step
    case RestartStep => RestartKeeps(s, s.j);
    case CrashInRotation(rec) =>
      RoomAtCrash(s.cfg, s.j, rec);
      RestartKeeps(s, MakeRoom(s.cfg, s.j, rec));
    case CrashInEviction(rec, live) =>
      CrashKeepsValid(s.cfg, s.j, rec, live);
      var w := Write(MakeRoom(s.cfg, s.j, rec), rec).(live := live);
      RoomAtCrash(s.cfg, s.j, rec);
      assert NewestHolds(w);
      assert w.saved == s.j.saved;
      RestartKeeps(s, w);
  }

  lemma RoomAtCrash(cfg: Config, j: Journal, rec: Record)
    requires Valid(j)
    ensures var k := MakeRoom(cfg, j, rec);
            && Valid(k) && k.log == j.log && k.saved == j.saved && k.live == j.live && j.bases <= k.bases
            && FirstLive(k) == FirstLive(j) && |k.bases| > 0 && k.bases[|k.bases| - 1] <= |j.log|
            && (j.bases != [] && k != j ==> NewestHolds(k))
            && forall live :: j.live <= live < |k.bases| ==> FirstLive(j) <= k.bases[live]
  {
    MakeRoomKeeps(cfg, j, rec);
    if j.bases != [] {
      assert MakeRoom(cfg, j, rec).bases[j.live] == j.bases[j.live];
    }
  }

  lemma StepKeeps(s: System, step: Step)
    requires Inv(s) && Enabled(s, step)
    ensures Inv(Do(s, step))
  {
    hide Inv, Do;
    match step
    case AppendStep(rec) => AppendKeeps(s, rec);
    case CloseStep => CloseKeeps(s);
    case ReadStep => ReadKeeps(s);
    case SnapshotStep => SnapshotStepKeeps(s);
    case OpenStep => OpenKeeps(s);
    case ProcessStep => ProcessKeeps(s);
    case PersistStep(ok) => PersistKeeps(s, ok);
    case _ => CrashKeeps(s, step);
  }

  lemma {:induction false} RunKeeps(s: System, steps: seq<Step>, t: System)
    requires Inv(s) && Runs(s, steps, t)
    ensures Inv(t)
    decreases |steps|
  {
    hide Inv, Do;
    if steps != [] {
      StepKeeps(s, steps[0]);
      RunKeeps(Do(s, steps[0]), steps[1..], t);
    }
  }

  // ---- the main results, over every run from an empty directory ----

  ghost predicate Reachable(s: System) {
    exists cfg: Config, batchSize: nat, steps: seq<Step> :: Runs(Init(cfg, batchSize), steps, s)
  }

  lemma ReachableInv(s: System)
    requires Reachable(s)
    ensures Inv(s)
  {
    hide Inv;
    var cfg: Config, batchSize: nat, steps: seq<Step> :| Runs(Init(cfg, batchSize), steps, s);
    EmptyKeeps(cfg, batchSize);
    RunKeeps(Init(cfg, batchSize), steps, s);
  }

  /**
    * In every interleaving, what Next has returned since the start is strictly increasing, each sequence
    * with the record appended under it, and every sequence passed over has been evicted.
    */
  lemma DeliveryInOrder(s: System)
    requires Reachable(s)
    ensures Valid(s.j)
    ensures forall k :: 0 <= k < |s.delivered| ==>
              s.delivered[k].0 < |s.j.log| && s.delivered[k].1 == s.j.log[s.delivered[k].0]
    ensures forall k, l :: 0 <= k < l < |s.delivered| ==> s.delivered[k].0 < s.delivered[l].0
    ensures forall q :: s.start <= q < Pos(s) && !IsDelivered(s, q) ==> Evicted(s.j, q)
  {
    ReachableInv(s);
  }

  /**
    * At least once: the cursor on disk never passes a record that was neither in a processed batch nor
    * evicted. A record that is stored and unprocessed is in the batch being gathered or still ahead of the
    * reader, and a restart at this moment puts it ahead of the new reader.
    */
  lemma AtLeastOnce(s: System, q: nat)
    requires Reachable(s) && q < |s.j.log|
    ensures Valid(s.j)
    ensures q < s.j.saved ==> q in s.processed || Evicted(s.j, q)
    ensures q !in s.processed && !Evicted(s.j, q) ==>
              && s.j.saved <= q
              && s.start <= q
              && (Pos(s) <= q || exists k :: s.done <= k < |s.delivered| && s.delivered[k].0 == q)
              && Restart(s, s.j).start <= q < |Restart(s, s.j).j.log|
  {
    ReachableInv(s);
    if q < s.j.saved || q < s.start {
      assert Settled(s, q);
    }
    if q !in s.processed && !Evicted(s.j, q) && q < Pos(s) {
      assert IsDelivered(s, q);
    }
  }

  /** A sequence counts as processed only once the batch that holds it is, and then each of its sequences does. */
  lemma ProcessedWasGathered(s: System, step: Step, q: nat)
    requires Reachable(s) && Valid(s.j) && Enabled(s, step)
    ensures q in Do(s, step).processed <==>
            q in s.processed ||
            (step.ProcessStep? && exists k :: s.done <= k < |s.delivered| && s.delivered[k].0 == q)
  {
    hide MakeRoom, Evict, JournalModel.Append, Read, Snapshot, Open, NewReader, MaxSeq, Reachable;
    DoneInRange(s);
    if step.ProcessStep? {
      var b := Batch(s);
      forall k | s.done <= k < |s.delivered| ensures s.delivered[k].0 in Seqs(b) {
        assert b[k - s.done] == s.delivered[k];
      }
      if q in Seqs(b) {
        var i :| 0 <= i < |b| && b[i].0 == q;
        assert s.delivered[s.done + i].0 == q;
      }
    }
  }

  lemma DoneInRange(s: System)
    requires Reachable(s)
    ensures s.done <= |s.delivered|
  {
    ReachableInv(s);
  }

  /**
    * When Run ends because the journal was closed and drained, every record ever appended was processed or
    * evicted, the cursor equals nextSeq, and so does the cursor on disk unless the last commit failed.
    */
  lemma DrainedAtEnd(s: System)
    requires Reachable(s) && s.finished
    ensures Valid(s.j) && s.j.closed
    ensures forall q :: 0 <= q < |s.j.log| ==> Settled(s, q)
    ensures s.j.readNext == |s.j.log|
    ensures !s.lastCommitFailed ==> s.j.saved == |s.j.log|
  {
    ReachableInv(s);
    assert Pos(s) < |s.j.log| ==> Evicted(s.j, |s.j.log| - 1);
    NewestStays(s.j);
  }

  /** The newest record is never evicted. */
  lemma NewestStays(j: Journal)
    requires Valid(j) && NewestHolds(j)
    ensures j.log != [] ==> FirstLive(j) < |j.log|
  {
    if j.bases != [] && j.live + 1 < |j.bases| {
      assert j.bases[j.live] < j.bases[j.live + 1];
    }
  }

  // ---- the size bound over runs ----

  lemma BoundedAfterCrash(s: System, rec: Record, live: nat)
    requires Valid(s.j) && SegmentsBounded(s.cfg, s.j)
    ensures Valid(MakeRoom(s.cfg, s.j, rec))
    ensures SegmentsBounded(s.cfg, MakeRoom(s.cfg, s.j, rec))
    ensures !s.j.closed && s.j.live <= live <= Append(s.cfg, s.j, rec).live ==>
              var w := Write(MakeRoom(s.cfg, s.j, rec), rec).(live := live);
              Valid(w) && SegmentsBounded(s.cfg, w)
  {
    hide MakeRoom, Evict, Content, Size, SegmentBounded;
    MakeRoomKeeps(s.cfg, s.j, rec);
    RoomIsBounded(s.cfg, s.j, rec);
    RoomBounded(s.cfg, s.j, rec);
    if !s.j.closed && s.j.live <= live <= Append(s.cfg, s.j, rec).live {
      CrashKeepsValid(s.cfg, s.j, rec, live);
    }
  }

  lemma RoomBounded(cfg: Config, j: Journal, rec: Record)
    requires Valid(j) && SegmentsBounded(cfg, j) && Valid(MakeRoom(cfg, j, rec))
    ensures SegmentsBounded(cfg, MakeRoom(cfg, j, rec))
  {
    hide Content;
    var k := MakeRoom(cfg, j, rec);
    if k != j {
      forall i | 0 <= i < |k.bases| ensures SegmentBounded(cfg, Content(k.log, k.bases, i)) {
        AddSegmentContent(j, i);
        assert i < |j.bases| ==> SegmentBounded(cfg, Content(j.log, j.bases, i));
      }
    }
  }

  lemma StepBounded(s: System, step: Step)
    requires Inv(s) && Enabled(s, step) && SegmentsBounded(s.cfg, s.j)
    ensures Valid(Do(s, step).j)
    ensures SegmentsBounded(Do(s, step).cfg, Do(s, step).j)
  {
    hide Content, SegmentBounded, Evict, Read, Snapshot, Open, MakeRoom, ReaderOk, DeliveredOk, CursorOk, CaughtUpOk;
    assert Valid(Do(s, step).j) by { StepKeeps(s, step); }
    if !step.AppendStep? && !step.CrashInRotation? && !step.CrashInEviction? {
      SameSegments(s, step);
      return;
    }
    match step {
      case AppendStep(rec) =>
        if !s.j.closed {
          AppendWithinCap(s.cfg, s.j, rec, Append(s.cfg, s.j, rec));
        }
      case CrashInRotation(rec) => BoundedAfterCrash(s, rec, 0);
      case CrashInEviction(rec, live) => BoundedAfterCrash(s, rec, live);
    }
  }

  /** Only appends, whole or cut short, touch the records and the segments. */
  lemma SameSegments(s: System, step: Step)
    requires JournalModel.Valid(s.j) && Enabled(s, step)
    requires !step.AppendStep? && !step.CrashInRotation? && !step.CrashInEviction?
    ensures var t := Do(s, step); t.cfg == s.cfg && t.j.log == s.j.log && t.j.bases == s.j.bases
  {
    hide Read, Snapshot, Open, Evict, MakeRoom, Content, JournalModel.Valid, MaxSeq, Seqs, NewReader;
  }

  lemma {:induction false} RunBounded(s: System, steps: seq<Step>, t: System)
    requires Inv(s) && SegmentsBounded(s.cfg, s.j) && Runs(s, steps, t)
    ensures Inv(t) && SegmentsBounded(t.cfg, t.j)
    decreases |steps|
  {
    hide DeliveredOk, CursorOk, CaughtUpOk, Do, Content, SegmentBounded;
    if steps != [] {
      StepKeeps(s, steps[0]);
      StepBounded(s, steps[0]);
      RunBounded(Do(s, steps[0]), steps[1..], t);
    }
  }

  /**
    * After every append, in every run from an empty directory, the linked segments hold at most the total
    * cap, one segment, or one frame, whichever is largest.
    */
  lemma AppendStaysWithinCap(s: System, rec: Record)
    requires Reachable(s) && !s.j.closed
    ensures Valid(s.j) && Valid(Do(s, AppendStep(rec)).j)
    ensures Total(Do(s, AppendStep(rec)).j) <= Cap(s.cfg, s.j.log + [rec])
  {
    hide Append, DeliveredOk, CursorOk, CaughtUpOk, ReaderOk;
    var cfg: Config, batchSize: nat, steps: seq<Step> :| Runs(Init(cfg, batchSize), steps, s);
    EmptyKeeps(cfg, batchSize);
    RunBounded(Init(cfg, batchSize), steps, s);
    AppendWithinCap(s.cfg, s.j, rec, Append(s.cfg, s.j, rec));
    AppendExtends(s.cfg, s.j, rec);
  }
}
