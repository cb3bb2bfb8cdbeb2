/**
  * A run in which the reader's counter steps back: it jumps to a segment that is evicted before it is opened,
  * and the old file still holds unread frames.
  */
module StepBack {
  import opened Wrappers
  import opened Frames
  import opened JournalModel
  import opened ReaderModel
  import opened JournalRuns

  /** Three frames of empty records fill a segment, six fill the journal. */
  const CFG := Config(36, 72)

  function Empties(n: nat): seq<Record> { seq(n, _ => []) }

  /** The journal after n appends. */
  function After(n: nat): Journal
    requires n <= 10
  {
    var bases: seq<nat> :=
      if n == 0 then []
      else if n <= 3 then [0]
      else if n <= 6 then [0, 3]
      else if n <= 9 then [0, 3, 6]
      else [0, 3, 6, 9];
    var live: nat := if n < 7 then 0 else if n < 10 then 1 else 2;
    Journal(Empties(n), bases, live, 3 * live, 0, false)
  }

  lemma {:induction false} SizeOfEmpties(recs: seq<Record>)
    requires forall i :: 0 <= i < |recs| ==> recs[i] == []
    ensures Size(recs) == HEADER * |recs|
  {
    if recs != [] {
      SizeOfEmpties(recs[1..]);
    }
  }

  lemma BytesOfEmpties(log: seq<Record>, bases: seq<nat>, i: nat)
    requires Layout(log, bases) && i < |bases| && forall k :: 0 <= k < |log| ==> log[k] == []
    ensures JournalModel.Bytes(log, bases, i) == HEADER * (End(log, bases, i) - bases[i])
  {
    hide Size;
    SizeOfEmpties(Content(log, bases, i));
  }

  lemma {:induction false} TotalOfEmpties(log: seq<Record>, bases: seq<nat>, i: nat)
    requires Layout(log, bases) && i < |bases| && forall k :: 0 <= k < |log| ==> log[k] == []
    ensures BytesFrom(log, bases, i) == HEADER * (|log| - bases[i])
    decreases |bases| - i
  {
    hide JournalModel.Bytes;
    BytesOfEmpties(log, bases, i);
    if i + 1 < |bases| {
      TotalOfEmpties(log, bases, i + 1);
    } else {
      assert BytesFrom(log, bases, i + 1) == 0;
    }
  }

  lemma AfterIsValid(n: nat)
    requires n <= 10
    ensures JournalModel.Valid(After(n))
  {
  }

  /** The room made and the record written, before eviction. */
  lemma RoomAfter(n: nat)
    requires n < 10
    ensures JournalModel.Valid(After(n))
    ensures Write(MakeRoom(CFG, After(n), []), []) ==
            After(n + 1).(live := After(n).live, readNext := After(n).readNext)
  {
    hide JournalModel.Bytes;
    AfterIsValid(n);
    var j := After(n);
    assert j.log + [[]] == After(n + 1).log;
    if n > 0 {
      BytesOfEmpties(j.log, j.bases, |j.bases| - 1);
    }
  }

  lemma AppendAfter(n: nat)
    requires n < 10
    ensures JournalModel.Valid(After(n)) && Append(CFG, After(n), []) == After(n + 1)
  {
    hide JournalModel.Bytes, BytesFrom, MakeRoom;
    RoomAfter(n);
    MakeRoomKeeps(CFG, After(n), []);
    var w := Write(MakeRoom(CFG, After(n), []), []);
    TotalOfEmpties(w.log, w.bases, w.live);
    if n + 1 == 7 || n + 1 == 10 {
      TotalOfEmpties(w.log, w.bases, w.live + 1);
      var d := DropOldest(w);
      assert Evict(CFG, w) == Evict(CFG, d) == d;
    }
  }

  // ---- the run ----

  lemma {:induction false} RunsOn(s: System, steps: seq<Step>, t: System, step: Step)
    requires Runs(s, steps, t) && JournalModel.Valid(t.j) && Enabled(t, step)
    ensures Runs(s, steps + [step], Do(t, step))
    decreases |steps|
  {
    hide Do, Enabled;
    if steps == [] {
      assert [step][1..] == [] && steps + [step] == [step];
    } else {
      assert (steps + [step])[1..] == steps[1..] + [step];
      RunsOn(Do(s, steps[0]), steps[1..], t, step);
    }
  }

  lemma ReachOn(s: System, step: Step)
    requires Reachable(s) && JournalModel.Valid(s.j) && Enabled(s, step)
    ensures Reachable(Do(s, step))
  {
    hide Do, Enabled, Runs;
    var cfg: Config, batchSize: nat, steps: seq<Step> :| Runs(Init(cfg, batchSize), steps, s);
    RunsOn(Init(cfg, batchSize), steps, s, step);
  }

  /** A consumer that gathers its first batch. */
  function At(n: nat, r: Reader, delivered: seq<(nat, Record)>): System
    requires n <= 10
  {
    System(CFG, 10, After(n), r, 0, delivered, 0, Collecting, false, false, {})
  }

  lemma ReachStart()
    ensures Reachable(At(0, Reader(NoFile, 0, AtRead), []))
  {
    var s := At(0, Reader(NoFile, 0, AtRead), []);
    assert Init(CFG, 10) == s;
    assert Runs(Init(CFG, 10), [], s);
  }

  lemma {:induction false} ReachAppends(n: nat, k: nat, r: Reader, delivered: seq<(nat, Record)>)
    requires n <= k <= 10 && Reachable(At(n, r, delivered))
    ensures Reachable(At(k, r, delivered))
    decreases k
  {
    hide Reachable, After, Append;
    if n < k {
      ReachAppends(n, k - 1, r, delivered);
      AppendAfter(k - 1);
      ReachOn(At(k - 1, r, delivered), AppendStep([]));
    }
  }

  lemma ReachReader(n: nat, r: Reader, delivered: seq<(nat, Record)>, step: Step, r': Reader, more: seq<(nat, Record)>)
    requires n <= 10 && Reachable(At(n, r, delivered))
    requires JournalModel.Valid(After(n)) && Enabled(At(n, r, delivered), step)
    requires Do(At(n, r, delivered), step) == At(n, r', more)
    ensures Reachable(At(n, r', more))
  {
    hide Reachable, Do, Enabled;
    ReachOn(At(n, r, delivered), step);
  }

  /** The reader has read record 0 from the first file and found nothing more. */
  lemma FirstDelivered()
    ensures Reachable(At(1, Reader(File(0, 1), 1, AtSnapshot), [(0, [])]))
  {
    hide Reachable, Runs;
    ReachStart();
    ReachAppends(0, 1, Reader(NoFile, 0, AtRead), []);
    AfterIsValid(1);
    ReachReader(1, Reader(NoFile, 0, AtRead), [], ReadStep, Reader(NoFile, 0, AtSnapshot), []);
    ReachReader(1, Reader(NoFile, 0, AtSnapshot), [], SnapshotStep, Reader(NoFile, 0, AtOpen(0, 1, 1)), []);
    assert After(1).bases[0..1] == [0] && Leading([0], 0) == 1;
    ReachReader(1, Reader(NoFile, 0, AtOpen(0, 1, 1)), [], OpenStep, Reader(File(0, 0), 0, AtRead), []);
    ReachReader(1, Reader(File(0, 0), 0, AtRead), [], ReadStep, Reader(File(0, 1), 1, AtRead), [(0, [])]);
    ReachReader(1, Reader(File(0, 1), 1, AtRead), [(0, [])], ReadStep, Reader(File(0, 1), 1, AtSnapshot), [(0, [])]);
  }

  /**
    * Six appends evict the first segment and the counter jumps to the second; three more evict that one too
    * before it is opened.
    */
  lemma JumpedAhead()
    ensures Reachable(At(10, Reader(File(0, 1), 3, AtOpen(1, 3, 7)), [(0, [])]))
  {
    hide Reachable, Runs;
    var r := Reader(File(0, 1), 1, AtSnapshot);
    FirstDelivered();
    ReachAppends(1, 7, r, [(0, [])]);
    AfterIsValid(7);
    ReachReader(7, r, [(0, [])], SnapshotStep, Reader(File(0, 1), 3, AtOpen(1, 3, 7)), [(0, [])]);
    ReachAppends(7, 10, Reader(File(0, 1), 3, AtOpen(1, 3, 7)), [(0, [])]);
  }

  /** The counter steps back: the open finds the file gone, and the next read delivers record 1 from the old one. */
  lemma CounterStepsBack()
    ensures var s := At(10, Reader(File(0, 1), 3, AtOpen(1, 3, 7)), [(0, [])]);
            && Reachable(s) && JournalModel.Valid(s.j) && Enabled(s, OpenStep)
            && var t := Do(s, OpenStep);
            && t == s.(r := s.r.(pc := AtRead)) && Enabled(t, ReadStep)
            && Read(t.j, t.r).1 == Delivered(1, [])
            && Do(t, ReadStep).r.seqNo == 2 < s.r.seqNo == 3
  {
    hide Reachable;
    JumpedAhead();
    AfterIsValid(10);
    var j := After(10);
    assert j.bases[1..3] == [3, 6];
    assert [3, 6][1..] == [6] && Leading([6], 3) == 0 && Leading([3, 6], 3) == 1;
  }
}
