/**
  * What a restart delivers again, and what it does not: a reader resumes at the cursor on disk, and the cursor
  * never goes back, so a committed record is not delivered a second time.
  */
module Restarts {
  import opened Wrappers
  import opened Frames
  import opened JournalModel
  import opened ReaderModel
  import opened JournalRuns

  /** The program starts anew: after a stop, or after a crash inside an append. */
  predicate IsStart(step: Step) { step.RestartStep? || step.CrashInRotation? || step.CrashInEviction? }

  /** In every reachable state a restart resumes exactly at the cursor on disk, or behind what is evicted. */
  lemma RestartResumes(s: System)
    requires Reachable(s)
    ensures Valid(s.j) && Restart(s, s.j).start == Max(s.j.saved, FirstLive(s.j))
    ensures Restart(s, s.j).delivered == [] && Restart(s, s.j).r.seqNo == Restart(s, s.j).start
  {
    hide Runs;
    ReachableInv(s);
    StartsAtCursor(Reopen(s.j));
  }

  // ---- the cursor on disk never goes back ----

  /** The cursor on disk is not ahead of the cursor in memory, nor of the one about to be written. */
  ghost predicate CursorsInOrder(s: System) {
    s.j.saved <= s.j.readNext && (s.phase.Persisting? ==> s.j.saved <= s.phase.cursor)
  }

  lemma StartIsAhead(s: System, j: Journal)
    requires Valid(j) && j.saved == s.j.saved
    ensures CursorsInOrder(Restart(s, j))
    ensures Restart(s, j).j.saved == s.j.saved <= Restart(s, j).start
  {
    StartsAtCursor(Reopen(j));
  }

  lemma StepAdvances(s: System, step: Step)
    requires Inv(s) && Enabled(s, step) && CursorsInOrder(s)
    ensures var t := Do(s, step);
            && CursorsInOrder(t) && s.j.saved <= t.j.saved
            && (if IsStart(step) then s.j.saved <= t.start else t.start == s.start)
  {
    hide MakeRoom, Evict, DeliveredOk, CaughtUpOk, ReaderOk, JournalModel.Append, Restart, Read, Snapshot, Open, MaxSeq;
    match step
    case AppendStep(rec) => AppendAdvances(s.cfg, s.j, rec);
    case RestartStep => StartIsAhead(s, s.j);
    case CrashInRotation(rec) =>
      RoomAtCrash(s.cfg, s.j, rec);
      StartIsAhead(s, MakeRoom(s.cfg, s.j, rec));
    case CrashInEviction(rec, live) =>
      CrashKeepsValid(s.cfg, s.j, rec, live);
      RoomAtCrash(s.cfg, s.j, rec);
      StartIsAhead(s, Write(MakeRoom(s.cfg, s.j, rec), rec).(live := live));
    case _ =>
  }

  lemma AppendAdvances(cfg: Config, j: Journal, rec: Record)
    requires Valid(j)
    ensures Append(cfg, j, rec).saved == j.saved && j.readNext <= Append(cfg, j, rec).readNext
  {
    if j.closed {
      ClosedAppend(cfg, j, rec);
    } else {
      AppendExtends(cfg, j, rec);
    }
  }

  lemma {:induction false} RunAdvances(s: System, steps: seq<Step>, t: System)
    requires Inv(s) && CursorsInOrder(s) && Runs(s, steps, t)
    ensures Inv(t) && CursorsInOrder(t) && s.j.saved <= t.j.saved
    ensures if exists i :: 0 <= i < |steps| && IsStart(steps[i]) then s.j.saved <= t.start else t.start == s.start
    decreases |steps|
  {
    hide Inv, Do, CursorsInOrder, IsStart;
    if steps != [] {
      var rest := steps[1..];
      StepKeeps(s, steps[0]);
      StepAdvances(s, steps[0]);
      RunAdvances(Do(s, steps[0]), rest, t);
      assert forall i :: 0 <= i < |rest| ==> rest[i] == steps[i + 1];
      if i :| 0 <= i < |steps| && IsStart(steps[i]) {
        assert i > 0 ==> rest[i - 1] == steps[i];
      }
    }
  }

  lemma ReachableCursors(s: System)
    requires Reachable(s)
    ensures Inv(s) && CursorsInOrder(s)
  {
    hide Inv, Runs;
    var cfg: Config, batchSize: nat, steps: seq<Step> :| Runs(Init(cfg, batchSize), steps, s);
    EmptyKeeps(cfg, batchSize);
    RunAdvances(Init(cfg, batchSize), steps, s);
  }

  /** Nothing behind the start is delivered. */
  lemma DeliveredFromStart(s: System, k: nat)
    requires Inv(s) && k < |s.delivered|
    ensures s.start <= s.delivered[k].0
  {
  }

  /**
    * Whatever happens after a restart, until the next one, nothing is delivered but what follows the cursor that
    * the restart found on disk, and everything from there on is delivered in order or evicted.
    */
  lemma ResumesAtCursor(s: System, steps: seq<Step>, t: System)
    requires Reachable(s)
    requires Valid(s.j) && Enabled(s, RestartStep) && Runs(Do(s, RestartStep), steps, t)
    requires forall i :: 0 <= i < |steps| ==> !IsStart(steps[i])
    ensures t.start == Max(s.j.saved, FirstLive(s.j))
    ensures forall k :: 0 <= k < |t.delivered| ==> t.start <= t.delivered[k].0
    ensures Valid(t.j) && forall q :: t.start <= q < Pos(t) && !IsDelivered(t, q) ==> Evicted(t.j, q)
  {
    hide Runs, Do, Enabled, IsStart;
    ReachableCursors(s);
    RestartResumes(s);
    StepKeeps(s, RestartStep);
    StepAdvances(s, RestartStep);
    assert Do(s, RestartStep) == Restart(s, s.j) by { RestartIs(s); }
    RunAdvances(Restart(s, s.j), steps, t);
  }

  lemma RestartIs(s: System)
    requires Valid(s.j)
    ensures Enabled(s, RestartStep) && Do(s, RestartStep) == Restart(s, s.j)
  {
  }

  /**
    * A record behind the cursor on disk is never delivered after a later start, however many starts and
    * crashes, appends and evictions follow.
    */
  lemma CommittedIsNotRepeated(s: System, steps: seq<Step>, t: System, k: nat)
    requires Reachable(s) && Runs(s, steps, t) && k < |t.delivered|
    requires exists i :: 0 <= i < |steps| && IsStart(steps[i])
    ensures s.j.saved <= t.j.saved
    ensures s.j.saved <= t.delivered[k].0
  {
    hide Inv, Runs, IsStart;
    ReachableCursors(s);
    RunAdvances(s, steps, t);
    DeliveredFromStart(t, k);
  }
}
