/** The store over whole runs of batches, failed attempts, retries and retention, in every order. */
module StoreRuns {
  import opened Wrappers
  import opened DayStore
  import opened LogStore
  import SortedSets

  type Parts = map<int, Partition>

  /**
    * One operation, as the store's methods are specified: an attempt to store a batch that committed the days
    * `done` of it, dropping old days, deleting a stream's old rows day by day up to some statement.
    */
  datatype Op =
    | Attempt(msgs: seq<Message>, done: set<int>)
    | Drop(cutoffDay: int)
    | Delete(stream: string, cutMs: int, days: seq<int>, statements: nat)

  /** Ids name one day, and a deletion does not stop between two effective statements. */
  ghost predicate Enabled(parts: Parts, op: Op) {
    match op
    case Attempt(msgs, done) => AllFit(msgs) && IdsAgree(parts, msgs) && done <= Days(msgs)
    case Drop(_) => true
    case Delete(stream, cutMs, days, statements) =>
      && SortedSets.Ascending(days) && SortedSets.Elements(days) == parts.Keys
      && (statements % 2 == 1 && statements < 2 * |days| ==>
            Untouched(View(parts, days[statements / 2]), stream, cutMs))
  }

  ghost predicate Steps(parts: Parts, op: Op, next: Parts) {
    match op
    case Attempt(msgs, done) => forall d :: View(next, d) == After(parts, done, msgs, d)
    case Drop(cutoffDay) => next == parts - DaysBefore(parts.Keys, cutoffDay)
    case Delete(stream, cutMs, days, statements) =>
      && SortedSets.Elements(days) == parts.Keys == next.Keys
      && PrunedUpTo(parts, next, days, statements, stream, cutMs)
  }

  /** Every partition keeps its own day's rows and mirrors them in its index, and no id is stored twice. */
  ghost predicate Good(parts: Parts) { PartsOk(parts) && IdsUnique(parts) }

  lemma AttemptKeeps(parts: Parts, op: Op, next: Parts)
    requires Good(parts) && op.Attempt? && Enabled(parts, op) && Steps(parts, op, next)
    ensures Good(next)
  {
    hide PartitionOk, IdsUnique, IdsAgree, InsertAll, Batch, DayOf, TimeFits, AllFit;
    StoreKeepsIdsUnique(parts, next, op.done, op.msgs);
    forall d | d in next ensures PartitionOk(d, next[d]) {
      ViewOk(parts, d);
      DayBatchOk(op.msgs, d);
      InsertAllKeeps(d, View(parts, d), Batch(op.msgs, d));
      assert View(next, d) == After(parts, op.done, op.msgs, d);
    }
  }

  /** Deleting rows leaves no id that was not there. */
  lemma FewerIds(parts: Parts, next: Parts)
    requires IdsUnique(parts)
    requires forall d, id :: Holds(next, d, id) ==> Holds(parts, d, id)
    ensures IdsUnique(next)
  {
  }

  lemma DropKeeps(parts: Parts, op: Op, next: Parts)
    requires Good(parts) && op.Drop? && Steps(parts, op, next)
    ensures Good(next)
  {
    hide PartitionOk, IdsUnique, DaysBefore;
    FewerIds(parts, next);
  }

  lemma PrunedIds(p: Partition, statements: int, stream: string, cutMs: int, id: string)
    requires HasId(PrunedFor(p, statements, stream, cutMs).rows, id)
    ensures HasId(p.rows, id)
  {
    hide Expired;
    KeepIs(p.rows, stream, cutMs);
    var kept := PrunedFor(p, statements, stream, cutMs).rows;
    var i :| 0 <= i < |kept| && kept[i].id == id;
    var k :| 0 <= k < |p.rows| && p.rows[k] == kept[i];
  }

  lemma DeleteKeeps(parts: Parts, op: Op, next: Parts)
    requires Good(parts) && op.Delete? && Enabled(parts, op) && Steps(parts, op, next)
    ensures Good(next)
  {
    hide PartsOk, IdsUnique, HasId, PrunedFor, Untouched, SortedSets.Ascending, SortedSets.Elements;
    StoppedPruneIff(parts, next, op.days, op.statements, op.stream, op.cutMs);
    forall d, id | Holds(next, d, id) ensures Holds(parts, d, id) {
      if d in next {
        var i := IndexOfDay(op.days, d);
        PrunedIds(parts[d], op.statements - 2 * i, op.stream, op.cutMs, id);
      }
    }
    FewerIds(parts, next);
  }

  lemma IndexOfDay(days: seq<int>, d: int) returns (i: nat)
    requires d in SortedSets.Elements(days)
    ensures i < |days| && days[i] == d
  {
    i :| i < |days| && days[i] == d;
  }

  lemma StepKeeps(parts: Parts, op: Op, next: Parts)
    requires Good(parts) && Enabled(parts, op) && Steps(parts, op, next)
    ensures Good(next)
  {
    hide Good, Steps, Enabled;
    match op
    case Attempt(_, _) => AttemptKeeps(parts, op, next);
    case Drop(_) => DropKeeps(parts, op, next);
    case Delete(_, _, _, _) => DeleteKeeps(parts, op, next);
  }

  /** The states of a run: one more than it has operations. */
  ghost predicate Run(states: seq<Parts>, ops: seq<Op>) {
    && |states| == |ops| + 1
    && states[0] == map[]
    && forall i :: 0 <= i < |ops| ==> Enabled(states[i], ops[i]) && Steps(states[i], ops[i], states[i + 1])
  }

  /**
    * In every run from an empty store, each partition holds rows of its own day, each id once, with an index
    * that holds exactly its (rowid, body) pairs, and no id is in two partitions.
    */
  lemma {:induction false} RunKeeps(states: seq<Parts>, ops: seq<Op>, k: nat)
    requires Run(states, ops) && k <= |ops|
    ensures Good(states[k])
  {
    hide Good, Enabled, Steps;
    if k == 0 {
      EmptyIsGood();
    } else {
      RunKeeps(states, ops, k - 1);
      StepKeeps(states[k - 1], ops[k - 1], states[k]);
    }
  }

  lemma EmptyIsGood()
    ensures Good(map[])
  {
  }

  /** A batch that may be stored may be stored again after any of its attempts. */
  lemma RetryIsEnabled(parts: Parts, msgs: seq<Message>, done: set<int>, next: Parts, again: set<int>)
    requires Enabled(parts, Attempt(msgs, done)) && Steps(parts, Attempt(msgs, done), next) && again <= Days(msgs)
    ensures Enabled(next, Attempt(msgs, again))
  {
    hide AllFit, View, After, DayOf, HasId, Days;
    forall k, d | 0 <= k < |msgs| && Holds(next, d, msgs[k].id) ensures DayOf(msgs[k]) == d {
      Origin(parts, next, done, msgs, d, msgs[k].id);
    }
  }
}
