/**
  * The journal on values: every record ever appended, the segments they lie in, and the cursors.
  * The class in Journal.dfy is proved to step exactly as these functions do.
  */
module JournalModel {
  import opened Wrappers
  import opened Frames

  datatype Config = Config(maxSeg: nat, maxTotal: nat)

  /**
    * log[s] is the record appended under sequence s. bases lists the first sequence of every segment
    * ever created, oldest first; segments from index `live` on are still linked in the directory, the
    * earlier ones were evicted. `saved` is the cursor on disk.
    */
  datatype Journal = Journal(
    log: seq<Record>,
    bases: seq<nat>,
    live: nat,
    readNext: nat,
    saved: nat,
    closed: bool)

  const EMPTY := Journal([], [], 0, 0, 0, false)

  /** Segments start at increasing sequences, none beyond the end of the log. */
  ghost predicate Layout(log: seq<Record>, bases: seq<nat>) {
    && (forall a, b :: 0 <= a < b < |bases| ==> bases[a] < bases[b])
    && (forall a :: 0 <= a < |bases| ==> bases[a] <= |log|)
  }

  ghost predicate Valid(j: Journal) {
    && Layout(j.log, j.bases)
    && (if j.bases == [] then j.log == [] && j.live == 0 else j.live < |j.bases| && j.bases[0] == 0)
    && j.readNext <= |j.log|
    && j.saved <= |j.log|
  }

  /** The sequence after the last one of segment i. */
  function End(log: seq<Record>, bases: seq<nat>, i: nat): nat
    requires i < |bases|
  {
    if i + 1 < |bases| then bases[i + 1] else |log|
  }

  /** The records of segment i. */
  function Content(log: seq<Record>, bases: seq<nat>, i: nat): (c: seq<Record>)
    requires Layout(log, bases) && i < |bases|
    ensures |c| == End(log, bases, i) - bases[i]
    ensures forall k :: 0 <= k < |c| ==> c[k] == log[bases[i] + k]
  {
    log[bases[i]..End(log, bases, i)]
  }

  function Bytes(log: seq<Record>, bases: seq<nat>, i: nat): nat
    requires Layout(log, bases) && i < |bases|
  {
    Size(Content(log, bases, i))
  }

  /** The bytes of all segments from index i on. */
  function BytesFrom(log: seq<Record>, bases: seq<nat>, i: nat): nat
    requires Layout(log, bases) && i <= |bases|
    decreases |bases| - i
  {
    if i == |bases| then 0 else Bytes(log, bases, i) + BytesFrom(log, bases, i + 1)
  }

  function Total(j: Journal): nat
    requires Valid(j)
  {
    BytesFrom(j.log, j.bases, j.live)
  }

  /** The first sequence that is still stored; everything below it was evicted. */
  function FirstLive(j: Journal): nat
    requires Valid(j)
  {
    if j.bases == [] then 0 else j.bases[j.live]
  }

  // ---- operations ----

  /** A segment whose first sequence is the next one to be assigned. */
  function AddSegment(j: Journal): Journal {
    j.(bases := j.bases + [|j.log|])
  }

  /** The journal with an active segment that has room for a frame of `rec`. */
  function MakeRoom(cfg: Config, j: Journal, rec: Record): (r: Journal)
    requires Valid(j)
  {
    if j.bases == [] then AddSegment(j)
    else
      var b := Bytes(j.log, j.bases, |j.bases| - 1);
      if b > 0 && b + HEADER + |rec| > cfg.maxSeg then AddSegment(j) else j
  }

  function Write(j: Journal, rec: Record): Journal {
    j.(log := j.log + [rec])
  }

  /** Removes the oldest segment; a cursor that would point into it moves to the next one. */
  function DropOldest(j: Journal): Journal
    requires j.live + 1 < |j.bases|
  {
    j.(live := j.live + 1, readNext := Max(j.readNext, j.bases[j.live + 1]))
  }

  function Evict(cfg: Config, j: Journal): (r: Journal)
    requires Valid(j)
    ensures Valid(r)
    decreases |j.bases| - j.live
  {
    if Total(j) > cfg.maxTotal && |j.bases| - j.live > 1 then Evict(cfg, DropOldest(j)) else j
  }

  /** Append an encoded record; a closed journal refuses it. */
  function Append(cfg: Config, j: Journal, rec: Record): (r: Journal)
    requires Valid(j)
    ensures Valid(r)
  {
    if j.closed then j
    else
      MakeRoomKeeps(cfg, j, rec);
      Evict(cfg, Write(MakeRoom(cfg, j, rec), rec))
  }

  /** The cursor in memory moves past seqNo; it never moves back. */
  function Advance(j: Journal, seqNo: nat): Journal {
    j.(readNext := Max(j.readNext, seqNo + 1))
  }

  function Persist(j: Journal, cursor: nat): Journal {
    j.(saved := cursor)
  }

  function Close(j: Journal): Journal {
    j.(closed := true)
  }

  /** What Open restores from the directory of a journal that stopped between two frames. */
  function Reopen(j: Journal): Journal {
    j.(readNext := Min(j.saved, |j.log|), closed := false)
  }

  function Depth(j: Journal): nat {
    if |j.log| <= j.readNext then 0 else |j.log| - j.readNext
  }

  // ---- what the operations keep ----

  lemma MakeRoomKeeps(cfg: Config, j: Journal, rec: Record)
    requires Valid(j)
    ensures Valid(MakeRoom(cfg, j, rec)) && Valid(Write(MakeRoom(cfg, j, rec), rec))
    ensures MakeRoom(cfg, j, rec).bases != []
  {
    hide Size;
    if j.bases != [] && Bytes(j.log, j.bases, |j.bases| - 1) > 0 {
      SizeZero(Content(j.log, j.bases, |j.bases| - 1));
    }
  }

  /**
    * Eviction stops within the cap or at one segment, removes no segment it did not have to, and touches
    * nothing but the oldest segments and a cursor that would point into them.
    */
  lemma {:induction false} EvictStops(cfg: Config, j: Journal, r: Journal)
    requires Valid(j) && r == Evict(cfg, j)
    ensures j.live <= r.live && r == j.(live := r.live, readNext := r.readNext)
    ensures Total(r) <= cfg.maxTotal || |r.bases| - r.live <= 1
    ensures r.live == j.live ==> r.readNext == j.readNext
    ensures r.live > j.live ==> r.readNext == Max(j.readNext, r.bases[r.live])
    ensures r.live > j.live ==> BytesFrom(r.log, r.bases, r.live - 1) > cfg.maxTotal
    decreases |j.bases| - j.live
  {
    hide BytesFrom;
    if Total(j) > cfg.maxTotal && |j.bases| - j.live > 1 {
      EvictStops(cfg, DropOldest(j), r);
    }
  }

  /** Writing a record extends the newest segment and changes no other. */
  lemma WriteContent(j: Journal, rec: Record, i: nat)
    requires Valid(j) && i < |j.bases|
    requires Valid(Write(j, rec))
    ensures Content(j.log + [rec], j.bases, i) ==
            Content(j.log, j.bases, i) + if i + 1 == |j.bases| then [rec] else []
  {
  }

  /** A new segment is empty and changes no other. */
  lemma AddSegmentContent(j: Journal, i: nat)
    requires Valid(j) && Valid(AddSegment(j)) && i <= |j.bases|
    ensures Content(j.log, AddSegment(j).bases, i) ==
            if i == |j.bases| then [] else Content(j.log, j.bases, i)
  {
  }

  // ---- the size bound ----

  /** A segment is within the segment limit, or holds a single record that alone exceeds it. */
  ghost predicate SegmentBounded(cfg: Config, c: seq<Record>) {
    Size(c) <= cfg.maxSeg || |c| == 1
  }

  ghost predicate SegmentsBounded(cfg: Config, j: Journal)
    requires Valid(j)
  {
    forall i :: 0 <= i < |j.bases| ==> SegmentBounded(cfg, Content(j.log, j.bases, i))
  }

  function LargestFrame(log: seq<Record>): nat {
    if log == [] then 0 else Max(HEADER + |log[0]|, LargestFrame(log[1..]))
  }

  lemma {:induction false} LargestFrameBounds(log: seq<Record>, k: nat)
    requires k < |log|
    ensures HEADER + |log[k]| <= LargestFrame(log)
  {
    if k > 0 {
      LargestFrameBounds(log[1..], k - 1);
    }
  }

  /** The most the journal may hold. */
  function Cap(cfg: Config, log: seq<Record>): nat {
    Max(cfg.maxTotal, Max(cfg.maxSeg, LargestFrame(log)))
  }

  lemma RoomIsBounded(cfg: Config, j: Journal, rec: Record)
    requires Valid(j) && SegmentsBounded(cfg, j)
    requires Valid(MakeRoom(cfg, j, rec)) && Valid(Write(MakeRoom(cfg, j, rec), rec))
    ensures SegmentsBounded(cfg, Write(MakeRoom(cfg, j, rec), rec))
  {
    hide Size, Content, LargestFrame;
    var room := MakeRoom(cfg, j, rec);
    var w := Write(room, rec);
    forall i | 0 <= i < |w.bases| ensures SegmentBounded(cfg, Content(w.log, w.bases, i)) {
      WriteContent(room, rec, i);
      if room.bases == j.bases {
        assert SegmentBounded(cfg, Content(j.log, j.bases, i));
        SizeZero(Content(j.log, j.bases, i));
        SizeOfConcat(Content(j.log, j.bases, i), [rec]);
        SizeOfOne(rec);
        assert Content(j.log, j.bases, i) + [] == Content(j.log, j.bases, i);
      } else {
        AddSegmentContent(j, i);
        assert [] + [rec] == [rec];
        if i < |j.bases| {
          assert SegmentBounded(cfg, Content(j.log, j.bases, i));
          assert Content(j.log, j.bases, i) + [] == Content(j.log, j.bases, i);
        }
      }
    }
  }

  /**
    * The size bound: if every segment is bounded (as in an empty journal), then after an append every
    * segment still is, and the linked segments together hold no more than the cap, one segment or one
    * record, whichever is largest.
    */
  lemma AppendWithinCap(cfg: Config, j: Journal, rec: Record, r: Journal)
    requires Valid(j) && SegmentsBounded(cfg, j) && !j.closed
    requires r == Append(cfg, j, rec)
    ensures SegmentsBounded(cfg, r)
    ensures Total(r) <= Cap(cfg, r.log)
  {
    hide Size, Content, LargestFrame, MakeRoom, Evict;
    MakeRoomKeeps(cfg, j, rec);
    RoomIsBounded(cfg, j, rec);
    var w := Write(MakeRoom(cfg, j, rec), rec);
    EvictStops(cfg, w, Evict(cfg, w));
    assert Append(cfg, j, rec) == Evict(cfg, w);
    if Total(r) > cfg.maxTotal {
      var last := |r.bases| - 1;
      assert r.live == last;
      var c := Content(r.log, r.bases, last);
      assert BytesFrom(r.log, r.bases, last + 1) == 0;
      assert Total(r) == Size(c);
      assert SegmentBounded(cfg, c);
      if Size(c) > cfg.maxSeg {
        assert c == [c[0]];
        SizeOfOne(c[0]);
        assert c[0] == r.log[r.bases[last] + 0];
        LargestFrameBounds(r.log, r.bases[last]);
      }
    }
  }

  lemma ClosedAppend(cfg: Config, j: Journal, rec: Record)
    requires Valid(j) && j.closed
    ensures Append(cfg, j, rec) == j
  {
  }

  /** An append assigns the next sequence, keeps every record, and drops only from the front. */
  lemma AppendExtends(cfg: Config, j: Journal, rec: Record)
    requires Valid(j) && !j.closed
    ensures var r := Append(cfg, j, rec);
            && r.log == j.log + [rec] && j.bases <= r.bases && |r.bases| > 0
            && r.saved == j.saved && !r.closed && j.live <= r.live
            && (forall i :: 0 <= i < |r.bases| ==> r.bases[i] <= |j.log|)
            && (forall i :: 0 <= i < |j.bases| ==> End(j.log, j.bases, i) <= End(r.log, r.bases, i))
            && FirstLive(j) <= FirstLive(r)
            && (r.readNext == j.readNext || (j.readNext < r.readNext == FirstLive(r)))
  {
    hide Size, Content, Evict;
    MakeRoomKeeps(cfg, j, rec);
    var w := Write(MakeRoom(cfg, j, rec), rec);
    EvictStops(cfg, w, Evict(cfg, w));
  }

  /** A segment is begun exactly when there is none, or the last one holds a record and would outgrow its limit. */
  lemma BeginsSegmentIff(cfg: Config, j: Journal, rec: Record)
    requires Valid(j) && !j.closed
    ensures var k := Append(cfg, j, rec);
            && (k.bases == j.bases || k.bases == j.bases + [|j.log|])
            && (k.bases != j.bases <==>
                  j.bases == [] ||
                  var last := Content(j.log, j.bases, |j.bases| - 1);
                  last != [] && Size(last) + 12 + |rec| > cfg.maxSeg)
  {
    hide Size, Content, BytesFrom;
    MakeRoomKeeps(cfg, j, rec);
    EvictStops(cfg, Write(MakeRoom(cfg, j, rec), rec), Append(cfg, j, rec));
    if j.bases != [] {
      SizeZero(Content(j.log, j.bases, |j.bases| - 1));
    }
  }
}
