/**
  * The journal's reader on values. One call of Next is split where the program releases the journal's
  * lock: reading a frame from the open file, taking a snapshot of the segments, opening the segment
  * chosen from that snapshot. Appends and evictions may fall between any two of these steps.
  */
module ReaderModel {
  import opened Wrappers
  import opened Frames
  import opened JournalModel

  /** The open file, if any, by its index in Journal.bases, and the sequence the offset points at. */
  datatype Handle = NoFile | File(index: nat, next: nat)

  /** Where Next stands. A snapshot is the segments lo..hi as they were, and nextSeq at that time. */
  datatype Pc = AtRead | AtSnapshot | AtOpen(lo: nat, hi: nat, nextSeq: nat)

  datatype Reader = Reader(handle: Handle, seqNo: nat, pc: Pc)

  /** What a step of Next does for its caller. */
  datatype Outcome = Continue | Delivered(seqNo: nat, rec: Record) | Drained | CaughtUp

  function NewReader(j: Journal): (r: Reader)
    requires Valid(j)
  {
    Reader(NoFile, if j.bases != [] && j.readNext < j.bases[j.live] then j.bases[j.live] else j.readNext, AtRead)
  }

  // ---- the steps ----

  /** Is there a complete frame at the open file's offset? An evicted file can still be read to its end. */
  predicate FrameReady(j: Journal, r: Reader) {
    r.handle.File? && r.handle.index < |j.bases| && r.handle.next < End(j.log, j.bases, r.handle.index)
    && r.handle.next < |j.log|
  }

  function Read(j: Journal, r: Reader): (Reader, Outcome) {
    if FrameReady(j, r) then
      var n := r.handle.next;
      (Reader(File(r.handle.index, n + 1), n + 1, AtRead), Delivered(n, j.log[n]))
    else (r.(pc := AtSnapshot), Continue)
  }

  function Snapshot(j: Journal, r: Reader): (Reader, Outcome)
    requires Valid(j)
  {
    var open := AtOpen(j.live, |j.bases|, |j.log|);
    if j.closed && r.seqNo >= |j.log| then (r.(pc := AtRead), Drained)
    else if j.bases != [] && r.seqNo < j.bases[j.live] then (Reader(r.handle, j.bases[j.live], open), Continue)
    else if r.seqNo < |j.log| then (r.(pc := open), Continue)
    else (r.(pc := AtRead), CaughtUp)
  }

  /** How many of the leading bases are at most target; the last of them is the segment to open. */
  function Leading(bases: seq<nat>, target: nat): (n: nat)
    ensures n <= |bases|
    ensures forall i :: 0 <= i < n ==> bases[i] <= target
    ensures n < |bases| ==> target < bases[n]
  {
    if bases == [] || bases[0] > target then 0 else 1 + Leading(bases[1..], target)
  }

  /** Where a seek for target in segment i ends up. */
  function SeekTo(j: Journal, i: nat, target: nat): nat
    requires i < |j.bases|
  {
    if target <= j.bases[i] then j.bases[i] else Min(target, End(j.log, j.bases, i))
  }

  /** Opens the chosen segment; if its file has been evicted since the snapshot, nothing changes. */
  function Open(j: Journal, r: Reader): Reader
    requires r.pc.AtOpen? && r.pc.lo <= r.pc.hi <= |j.bases|
  {
    var n := Leading(j.bases[r.pc.lo..r.pc.hi], r.seqNo);
    var i := r.pc.lo + n - 1;
    if n == 0 || i < j.live then r.(pc := AtRead)
    else Reader(File(i, SeekTo(j, i, r.seqNo)), r.seqNo, AtRead)
  }

  // ---- the invariant ----

  /**
    * pos is the sequence after the last delivered one. The offset is never behind pos and never ahead of
    * the reader's own counter, and whatever lies between pos and the counter has been evicted. The counter
    * itself may step back: it can be moved to the first stored segment before the open of that segment
    * fails, while the old file still holds unread frames.
    */
  ghost predicate ReaderOk(j: Journal, r: Reader, pos: nat)
    requires Valid(j)
  {
    && pos <= r.seqNo <= |j.log|
    && (pos < r.seqNo ==> r.seqNo <= FirstLive(j))
    && (r.handle.File? ==>
          && r.handle.index < |j.bases|
          && j.bases[r.handle.index] <= r.handle.next <= End(j.log, j.bases, r.handle.index)
          && pos <= r.handle.next <= r.seqNo)
    && (r.pc.AtOpen? ==>
          && r.pc.lo < r.pc.hi <= |j.bases|
          && r.pc.lo <= j.live
          && j.bases[r.pc.lo] <= r.seqNo <= r.pc.nextSeq <= End(j.log, j.bases, r.pc.hi - 1))
  }

  /** Sequence s is no longer stored. */
  ghost predicate Evicted(j: Journal, s: nat)
    requires Valid(j)
  {
    s < FirstLive(j)
  }

  /** A reader starts at the cursor, or at the first stored sequence if the cursor's record was evicted. */
  lemma StartsAtCursor(j: Journal)
    requires Valid(j)
    ensures NewReader(j).seqNo == Max(j.readNext, FirstLive(j))
    ensures NewReader(j).handle.NoFile? && NewReader(j).pc.AtRead?
  {
  }

  lemma NewReaderOk(j: Journal)
    requires Valid(j)
    ensures ReaderOk(j, NewReader(j), NewReader(j).seqNo)
  {
  }

  /** Growing the journal and evicting from its front never invalidates a reader in mid-step. */
  lemma JournalMoves(j: Journal, k: Journal, r: Reader, pos: nat)
    requires Valid(j) && Valid(k) && ReaderOk(j, r, pos)
    requires j.log <= k.log && j.bases <= k.bases && j.live <= k.live
    requires forall i :: 0 <= i < |j.bases| ==> End(j.log, j.bases, i) <= End(k.log, k.bases, i)
    ensures ReaderOk(k, r, pos)
  {
    if j.bases != [] {
      assert k.bases[j.live] == j.bases[j.live];
      assert FirstLive(j) <= FirstLive(k);
    }
    if r.handle.File? {
      assert k.bases[r.handle.index] == j.bases[r.handle.index];
    }
    if r.pc.AtOpen? {
      assert k.bases[r.pc.lo] == j.bases[r.pc.lo];
    }
  }

  /**
    * The central safety property of the reader: whatever was appended, rotated or evicted between its
    * steps, the frame it delivers carries the record appended under that sequence, comes after everything
    * delivered before, and every sequence it passed over has been evicted.
    */
  lemma ReadDelivers(j: Journal, r: Reader, pos: nat)
    requires Valid(j) && ReaderOk(j, r, pos) && r.pc.AtRead?
    ensures var (t, o) := Read(j, r);
            match o
            case Delivered(q, rec) =>
              && pos <= q < |j.log| && rec == j.log[q]
              && (forall s :: pos <= s < q ==> Evicted(j, s))
              && ReaderOk(j, t, q + 1) && t.pc.AtRead?
            case _ => o == Continue && ReaderOk(j, t, pos) && t.pc.AtSnapshot?
  {
  }

  /** A snapshot keeps the invariant; it reports a drained journal only when nothing is left to deliver. */
  lemma SnapshotKeeps(j: Journal, r: Reader, pos: nat)
    requires Valid(j) && ReaderOk(j, r, pos) && r.pc.AtSnapshot?
    ensures var (t, o) := Snapshot(j, r);
            && ReaderOk(j, t, pos) && !t.pc.AtSnapshot? && !o.Delivered?
            && (o == Drained ==> j.closed && forall s :: pos <= s < |j.log| ==> Evicted(j, s))
            && (o == CaughtUp ==> t == r.(pc := AtRead) && r.seqNo == |j.log|)
  {
    var (t, o) := Snapshot(j, r);
    if t.pc.AtOpen? {
      assert j.bases != [];
      assert End(j.log, j.bases, |j.bases| - 1) == |j.log|;
    }
  }

  /** The segment chosen from a snapshot still ends at or after the wanted sequence. */
  lemma ChosenSegment(j: Journal, r: Reader, pos: nat)
    requires Valid(j) && ReaderOk(j, r, pos) && r.pc.AtOpen?
    ensures var n := Leading(j.bases[r.pc.lo..r.pc.hi], r.seqNo);
            && 0 < n <= r.pc.hi - r.pc.lo
            && j.bases[r.pc.lo + n - 1] <= r.seqNo <= End(j.log, j.bases, r.pc.lo + n - 1)
  {
    hide Leading;
    var snap := j.bases[r.pc.lo..r.pc.hi];
    var n := Leading(snap, r.seqNo);
    assert snap[0] == j.bases[r.pc.lo];
    assert n > 0;
    assert snap[n - 1] == j.bases[r.pc.lo + n - 1];
    if n < |snap| {
      assert snap[n] == j.bases[r.pc.lo + n];
    }
  }

  /**
    * Opening keeps the invariant: either the file is gone and the reader stays as it was, or the offset
    * lands exactly on the frame of the wanted sequence.
    */
  lemma OpenLands(j: Journal, r: Reader, pos: nat)
    requires Valid(j) && ReaderOk(j, r, pos) && r.pc.AtOpen?
    ensures ReaderOk(j, Open(j, r), pos) && Open(j, r).pc.AtRead? && Open(j, r).seqNo == r.seqNo
    ensures Open(j, r).handle == r.handle ||
            (Open(j, r).handle.File? && Open(j, r).handle.index >= j.live && Open(j, r).handle.next == r.seqNo)
  {
    hide Leading;
    ChosenSegment(j, r, pos);
  }

  /**
    * Progress: left alone with an unread stored record and no frame at its offset, the reader delivers the
    * first stored sequence at or after its counter in its next four steps.
    */
  lemma Progress(j: Journal, r: Reader, pos: nat)
    requires Valid(j) && ReaderOk(j, r, pos) && r.pc.AtRead? && !FrameReady(j, r)
    requires Max(r.seqNo, FirstLive(j)) < |j.log|
    ensures var a := Read(j, r).0;
            var b := Snapshot(j, a).0;
            && a.pc.AtSnapshot? && b.pc.AtOpen? && b.pc.lo <= b.pc.hi <= |j.bases|
            && var q := Max(r.seqNo, FirstLive(j));
            Read(j, Open(j, b)).1 == Delivered(q, j.log[q])
  {
    var a := Read(j, r).0;
    SnapshotKeeps(j, a, pos);
    var b := Snapshot(j, a).0;
    assert b.pc == AtOpen(j.live, |j.bases|, |j.log|);
    NotEvictedYet(j, b, pos);
  }

  /** Without an eviction after the snapshot the chosen segment is still linked and holds the sequence. */
  lemma NotEvictedYet(j: Journal, r: Reader, pos: nat)
    requires Valid(j) && ReaderOk(j, r, pos) && r.pc == AtOpen(j.live, |j.bases|, |j.log|)
    requires r.seqNo < |j.log|
    ensures FrameReady(j, Open(j, r)) && Open(j, r).handle.next == r.seqNo
  {
    hide Leading;
    ChosenSegment(j, r, pos);
    var snap := j.bases[j.live..|j.bases|];
    var n := Leading(snap, r.seqNo);
    if n < |snap| {
      assert snap[n] == j.bases[j.live + n];
    }
  }
}
