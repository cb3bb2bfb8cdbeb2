/** The reader as the program keeps it: an open file, an offset, a counter, and Next's local snapshot. */
module JournalReader {
  import opened Wrappers
  import opened Frames
  import opened JournalFiles
  import M = JournalModel
  import R = ReaderModel

  /** The offset of an open file points at the frame of sequence `next`, or at the file's end. */
  ghost predicate Placed(log: seq<Record>, bases: seq<nat>, file: nat, next: nat, off: nat)
    requires M.Layout(log, bases)
  {
    && file < |bases| && bases[file] <= next <= M.End(log, bases, file)
    && off == Size(M.Content(log, bases, file)[..next - bases[file]])
  }

  /** Appending and rotating never move an offset off its frame. */
  lemma PlacedStable(j: M.Journal, k: M.Journal, file: nat, next: nat, off: nat)
    requires M.Valid(j) && M.Valid(k) && j.log <= k.log && j.bases <= k.bases
    requires forall i :: 0 <= i < |j.bases| ==> M.End(j.log, j.bases, i) <= M.End(k.log, k.bases, i)
    requires Placed(j.log, j.bases, file, next, off)
    ensures Placed(k.log, k.bases, file, next, off)
  {
    var n := next - j.bases[file];
    assert M.Content(k.log, k.bases, file)[..n] == M.Content(j.log, j.bases, file)[..n];
  }

  /** What a placed offset reads: the record of sequence `next` if the segment holds it. */
  lemma PlacedRead(j: M.Journal, files: seq<seq<Bytes.byte>>, file: nat, next: nat, off: nat)
    requires M.Valid(j) && Fits(0, j.log) && FilesHold(j.log, j.bases, files)
    requires Placed(j.log, j.bases, file, next, off)
    ensures file < |files|
    ensures FrameAt(files[file], off) ==
            if next < M.End(j.log, j.bases, file) then Some((next, j.log[next])) else None
    ensures next < M.End(j.log, j.bases, file) ==>
              Placed(j.log, j.bases, file, next + 1, off + HEADER + |j.log[next]|)
  {
    hide Encode, Size, FrameAt;
    var c := M.Content(j.log, j.bases, file);
    var base := j.bases[file];
    ContentFits(j.log, j.bases, file);
    assert Encode(base, c)[..Size(c)] == Encode(base, c);
    FrameAtBoundary(base, c, Size(c), next - base);
    if next < M.End(j.log, j.bases, file) {
      SizeStep(c, next - base);
    }
  }

  /** A seek for a sequence from a segment's base on lands on its frame, or on the end of the file. */
  lemma SeekPlaces(j: M.Journal, files: seq<seq<Bytes.byte>>, file: nat, target: nat)
    requires M.Valid(j) && Fits(0, j.log) && FilesHold(j.log, j.bases, files)
    requires file < |j.bases| && j.bases[file] <= target
    ensures file < |files|
    ensures Placed(j.log, j.bases, file, R.SeekTo(j, file, target), SeekFrom(files[file], 0, target))
  {
    hide Encode, SeekFrom;
    var c := M.Content(j.log, j.bases, file);
    ContentFits(j.log, j.bases, file);
    assert c[..0] == [];
    SeekLands(j.bases[file], c, 0, target);
  }

  class Reader {
    const j: Journal
    var file: Option<nat>
    var off: nat
    var seqNo: nat
    var segs: seq<Segment>

    ghost var next: nat
    ghost var pc: R.Pc

    ghost function Abs(): R.Reader
      reads this
    {
      R.Reader(if file.Some? then R.File(file.value, next) else R.NoFile, seqNo, pc)
    }

    ghost predicate Valid()
      reads this, j, j.disk
    {
      && j.Valid()
      && (file.Some? ==> Placed(j.log, j.bases, file.value, next, off))
      && (pc.AtOpen? ==> pc.lo <= pc.hi <= |j.bases| && SnapshotOf(segs, j.bases, pc.lo, pc.hi))
    }

    static ghost predicate SnapshotOf(segs: seq<Segment>, bases: seq<nat>, lo: nat, hi: nat)
      requires lo <= hi <= |bases|
    {
      |segs| == hi - lo && forall i :: 0 <= i < |segs| ==> segs[i].base == bases[lo..hi][i]
    }

    /** Starts just after the committed cursor, or at the first stored segment if that is later. */
    constructor (j: Journal)
      requires j.Valid()
      ensures Valid() && this.j == j && Abs() == R.NewReader(j.Abs())
      ensures M.Valid(j.Abs()) && seqNo == Max(j.readNext, M.FirstLive(j.Abs())) && file.None?
    {
      hide FilesHold, Names, M.Bytes;
      var start := j.readNext;
      if |j.segments| > 0 && start < j.segments[0].base {
        start := j.segments[0].base;
      }
      this.j := j;
      file, off, seqNo, segs := None, 0, start, [];
      next, pc := 0, R.AtRead;
    }

    /** The top of Next's loop: read the frame at the offset of the open file. */
    method ReadStep() returns (o: R.Outcome)
      requires Valid() && pc.AtRead?
      modifies this
      ensures Valid()
      ensures (Abs(), o) == R.Read(j.Abs(), old(Abs()))
    {
      hide FilesHold, Names, Listing, Placed, FrameAt;
      if file.Some? {
        EndWithinLog(j.Abs(), j.disk.files, file.value, next, off);
        PlacedRead(j.Abs(), j.disk.files, file.value, next, off);
        var s, rec, advance, ok := ReadFrame(j.disk.files[file.value], off);
        if ok {
          off := off + advance;
          seqNo := s + 1;
          next := next + 1;
          return R.Delivered(s, rec);
        }
      }
      pc := R.AtSnapshot;
      return R.Continue;
    }

    static lemma EndWithinLog(a: M.Journal, files: seq<seq<Bytes.byte>>, file: nat, next: nat, off: nat)
      requires M.Valid(a) && FilesHold(a.log, a.bases, files) && Placed(a.log, a.bases, file, next, off)
      ensures file < |a.bases| && file < |files| && M.End(a.log, a.bases, file) <= |a.log|
      ensures next <= M.End(a.log, a.bases, file)
    {
    }

    /** The critical section: copy the segments and decide what to do. */
    method SnapshotStep() returns (o: R.Outcome)
      requires Valid() && pc.AtSnapshot?
      modifies this
      ensures Valid()
      ensures (Abs(), o) == R.Snapshot(j.Abs(), old(Abs()))
    {
      hide FilesHold, Names, M.Bytes, Placed;
      segs := j.segments;
      assert SnapshotOf(segs, j.bases, j.live, |j.bases|);
      if j.closed && seqNo >= j.nextSeq {
        pc := R.AtRead;
        return R.Drained;
      }
      if |segs| > 0 && seqNo < segs[0].base {
        seqNo := segs[0].base;
        pc := R.AtOpen(j.live, |j.bases|, |j.log|);
        return R.Continue;
      }
      if seqNo < j.nextSeq {
        pc := R.AtOpen(j.live, |j.bases|, |j.log|);
        return R.Continue;
      }
      pc := R.AtRead;
      return R.CaughtUp;
    }

    /** Opens the segment of the snapshot that holds the counter's sequence and seeks to it. */
    method OpenStep()
      requires Valid() && pc.AtOpen?
      modifies this
      ensures Valid()
      ensures Abs() == R.Open(j.Abs(), old(Abs()))
    {
      hide FilesHold, Listing, Placed, R.Leading, R.SeekTo, Names, M.Valid;
      var n := ChooseSegment(segs, seqNo, j.bases[pc.lo..pc.hi]);
      if n > 0 {
        OpenFile(segs[n - 1].base, pc.lo + n - 1);
      }
      pc := R.AtRead;
    }

    /** Opens a segment by its name; a name that is gone changes nothing. */
    method OpenFile(base: nat, ghost i: nat)
      requires Valid() && i < |j.bases| && base == j.bases[i] <= seqNo
      modifies this`file, this`off, this`next
      ensures Valid()
      ensures if i < j.live then Abs() == old(Abs()) else
                Abs() == old(Abs()).(handle := R.File(i, R.SeekTo(j.Abs(), i, seqNo)))
    {
      hide FilesHold, Listing, Placed, R.SeekTo, Names;
      NameOf(j.disk.names, j.bases, j.live, i);
      if base !in j.disk.names {
        return;
      }
      var f := j.disk.names[base];
      SeekPlaces(j.Abs(), j.disk.files, i, seqNo);
      off := Seek(j.disk.files[f], seqNo);
      file := Some(f);
      next := R.SeekTo(j.Abs(), i, seqNo);
    }
  }

  lemma NameOf(names: map<nat, nat>, bases: seq<nat>, live: nat, i: nat)
    requires forall a, b :: 0 <= a < b < |bases| ==> bases[a] < bases[b]
    requires i < |bases| && Names(names, bases, live)
    ensures bases[i] in names <==> live <= i
    ensures live <= i ==> names[bases[i]] == i
  {
  }

  /** Walks a snapshot to the last segment whose base is at most the target. */
  method ChooseSegment(segs: seq<Segment>, target: nat, ghost bases: seq<nat>) returns (n: nat)
    requires |segs| == |bases| && forall i :: 0 <= i < |segs| ==> segs[i].base == bases[i]
    ensures n == R.Leading(bases, target)
  {
    n := 0;
    while n < |segs| && segs[n].base <= target
      invariant n <= |segs| && forall i :: 0 <= i < n ==> bases[i] <= target
    {
      n := n + 1;
    }
    LeadingIs(bases, target, n);
  }

  lemma LeadingIs(bases: seq<nat>, target: nat, n: nat)
    requires n <= |bases| && (forall i :: 0 <= i < n ==> bases[i] <= target)
    requires n < |bases| ==> target < bases[n]
    ensures n == R.Leading(bases, target)
  {
  }

  /** An append between two steps of the reader leaves it valid, with the journal moved on underneath it. */
  method AppendWhileReading(r: Reader, rec: Record)
    requires r.Valid() && |rec| < LEN_LIMIT && r.j.nextSeq < SEQ_LIMIT
    modifies r.j, r.j.disk
    ensures r.Valid() && r.Abs() == old(r.Abs())
    ensures r.j.Abs() == M.Append(r.j.Config(), old(r.j.Abs()), rec)
  {
    hide FilesHold, Names, Listing, Placed, M.Append;
    ghost var a := r.j.Abs();
    ghost var file, next, off := r.file, r.next, r.off;
    if !r.j.closed {
      M.AppendExtends(r.j.Config(), a, rec);
    } else {
      assert M.Append(r.j.Config(), a, rec) == a by { M.ClosedAppend(r.j.Config(), a, rec); }
    }
    var s, ok := r.j.Append(rec);
    if file.Some? {
      PlacedStable(a, r.j.Abs(), file.value, next, off);
    }
  }
}
