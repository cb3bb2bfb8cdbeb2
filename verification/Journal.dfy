/** The journal as the program keeps it: files in a directory, a list of segments, an active file and cursors. */
module JournalFiles {
  import opened Bytes
  import opened Wrappers
  import opened Frames
  import M = JournalModel
  import SortedSets

  const DEFAULT_MAX_SEGMENT_BYTES: nat := 0x100_0000
  const DEFAULT_MAX_TOTAL_BYTES: nat := 0x4000_0000

  /**
    * The journal's directory as the operating system keeps it. A file is a number in `files`; its name is
    * the base sequence in the segment's path. Removing the name leaves the contents to whoever holds the
    * file open. `offset` is the committed cursor file.
    */
  class Disk {
    var files: seq<seq<byte>>
    var names: map<nat, nat>
    var offset: Option<nat>

    constructor ()
      ensures files == [] && names == map[] && offset == None
    {
      files, names, offset := [], map[], None;
    }
  }

  datatype Segment = Segment(base: nat, bytes: nat)

  // ---- the correspondence with the model, on values ----

  ghost function Listed(log: seq<Record>, bases: seq<nat>, i: nat): Segment
    requires M.Layout(log, bases) && i < |bases|
  {
    Segment(bases[i], M.Bytes(log, bases, i))
  }

  /** The segments from index `live` on, with their sizes. */
  ghost function Listing(log: seq<Record>, bases: seq<nat>, live: nat): (s: seq<Segment>)
    requires M.Layout(log, bases) && live <= |bases|
    ensures |s| == |bases| - live
    ensures forall i :: 0 <= i < |s| ==> s[i] == Listed(log, bases, live + i)
  {
    seq(|bases| - live, i requires 0 <= i < |bases| - live => Listed(log, bases, live + i))
  }

  lemma ContentFits(log: seq<Record>, bases: seq<nat>, i: nat)
    requires M.Layout(log, bases) && i < |bases| && Fits(0, log)
    ensures Fits(bases[i], M.Content(log, bases, i))
  {
  }

  /** What a segment file holds. */
  ghost function Data(log: seq<Record>, bases: seq<nat>, i: nat): seq<byte>
    requires M.Layout(log, bases) && i < |bases|
  {
    Encode(bases[i], M.Content(log, bases, i))
  }

  /** Writing a frame to the active file is writing a record to the model. */
  lemma WriteData(j: M.Journal, rec: Record)
    requires M.Valid(j) && j.bases != [] && M.Valid(M.Write(j, rec))
    ensures forall i :: 0 <= i < |j.bases| ==>
              Data(j.log + [rec], j.bases, i) ==
              if i == |j.bases| - 1 then Data(j.log, j.bases, i) + Frame(|j.log|, rec) else Data(j.log, j.bases, i)
    ensures forall i :: 0 <= i < |j.bases| ==>
              M.Bytes(j.log + [rec], j.bases, i) ==
              M.Bytes(j.log, j.bases, i) + if i == |j.bases| - 1 then HEADER + |rec| else 0
  {
    hide Frame, Encode, Size;
    var last := |j.bases| - 1;
    EncodeSnoc(j.bases[last], M.Content(j.log, j.bases, last), rec);
    WriteContents(j, rec);
  }

  lemma WriteContents(j: M.Journal, rec: Record)
    requires M.Valid(j) && M.Valid(M.Write(j, rec))
    ensures forall i :: 0 <= i < |j.bases| ==>
              M.Content(j.log + [rec], j.bases, i) ==
              if i + 1 == |j.bases| then M.Content(j.log, j.bases, i) + [rec] else M.Content(j.log, j.bases, i)
  {
  }

  /** A new empty file is a new empty segment of the model. */
  lemma AddData(j: M.Journal)
    requires M.Valid(j) && M.Valid(M.AddSegment(j))
    ensures forall i :: 0 <= i <= |j.bases| ==>
              Data(j.log, M.AddSegment(j).bases, i) == if i == |j.bases| then [] else Data(j.log, j.bases, i)
    ensures forall i :: 0 <= i <= |j.bases| ==>
              M.Bytes(j.log, M.AddSegment(j).bases, i) == if i == |j.bases| then 0 else M.Bytes(j.log, j.bases, i)
  {
    hide M.Content;
    forall i | 0 <= i <= |j.bases|
      ensures M.Content(j.log, M.AddSegment(j).bases, i) ==
              if i == |j.bases| then [] else M.Content(j.log, j.bases, i)
    {
      M.AddSegmentContent(j, i);
    }
  }

  ghost function Bases(bases: seq<nat>, live: nat): set<nat>
  {
    set i | live <= i < |bases| :: bases[i]
  }

  /** The files hold the records of their segments, byte for byte. */
  ghost predicate FilesHold(log: seq<Record>, bases: seq<nat>, files: seq<seq<byte>>)
    requires M.Layout(log, bases)
  {
    |files| == |bases| && forall i :: 0 <= i < |files| ==> files[i] == Data(log, bases, i)
  }

  /** The names in the directory are those of the files from index `live` on. */
  ghost predicate Names(names: map<nat, nat>, bases: seq<nat>, live: nat) {
    && names.Keys == Bases(bases, live)
    && (forall i :: live <= i < |bases| ==> bases[i] in names && names[bases[i]] == i)
  }

  /** The disk holds exactly the segments of j, its names the linked ones, and its saved cursor. */
  ghost predicate OnDisk(files: seq<seq<byte>>, names: map<nat, nat>, offset: Option<nat>, j: M.Journal) {
    && M.Valid(j) && Fits(0, j.log)
    && FilesHold(j.log, j.bases, files)
    && Names(names, j.bases, j.live)
    && j.saved == Saved(offset)
  }

  ghost function Saved(offset: Option<nat>): nat { if offset.Some? then offset.value else 0 }

  // ---- recovery ----

  /** The sequence recovery assigns next, from the bytes and the base of the last segment. */
  function NextAfter(data: seq<byte>, base: nat): nat {
    var hi := ScanHighest(data, 0, 0);
    if hi >= base then hi + 1 else base
  }

  method RecoverNext(data: seq<byte>, base: nat) returns (nextSeq: nat)
    ensures nextSeq == NextAfter(data, base)
  {
    var hi := HighestSeq(data);
    nextSeq := if hi >= base then hi + 1 else base;
  }

  /**
    * Recovery from a stop anywhere in the last segment's bytes restores the sequence after its last complete
    * frame, exactly when there is one or the segment does not start at sequence 0: the scan's 0 stands both
    * for "no record" and for "record 0".
    */
  lemma NextAfterStop(base: nat, recs: seq<Record>, m: nat)
    requires Fits(base, recs) && m <= Size(recs)
    ensures NextAfter(Encode(base, recs)[..m], base) == base + Complete(recs, m) <==>
            Complete(recs, m) > 0 || base > 0
    ensures Complete(recs, m) == 0 && base == 0 ==> NextAfter(Encode(base, recs)[..m], base) == 1
  {
    hide Encode, Size, Complete, ScanHighest;
    HighestSeqOfPrefix(base, recs, m);
  }

  /** The same for a stop on a frame boundary. */
  lemma NextAfterBoundary(base: nat, recs: seq<Record>)
    requires Fits(base, recs)
    ensures NextAfter(Encode(base, recs), base) == base + |recs| <==> recs != [] || base > 0
    ensures recs == [] && base == 0 ==> NextAfter(Encode(base, recs), base) == 1
  {
    hide Encode, Size, ScanHighest;
    NextAfterStop(base, recs, Size(recs));
    assert Encode(base, recs)[..Size(recs)] == Encode(base, recs);
    var c := Complete(recs, Size(recs));
    if c < |recs| {
      SizeStep(recs, c);
    }
  }

  /** The sizes listed are the files' sizes. */
  ghost predicate SizesListed(files: seq<seq<byte>>, names: map<nat, nat>, segments: seq<Segment>) {
    forall i :: 0 <= i < |segments| ==>
      && segments[i].base in names && names[segments[i].base] < |files|
      && segments[i].bytes == |files[names[segments[i].base]]|
  }

  ghost function BasesOf(segments: seq<Segment>): (a: seq<int>)
    ensures |a| == |segments| && forall i :: 0 <= i < |a| ==> a[i] == segments[i].base
  {
    seq(|segments|, i requires 0 <= i < |segments| => segments[i].base)
  }

  /** The segments are a directory's names in order. */
  ghost predicate InNameOrder(names: map<nat, nat>, segments: seq<Segment>) {
    SortedSets.Ascending(BasesOf(segments)) && SortedSets.Elements(BasesOf(segments)) == names.Keys
  }

  /** The segment files of a directory, in the order of their base sequences. */
  method ListSegments(disk: Disk) returns (segments: seq<Segment>)
    requires InRange(disk.files, disk.names)
    ensures InNameOrder(disk.names, segments) && SizesListed(disk.files, disk.names, segments)
  {
    var order := SortedSets.InOrder(disk.names.Keys);
    segments := [];
    for i := 0 to |order|
      invariant |segments| == i && SizesListed(disk.files, disk.names, segments)
      invariant forall k :: 0 <= k < i ==> segments[k].base == order[k]
    {
      assert order[i] in SortedSets.Elements(order);
      segments := segments + [Segment(order[i], |disk.files[disk.names[order[i]]]|)];
    }
    assert BasesOf(segments) == order;
  }

  lemma SameBases(names: map<nat, nat>, segments: seq<Segment>, bases: seq<nat>, live: nat)
    requires live <= |bases| && forall i, k :: 0 <= i < k < |bases| ==> bases[i] < bases[k]
    requires InNameOrder(names, segments) && names.Keys == Bases(bases, live)
    ensures |segments| == |bases| - live
    ensures forall i :: 0 <= i < |segments| ==> segments[i].base == bases[live + i]
  {
    var a, b: seq<int> := BasesOf(segments), bases[live..];
    forall x ensures x in SortedSets.Elements(b) <==> x in Bases(bases, live) {
      if x in Bases(bases, live) {
        var k :| live <= k < |bases| && bases[k] == x;
        assert b[k - live] == x;
      }
    }
    SortedSets.OneOrder(a, b);
    assert forall i :: 0 <= i < |segments| ==> segments[i].base == a[i] == b[i];
  }

  /** A sorted directory listing is the model's listing. */
  lemma ListingOf(files: seq<seq<byte>>, names: map<nat, nat>, offset: Option<nat>, j: M.Journal,
                  segments: seq<Segment>)
    requires OnDisk(files, names, offset, j)
    requires InNameOrder(names, segments) && SizesListed(files, names, segments)
    ensures segments == Listing(j.log, j.bases, j.live)
  {
    hide Encode, Size, M.Content, Bases, InNameOrder;
    SameBases(names, segments, j.bases, j.live);
    forall i | 0 <= i < |segments| ensures segments[i] == Listed(j.log, j.bases, j.live + i) {
      var k := j.live + i;
      assert segments[i].base == j.bases[k];
      assert names[j.bases[k]] == k;
      assert files[k] == Data(j.log, j.bases, k);
    }
  }

  /** The newest segment is linked, and its file holds its records. */
  lemma LastFile(files: seq<seq<byte>>, names: map<nat, nat>, offset: Option<nat>, j: M.Journal)
    requires OnDisk(files, names, offset, j) && j.bases != []
    ensures var last := |j.bases| - 1;
            && j.bases[last] in names && names[j.bases[last]] == last < |files|
            && files[last] == Encode(j.bases[last], M.Content(j.log, j.bases, last))
            && |M.Content(j.log, j.bases, last)| == |j.log| - j.bases[last]
            && (j.bases[last] == 0 ==> last == 0)
            && (last == 0 ==> j.bases[last] == 0)
            && (last > 0 ==> j.log != [])
  {
  }

  /** Every name stands for a file. */
  predicate InRange(files: seq<seq<byte>>, names: map<nat, nat>) { forall b :: b in names ==> names[b] < |files| }

  lemma LastListed(files: seq<seq<byte>>, names: map<nat, nat>, segments: seq<Segment>)
    requires SizesListed(files, names, segments) && segments != []
    ensures segments[|segments| - 1].base in names && names[segments[|segments| - 1].base] < |files|
  {
  }

  /** What the directory of a journal lists, and what the bytes of its newest segment give. */
  lemma RecoversJournal(files: seq<seq<byte>>, names: map<nat, nat>, offset: Option<nat>, j: M.Journal,
                        segments: seq<Segment>)
    requires OnDisk(files, names, offset, j)
    requires InNameOrder(names, segments) && SizesListed(files, names, segments)
    ensures M.Layout(j.log, j.bases) && j.live <= |j.bases| && segments == Listing(j.log, j.bases, j.live)
    ensures segments == [] <==> j.bases == []
    ensures j.bases != [] ==>
              var base := segments[|segments| - 1].base;
              && base in names && names[base] == |j.bases| - 1 < |files|
              && NextAfter(files[names[base]], base) == if j.log == [] then 1 else |j.log|
  {
    hide M.Bytes, M.Content, Listing, InNameOrder, Encode, NextAfter, Names, FilesHold, M.Valid, M.Layout;
    ReopenFacts(j);
    ListingOf(files, names, offset, j, segments);
    ListingLast(j);
    if j.bases != [] {
      LastFile(files, names, offset, j);
      ContentFits(j.log, j.bases, |j.bases| - 1);
      NextAfterBoundary(j.bases[|j.bases| - 1], M.Content(j.log, j.bases, |j.bases| - 1));
    }
  }

  // ---- steps of the correspondence ----

  lemma DropFacts(j: M.Journal)
    requires M.Valid(j) && j.live + 1 < |j.bases|
    ensures M.Layout(j.log, j.bases) && M.Valid(M.DropOldest(j))
    ensures forall i, k :: 0 <= i < k < |j.bases| ==> j.bases[i] < j.bases[k]
  {
  }

  lemma ListingTail(log: seq<Record>, bases: seq<nat>, live: nat)
    requires M.Layout(log, bases) && live + 1 < |bases|
    ensures var s := Listing(log, bases, live);
            && |s| > 1 && s[1..] == Listing(log, bases, live + 1)
            && s[0].base == bases[live] && s[1].base == bases[live + 1]
  {
  }

  /** Removing the oldest name leaves the names from the next segment on. */
  lemma NamesTail(names: map<nat, nat>, bases: seq<nat>, live: nat)
    requires forall i, k :: 0 <= i < k < |bases| ==> bases[i] < bases[k]
    requires live < |bases| && Names(names, bases, live)
    ensures Names(names - {bases[live]}, bases, live + 1)
  {
  }

  /** Adding a name above all others adds a segment. */
  lemma NamesSnoc(names: map<nat, nat>, bases: seq<nat>, live: nat, b: nat)
    requires live <= |bases| && Names(names, bases, live)
    requires forall i :: 0 <= i < |bases| ==> bases[i] < b
    ensures Names(names[b := |bases|], bases + [b], live)
  {
    BasesSnoc(bases, live, b);
  }

  lemma ListingLast(j: M.Journal)
    requires M.Valid(j)
    ensures var s := Listing(j.log, j.bases, j.live);
            if j.bases == [] then s == []
            else |s| > 0 && s[|s| - 1] == Listed(j.log, j.bases, |j.bases| - 1)
  {
  }

  lemma ListingWrite(j: M.Journal, rec: Record)
    requires M.Valid(j) && j.bases != [] && M.Valid(M.Write(j, rec))
    ensures var s := Listing(j.log, j.bases, j.live);
            var last := |s| - 1;
            && last >= 0
            && Listing(j.log + [rec], j.bases, j.live) ==
               s[last := s[last].(bytes := s[last].bytes + HEADER + |rec|)]
  {
    hide M.Bytes;
    WriteData(j, rec);
  }

  lemma ReopenFacts(j: M.Journal)
    requires M.Valid(j)
    ensures M.Valid(M.Reopen(j)) && M.Layout(j.log, j.bases) && j.live <= |j.bases|
    ensures j.bases == [] ==> j.log == []
  {
  }

  lemma AddFacts(j: M.Journal)
    requires M.Valid(j) && (j.bases == [] || j.bases[|j.bases| - 1] < |j.log|)
    ensures M.Valid(M.AddSegment(j))
    ensures forall i :: 0 <= i < |j.bases| ==> j.bases[i] < |j.log|
  {
  }

  lemma WriteFacts(j: M.Journal, rec: Record)
    requires M.Valid(j) && j.bases != [] && Fits(0, j.log) && |j.log| < SEQ_LIMIT && |rec| < LEN_LIMIT
    ensures M.Valid(M.Write(j, rec)) && Fits(0, j.log + [rec])
  {
  }

  /** The newest segment of a journal is empty exactly when it starts at the next sequence. */
  lemma EmptyBytes(j: M.Journal)
    requires M.Valid(j)
    ensures j.bases != [] ==> (M.Bytes(j.log, j.bases, |j.bases| - 1) == 0 <==> j.bases[|j.bases| - 1] == |j.log|)
  {
  }

  lemma ListingSnoc(j: M.Journal)
    requires M.Valid(j) && M.Valid(M.AddSegment(j))
    ensures Listing(j.log, M.AddSegment(j).bases, j.live) ==
            Listing(j.log, j.bases, j.live) + [Segment(|j.log|, 0)]
  {
  }

  lemma BasesSnoc(bases: seq<nat>, live: nat, b: nat)
    requires live <= |bases|
    ensures Bases(bases + [b], live) == Bases(bases, live) + {b}
  {
    var c := bases + [b];
    forall x ensures x in Bases(c, live) <==> x in Bases(bases, live) + {b} {
      if x in Bases(bases, live) {
        var i :| live <= i < |bases| && bases[i] == x;
        assert c[i] == x;
      }
      assert c[|bases|] == b;
    }
  }

  // ---- the class ----

  class Journal {
    const disk: Disk
    const maxSeg: nat
    const maxTotal: nat
    var segments: seq<Segment>
    var active: Option<nat>
    var nextSeq: nat
    var readNext: nat
    var closed: bool

    ghost var log: seq<Record>
    ghost var bases: seq<nat>
    ghost var live: nat

    ghost function Config(): M.Config { M.Config(maxSeg, maxTotal) }

    /** The model journal this object stands for. */
    ghost function Abs(): M.Journal
      reads this, disk
    {
      M.Journal(log, bases, live, readNext, Saved(disk.offset), closed)
    }

    /** Everything but the active file agrees with the model. */
    ghost predicate Consistent()
      reads this, disk
    {
      && OnDisk(disk.files, disk.names, disk.offset, Abs())
      && nextSeq == |log| && segments == Listing(log, bases, live)
    }

    ghost predicate Valid()
      reads this, disk
    {
      && Consistent()
      && active == if closed || bases == [] then None else Some(|bases| - 1)
    }

    /** The state that a directory's names, bytes and committed offset give, whatever they are. */
    ghost predicate RecoveredFrom(files: seq<seq<byte>>, names: map<nat, nat>, offset: Option<nat>)
      requires InRange(files, names)
      reads this
    {
      && InNameOrder(names, segments) && SizesListed(files, names, segments)
      && (segments == [] ==> active == None && nextSeq == 0)
      && (segments != [] ==>
            var base := segments[|segments| - 1].base;
            && base in names && active == Some(names[base]) && nextSeq == NextAfter(files[names[base]], base))
      && readNext == Min(Saved(offset), nextSeq)
    }

    /**
      * Opens a directory. The last segment, torn or not, is scanned for the highest sequence, it becomes the
      * active file, and a cursor ahead of the log is pulled back. The directory of a journal j that stopped
      * between two frames gives j back, unless all it has is an empty first segment.
      */
    constructor Open(disk: Disk, maxSegmentBytes: int, maxTotalBytes: int, ghost j: M.Journal)
      requires InRange(disk.files, disk.names)
      ensures this.disk == disk && !closed
      ensures maxSeg == if maxSegmentBytes <= 0 then DEFAULT_MAX_SEGMENT_BYTES else maxSegmentBytes
      ensures maxTotal == if maxTotalBytes <= 0 then DEFAULT_MAX_TOTAL_BYTES else maxTotalBytes
      ensures RecoveredFrom(disk.files, disk.names, disk.offset)
      ensures OnDisk(disk.files, disk.names, disk.offset, j) ==>
                if j.bases == [] || j.log != [] then Valid() && Abs() == M.Reopen(j) else nextSeq == 1
    {
      this.disk := disk;
      maxSeg := if maxSegmentBytes <= 0 then DEFAULT_MAX_SEGMENT_BYTES else maxSegmentBytes;
      maxTotal := if maxTotalBytes <= 0 then DEFAULT_MAX_TOTAL_BYTES else maxTotalBytes;
      segments, active, nextSeq, readNext, closed := [], None, 0, 0, false;
      log, bases, live := j.log, j.bases, j.live;
      new;
      hide OnDisk, RecoveredFrom, M.Reopen;
      Recover(j);
    }

    /** What the journal recovered from the directory of a stopped journal j is. */
    lemma Reopened(j: M.Journal)
      requires OnDisk(disk.files, disk.names, disk.offset, j) && InRange(disk.files, disk.names)
      requires RecoveredFrom(disk.files, disk.names, disk.offset)
      requires log == j.log && bases == j.bases && live == j.live && !closed
      ensures if j.bases == [] || j.log != [] then Valid() && Abs() == M.Reopen(j) else nextSeq == 1
    {
      hide M.Layout, M.Valid, InNameOrder, SizesListed, NextAfter, Names, FilesHold, Listing, Fits;
      ReopenFacts(j);
      RecoversJournal(disk.files, disk.names, disk.offset, j, segments);
    }

    /** Rebuilds the segment list, the active file, the next sequence and the cursor from what is on disk. */
    method Recover(ghost j: M.Journal)
      requires InRange(disk.files, disk.names)
      requires log == j.log && bases == j.bases && live == j.live && !closed
      requires active == None && nextSeq == 0 && readNext == 0
      modifies this`segments, this`active, this`nextSeq, this`readNext
      ensures RecoveredFrom(disk.files, disk.names, disk.offset)
      ensures OnDisk(disk.files, disk.names, disk.offset, j) ==>
                if j.bases == [] || j.log != [] then Valid() && Abs() == M.Reopen(j) else nextSeq == 1
    {
      hide OnDisk, InNameOrder, SizesListed, NextAfter, InRange, M.Reopen, Valid, Abs;
      segments := ListSegments(disk);
      if |segments| > 0 {
        LastListed(disk.files, disk.names, segments);
        var last := segments[|segments| - 1];
        active := Some(disk.names[last.base]);
        nextSeq := RecoverNext(disk.files[disk.names[last.base]], last.base);
      }
      if disk.offset.Some? {
        readNext := disk.offset.value;
      }
      if readNext > nextSeq {
        readNext := nextSeq;
      }
      if OnDisk(disk.files, disk.names, disk.offset, j) {
        Reopened(j);
      }
    }

    method TotalBytes() returns (t: nat)
      requires Consistent()
      ensures t == M.Total(Abs())
    {
      hide FilesHold, Names, M.Bytes;
      t := 0;
      var i := |segments|;
      while i > 0
        invariant 0 <= i <= |segments|
        invariant t == M.BytesFrom(log, bases, live + i)
      {
        i := i - 1;
        t := segments[i].bytes + t;
      }
    }

    /** A journal without an active file gets an empty segment at the next sequence. */
    method EnsureActive()
      requires Consistent() && !closed
      requires active.Some? ==> bases != [] && active.value == |bases| - 1
      requires active == None && bases != [] ==> bases[|bases| - 1] < |log|
      modifies this`segments, this`active, this`bases, disk`files, disk`names
      ensures Valid()
      ensures Abs() == if old(active).Some? then old(Abs()) else M.AddSegment(old(Abs()))
    {
      hide Encode, M.Bytes, Names, M.Content, Data, Listing;
      if active.Some? {
        return;
      }
      AddFacts(Abs());
      AddData(Abs());
      ListingSnoc(Abs());
      NamesSnoc(disk.names, bases, live, nextSeq);
      var base := nextSeq;
      disk.names := disk.names[base := |disk.files|];
      active := Some(|disk.files|);
      disk.files := disk.files + [[]];
      segments := segments + [Segment(base, 0)];
      bases := bases + [base];
    }

    /** From here on records go to a new segment; the old file keeps what it holds. */
    method Rotate()
      requires Valid() && !closed && bases != [] && bases[|bases| - 1] < |log|
      modifies this`segments, this`active, this`bases, disk`files, disk`names
      ensures Valid()
      ensures Abs() == M.AddSegment(old(Abs()))
    {
      hide FilesHold, Names, Listing;
      active := None;
      EnsureActive();
    }

    /** Removes the oldest segment and moves a cursor that would point into it. */
    method EvictOldest()
      requires Valid() && live + 1 < |bases|
      modifies this`segments, this`readNext, this`live, disk`names
      ensures Valid()
      ensures Abs() == M.DropOldest(old(Abs()))
    {
      hide Fits, FilesHold, Names, Listing, M.Valid, M.Layout, Saved;
      DropFacts(Abs());
      ListingTail(log, bases, live);
      NamesTail(disk.names, bases, live);
      var oldest := segments[0];
      disk.names := disk.names - {oldest.base};
      segments := segments[1..];
      var newBase := segments[0].base;
      if readNext < newBase {
        readNext := newBase;
      }
      live := live + 1;
      assert Abs() == M.DropOldest(old(Abs()));
      assert M.Valid(Abs());
    }

    /** Evicts from the front until the total is within the cap or a single segment is left. */
    method EvictLocked()
      requires Valid()
      modifies this`segments, this`readNext, this`live, disk`names
      ensures Valid()
      ensures Abs() == M.Evict(Config(), old(Abs()))
    {
      hide FilesHold, Names, M.Bytes, M.BytesFrom;
      var total := TotalBytes();
      while total > maxTotal && |segments| > 1
        invariant Valid() && total == M.Total(Abs())
        invariant M.Evict(Config(), Abs()) == M.Evict(Config(), old(Abs()))
        decreases |bases| - live
      {
        EvictOldest();
        total := TotalBytes();
      }
    }

    /** Ensures an active segment, and rotates it if the frame would exceed the segment limit. */
    method PrepareActive(rec: Record)
      requires Valid() && !closed
      modifies this`segments, this`active, this`bases, disk`files, disk`names
      ensures Valid() && bases != []
      ensures Abs() == M.MakeRoom(Config(), old(Abs()), rec)
    {
      hide FilesHold, Names, Listing, M.Bytes;
      ListingLast(Abs());
      EmptyBytes(Abs());
      EnsureActive();
      ListingLast(Abs());
      EmptyBytes(Abs());
      if segments[|segments| - 1].bytes > 0 && segments[|segments| - 1].bytes + HEADER + |rec| > maxSeg {
        Rotate();
      }
    }

    /** Writes a record and returns its sequence; a closed journal refuses it. */
    method Append(rec: Record) returns (seqNo: nat, ok: bool)
      requires Valid() && |rec| < LEN_LIMIT && nextSeq < SEQ_LIMIT
      modifies this, disk
      ensures Valid()
      ensures Abs() == M.Append(Config(), old(Abs()), rec)
      ensures ok == !old(closed)
      ensures ok ==> seqNo == |old(log)|
    {
      hide FilesHold, Names, Listing, M.Valid, M.Evict, M.MakeRoom;
      seqNo, ok := 0, false;
      if closed {
        return;
      }
      PrepareActive(rec);
      seqNo, ok := nextSeq, true;
      WriteFrame(rec);
      EvictLocked();
    }

    /** Writes the frame of the next sequence to the active file. */
    method WriteFrame(rec: Record)
      requires Valid() && !closed && bases != [] && |rec| < LEN_LIMIT && nextSeq < SEQ_LIMIT
      modifies this`segments, this`nextSeq, this`log, disk`files
      ensures Valid()
      ensures Abs() == M.Write(old(Abs()), rec)
    {
      hide Encode, Names, M.Content, Data, M.Bytes, Frame, Listing;
      WriteFacts(Abs(), rec);
      WriteData(Abs(), rec);
      ListingWrite(Abs(), rec);
      var frame := Frame(nextSeq, rec);
      disk.files := disk.files[active.value := disk.files[active.value] + frame];
      nextSeq := nextSeq + 1;
      var last := |segments| - 1;
      segments := segments[last := segments[last].(bytes := segments[last].bytes + |frame|)];
      log := log + [rec];
    }

    /** Commit's critical section: moves the cursor in memory and returns it for writing. */
    method Advance(seqNo: nat) returns (cursor: nat)
      requires Valid() && seqNo < |log|
      modifies this`readNext
      ensures Valid()
      ensures Abs() == M.Advance(old(Abs()), seqNo) && cursor == readNext
    {
      hide FilesHold, Names, Listing;
      if seqNo + 1 > readNext {
        readNext := seqNo + 1;
      }
      cursor := readNext;
    }

    /** The rest of Commit: replaces the offset file, or fails and leaves it. */
    method Persist(cursor: nat, writable: bool) returns (ok: bool)
      requires Valid() && cursor <= |log|
      modifies disk`offset
      ensures Valid() && ok == writable
      ensures Abs() == if ok then M.Persist(old(Abs()), cursor) else old(Abs())
    {
      hide FilesHold, Names, Listing;
      ok := writable;
      if ok {
        disk.offset := Some(cursor);
      }
    }

    method Depth() returns (n: nat)
      requires Valid()
      ensures n == M.Depth(Abs())
    {
      hide FilesHold, Names, Listing;
      n := if nextSeq <= readNext then 0 else nextSeq - readNext;
    }

    method Close()
      requires Valid()
      modifies this`closed, this`active
      ensures Valid()
      ensures Abs() == M.Close(old(Abs()))
    {
      hide FilesHold, Names, Listing;
      closed := true;
      active := None;
    }
  }
}
