/**
  * What a torn frame does to the record appended behind it. The journal reopens its last segment without
  * truncating it (internal/journal/journal.go), so the reader meets the torn bytes first.
  */
module TornTail {
  import opened Bytes
  import opened Frames
  import opened JournalFiles
  import opened Wrappers

  /** A record that the journal writes: a JSON object has no zero byte and is longer than a dozen bytes. */
  predicate Written(rec: Record) { |rec| >= HEADER && 0 !in rec }

  /** A frame is read only where its bytes stand. */
  lemma FrameAtBytes(data: seq<byte>, off: nat, q: nat, rec: Record)
    requires FrameAt(data, off) == Some((q, rec))
    ensures off + HEADER + |rec| <= |data| && data[off..off + HEADER + |rec|] == Frame(q, rec)
  {
    BigEndianOfValue(data[off..off + 8]);
    BigEndianOfValue(data[off + 8..off + HEADER]);
    var f := data[off..off + HEADER + |rec|];
    assert f == data[off..off + 8] + data[off + 8..off + HEADER] + data[off + HEADER..off + HEADER + |rec|];
  }

  /** A sequence equal to itself shifted by t repeats its first element every t. */
  lemma {:induction false} Repeats(f: seq<byte>, t: nat, i: nat)
    requires t > 0 && i * t < |f|
    requires forall j :: t <= j < |f| ==> f[j] == f[j - t]
    ensures f[i * t] == f[0]
  {
    if i > 0 {
      assert (i - 1) * t == i * t - t && (i - 1) * t >= 0;
      Repeats(f, t, i - 1);
    }
  }

  /** Some multiple of t lies within the payload of a frame. */
  lemma MultipleInPayload(t: nat, n: nat) returns (i: nat)
    requires t > 0 && n >= HEADER && t < HEADER + n
    ensures HEADER <= i * t < HEADER + n
  {
    if t >= HEADER {
      i := 1;
    } else {
      i := (HEADER + t - 1) / t;
      var x := HEADER + t - 1;
      assert x == i * t + x % t && x % t < t;
    }
  }

  /** A frame that starts with a zero is no prefix of the beginning of another frame and itself. */
  lemma NotBehindTail(tail: seq<byte>, p: nat, torn: Record, q: nat, rec: Record)
    requires q < Pow256(7) && Written(rec) && |rec| < LEN_LIMIT && |torn| < LEN_LIMIT
    requires 0 < |tail| < HEADER + |torn| && tail == Frame(p, torn)[..|tail|]
    ensures !(Frame(q, rec) <= tail + Frame(q, rec))
  {
    hide Frame;
    var f, t := Frame(q, rec), |tail|;
    var all := tail + f;
    if f <= all {
      SameLength(p, torn, q, rec, tail);
      assert t < |f|;
      forall j | t <= j < |f| ensures f[j] == f[j - t] {
        assert all[j] == f[j] && all[j] == f[j - t];
      }
      var i := MultipleInPayload(t, |rec|);
      Repeats(f, t, i);
      StartsWithZero(q, rec, i * t - HEADER);
      assert false;
    }
  }

  lemma StartsWithZero(q: nat, rec: Record, k: nat)
    requires q < Pow256(7) && k < |rec|
    ensures Frame(q, rec)[0] == 0 && Frame(q, rec)[HEADER + k] == rec[k]
  {
    hide BigEndian, Pow256;
    FirstIsZero(q, 8);
  }

  /** A tail long enough to hold the whole header belongs to a record of the same length. */
  lemma SameLength(p: nat, torn: Record, q: nat, rec: Record, tail: seq<byte>)
    requires |rec| < LEN_LIMIT && |torn| < LEN_LIMIT
    requires |tail| < HEADER + |torn| && tail == Frame(p, torn)[..|tail|]
    requires Frame(q, rec) <= tail + Frame(q, rec)
    ensures |tail| >= HEADER ==> |torn| == |rec|
    ensures |tail| < HEADER + |rec| || |tail| < HEADER
  {
    if |tail| >= HEADER {
      var f, all := Frame(q, rec), tail + Frame(q, rec);
      assert all[8..HEADER] == f[8..HEADER] && all[8..HEADER] == Frame(p, torn)[8..HEADER];
      assert f[8..HEADER] == BigEndian(|rec|, 4) && Frame(p, torn)[8..HEADER] == BigEndian(|torn|, 4);
      Pow256Values();
      BigEndianRoundTrip(|rec|, 4);
      BigEndianRoundTrip(|torn|, 4);
    }
  }

  lemma SubSlice(s: seq<byte>, a: nat, b: nat, c: nat)
    requires a <= b <= c <= |s|
    ensures s[a..b] == s[a..c][..b - a]
  {
  }

  /** The bytes of a stopped segment from its last frame boundary on are the beginning of the torn frame. */
  lemma TailOfStop(base: nat, recs: seq<Record>, m: nat, c: nat)
    requires Fits(base, recs) && m <= Size(recs) && c == Complete(recs, m) && Size(recs[..c]) < m
    ensures c < |recs| && m - Size(recs[..c]) < HEADER + |recs[c]|
    ensures Encode(base, recs)[Size(recs[..c])..m] == Frame(base + c, recs[c])[..m - Size(recs[..c])]
  {
    hide Encode, Frame, Size, Complete;
    assert recs[..|recs|] == recs;
    FrameBytes(base, recs, c);
    SubSlice(Encode(base, recs), Size(recs[..c]), m, Size(recs[..c + 1]));
  }

  /**
    * After a stop at any byte, the record appended next, whatever its sequence q, is found where the reader
    * stands exactly when the stop was on a frame boundary: behind a torn frame it is not delivered from there.
    */
  lemma NextRecordIsFoundIff(base: nat, recs: seq<Record>, m: nat, c: nat, q: nat, rec: Record)
    requires Fits(base, recs) && m <= Size(recs) && c == Complete(recs, m)
    requires q < Pow256(7) && Written(rec) && |rec| < LEN_LIMIT
    ensures FrameAt(Encode(base, recs)[..m] + Frame(q, rec), Size(recs[..c])) == Some((q, rec)) <==>
            m == Size(recs[..c])
  {
    hide Encode, Frame, Size, Complete, FrameAt;
    var head, off := Encode(base, recs)[..m], Size(recs[..c]);
    if m == off {
      FoundAtEnd(head, q, rec);
    } else {
      TailOfStop(base, recs, m, c);
      NotBehindTail(head[off..], base + c, recs[c], q, rec);
      assert head[off..] == Encode(base, recs)[off..m];
      FoundIsPrefix(head, off, q, rec);
    }
  }

  lemma FoundIsPrefix(head: seq<byte>, off: nat, q: nat, rec: Record)
    requires off <= |head|
    ensures FrameAt(head + Frame(q, rec), off) == Some((q, rec)) ==> Frame(q, rec) <= head[off..] + Frame(q, rec)
  {
    hide FrameAt, Frame;
    var f := Frame(q, rec);
    assert (head + f)[off..] == head[off..] + f;
    if FrameAt(head + f, off) == Some((q, rec)) {
      FrameAtBytes(head + f, off, q, rec);
      SubSlice(head + f, off, off + |f|, |head + f|);
    }
  }

  lemma FoundAtEnd(head: seq<byte>, q: nat, rec: Record)
    requires q < Pow256(7) && |rec| < LEN_LIMIT
    ensures FrameAt(head + Frame(q, rec), |head|) == Some((q, rec))
  {
    hide HeaderSeq, HeaderLen, Pow256;
    var data, f, off := head + Frame(q, rec), Frame(q, rec), |head|;
    SmallSequence(q);
    assert data[off..off + HEADER] == f[..HEADER];
    HeaderRead(data, off, q, rec);
    assert data[off + HEADER..off + HEADER + |rec|] == rec;
  }

  lemma SmallSequence(q: nat)
    requires q < Pow256(7)
    ensures q < SEQ_LIMIT
  {
    Pow256Values();
    assert Pow256(8) == 256 * Pow256(7);
  }

  // ---- the reader's seek ----

  lemma {:induction false} SeekIsForward(data: seq<byte>, off: nat, target: nat)
    ensures SeekFrom(data, off, target) >= off
    ensures SeekFrom(data, off, target) != off ==>
              HasHeader(data, off) && SeekFrom(data, off, target) >= off + HEADER + HeaderLen(data, off)
    decreases |data| - off
  {
    hide HeaderSeq, HeaderLen;
    if HasHeader(data, off) && HeaderSeq(data, off) < target {
      SeekIsForward(data, off + HEADER + HeaderLen(data, off), target);
    }
  }

  /** A header that lies within the head is the head's. */
  lemma HeaderInHead(head: seq<byte>, more: seq<byte>, off: nat)
    requires HasHeader(head, off)
    ensures HasHeader(head + more, off)
    ensures HeaderSeq(head + more, off) == HeaderSeq(head, off) && HeaderLen(head + more, off) == HeaderLen(head, off)
  {
    assert (head + more)[off..off + 8] == head[off..off + 8];
    assert (head + more)[off + 8..off + HEADER] == head[off + 8..off + HEADER];
  }

  /** A seek for a later sequence passes over the whole frames of a stopped segment. */
  lemma {:induction false} SeekPasses(base: nat, recs: seq<Record>, m: nat, k: nat, more: seq<byte>, target: nat)
    requires Fits(base, recs) && m <= Size(recs)
    requires k <= Complete(recs, m) && base + Complete(recs, m) <= target
    ensures var data := Encode(base, recs)[..m] + more;
            SeekFrom(data, Size(recs[..k]), target) == SeekFrom(data, Size(recs[..Complete(recs, m)]), target)
    decreases Complete(recs, m) - k
  {
    hide Encode, Size, Complete, HeaderSeq, HeaderLen;
    var c, head := Complete(recs, m), Encode(base, recs)[..m];
    if k < c {
      SizeStep(recs, k);
      SizeMonotone(recs, k + 1, c);
      HeaderAtBoundary(base, recs, m, k);
      HeaderInHead(head, more, Size(recs[..k]));
      SeekPasses(base, recs, m, k + 1, more, target);
    }
  }

  /** From a torn frame on, a seek stays or goes beyond the first byte appended behind it. */
  lemma SeekAtTorn(base: nat, recs: seq<Record>, m: nat, c: nat, more: seq<byte>, target: nat)
    requires Fits(base, recs) && m <= Size(recs) && c == Complete(recs, m) && Size(recs[..c]) < m
    ensures var p := SeekFrom(Encode(base, recs)[..m] + more, Size(recs[..c]), target);
            p == Size(recs[..c]) || p > m
  {
    hide Encode, Size, Complete, HeaderSeq, HeaderLen, SeekFrom;
    var head, off := Encode(base, recs)[..m], Size(recs[..c]);
    TailOfStop(base, recs, m, c);
    SeekIsForward(head + more, off, target);
    if HasHeader(head, off) {
      HeaderAtBoundary(base, recs, m, c);
      HeaderInHead(head, more, off);
    }
  }

  /** A frame is not found where too few bytes are left for it. */
  lemma NoRoom(data: seq<byte>, p: nat, q: nat, rec: Record)
    requires p + HEADER + |rec| > |data|
    ensures FrameAt(data, p) != Some((q, rec))
  {
    hide FrameAt;
    if FrameAt(data, p) == Some((q, rec)) {
      FrameAtBytes(data, p, q, rec);
    }
  }

  lemma SeekStopsAtFrame(data: seq<byte>, off: nat, q: nat, rec: Record)
    requires FrameAt(data, off) == Some((q, rec))
    ensures SeekFrom(data, off, q) == off
  {
  }

  /**
    * The same for a reader that opens the segment afresh, as Next does when it finds no frame: from the start of
    * the file, its seek for the record ends at the record exactly when the stop was on a frame boundary.
    */
  lemma SoughtRecordIsFoundIff(base: nat, recs: seq<Record>, m: nat, c: nat, q: nat, rec: Record)
    requires Fits(base, recs) && m <= Size(recs) && c == Complete(recs, m) && base + c <= q
    requires q < Pow256(7) && Written(rec) && |rec| < LEN_LIMIT
    ensures var data := Encode(base, recs)[..m] + Frame(q, rec);
            FrameAt(data, SeekFrom(data, 0, q)) == Some((q, rec)) <==> m == Size(recs[..c])
  {
    hide Encode, Frame, Size, Complete, FrameAt, SeekFrom;
    var data, off := Encode(base, recs)[..m] + Frame(q, rec), Size(recs[..c]);
    NothingBefore(recs);
    SeekPasses(base, recs, m, 0, Frame(q, rec), q);
    NextRecordIsFoundIff(base, recs, m, c, q, rec);
    if m == off {
      SeekStopsAtFrame(data, off, q, rec);
    } else {
      SeekAtTorn(base, recs, m, c, Frame(q, rec), q);
      var p := SeekFrom(data, off, q);
      if p > m {
        NoRoom(data, p, q, rec);
      }
    }
  }

  lemma NothingBefore(recs: seq<Record>)
    ensures Size(recs[..0]) == 0
  {
  }

  /**
    * A journal of two records stopped after the first byte of the second frame. The scan finds sequence 0, so
    * the next record gets sequence 1; the segment is not well formed and that record is not found.
    */
  lemma TornSecondRecord()
    ensures var rec: Record := seq(HEADER, _ => 65);
            var m := Size([rec]) + 1;
            && Complete([rec, rec], m) == 1 && ScanHighest(Encode(0, [rec, rec])[..m], 0, 0) == 0
            && Encode(0, [rec, rec])[..m] + Frame(1, rec) != Encode(0, [rec, rec])
            && var data := Encode(0, [rec, rec])[..m] + Frame(1, rec);
            && FrameAt(data, Size([rec])) != Some((1, rec))
            && FrameAt(data, SeekFrom(data, 0, 1)) != Some((1, rec))
  {
    hide FrameAt, Encode, Frame, ScanHighest, SeekFrom;
    var rec: Record := seq(HEADER, _ => 65);
    var recs := [rec, rec];
    var m := Size([rec]) + 1;
    assert [rec][1..] == [] && recs[1..] == [rec] && recs[..1] == [rec];
    assert Complete([rec], 1) == 0;
    Pow256Values();
    HighestSeqOfPrefix(0, recs, m);
    AppendAfterTornTail(0, recs, m, 1, rec);
    assert [rec] + [rec] == recs;
    NextRecordIsFoundIff(0, recs, m, 1, 1, rec);
    SoughtRecordIsFoundIff(0, recs, m, 1, 1, rec);
  }

  // ---- one turn of Next on the only segment ----

  /** What a turn of Next's loop does: deliver, report the end, wait, or go round with a file opened and an offset. */
  datatype Turn = Delivers(seqNo: nat, rec: Record) | Ends | Waits | Again(seqNo: nat, off: nat)

  /** The turn on a journal of one segment: its bytes, its base, the next sequence, and where the reader stands. */
  function NextTurn(data: seq<byte>, base: nat, nextSeq: nat, closed: bool, seqNo: nat, off: Option<nat>): Turn {
    if off.Some? && FrameAt(data, off.value).Some? then
      var frame := FrameAt(data, off.value).value;
      Delivers(frame.0, frame.1)
    else if closed && seqNo >= nextSeq then Ends
    else if seqNo < base then Again(base, SeekFrom(data, 0, base))
    else if seqNo < nextSeq then Again(seqNo, SeekFrom(data, 0, seqNo))
    else Waits
  }

  /** In a stopped segment, a seek for the sequence of a whole frame lands on it. */
  lemma {:induction false} SeekInStopped(base: nat, recs: seq<Record>, m: nat, j: nat, k: nat)
    requires Fits(base, recs) && m <= Size(recs) && j <= k < Complete(recs, m)
    ensures SeekFrom(Encode(base, recs)[..m], Size(recs[..j]), base + k) == Size(recs[..k])
    decreases k - j
  {
    hide Encode, Size, Complete, HeaderSeq, HeaderLen;
    SizeStep(recs, j);
    SizeMonotone(recs, j + 1, Complete(recs, m));
    HeaderAtBoundary(base, recs, m, j);
    if j < k {
      SeekInStopped(base, recs, m, j + 1, k);
    }
  }

  /**
    * After recovery from a stop at any byte, a reader that has opened the segment and sought its sequence goes
    * round for ever, on a closed journal too, exactly when the segment is the first one, has no whole frame,
    * and the reader waits for record 0: recovery counts that record as written.
    */
  lemma NextSpinsIff(base: nat, recs: seq<Record>, m: nat, closed: bool, seqNo: nat)
    requires Fits(base, recs) && m <= Size(recs) && base <= seqNo
    ensures var data := Encode(base, recs)[..m];
            var off := SeekFrom(data, 0, seqNo);
            NextTurn(data, base, NextAfter(data, base), closed, seqNo, Some(off)) == Again(seqNo, off) <==>
            base == 0 && Complete(recs, m) == 0 && seqNo == 0
  {
    hide Encode, Size, Complete, FrameAt, SeekFrom, NextAfter;
    var data, c := Encode(base, recs)[..m], Complete(recs, m);
    NextAfterStop(base, recs, m);
    NothingBefore(recs);
    if seqNo < base + c {
      SeekInStopped(base, recs, m, 0, seqNo - base);
      FrameAtBoundary(base, recs, m, seqNo - base);
      SizeMonotone(recs, seqNo - base + 1, c);
    } else if base == 0 && c == 0 && seqNo == 0 {
      SeekZero(data);
      FrameAtBoundary(base, recs, m, 0);
    }
  }

  /** An empty first segment of a closed journal: the next turn is the same. */
  lemma EmptyFirstSegmentSpins()
    ensures NextAfter([], 0) == 1
    ensures NextTurn([], 0, 1, true, 0, Some(0)) == Again(0, 0)
  {
  }

  lemma SeekZero(data: seq<byte>)
    ensures SeekFrom(data, 0, 0) == 0
  {
  }
}
