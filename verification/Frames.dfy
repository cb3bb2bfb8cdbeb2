/** The on-disk format of a journal segment: frames of an 8-byte sequence, a 4-byte length and a payload. */
module Frames {
  import opened Bytes
  import opened Wrappers

  /** A record as the journal stores it: its encoded bytes. */
  type Record = seq<byte>

  const HEADER := 12
  const SEQ_LIMIT := 0x1_0000_0000_0000_0000
  const LEN_LIMIT := 0x1_0000_0000

  /** Sequences fit in 64 bits and payload lengths in 32. */
  ghost predicate Fits(base: nat, recs: seq<Record>) {
    base + |recs| <= SEQ_LIMIT && forall i :: 0 <= i < |recs| ==> |recs[i]| < LEN_LIMIT
  }

  function Frame(seqNo: nat, rec: Record): (f: seq<byte>)
    ensures |f| == HEADER + |rec|
  {
    BigEndian(seqNo, 8) + BigEndian(|rec|, 4) + rec
  }

  /** The bytes of a segment whose first record has sequence `base`. */
  function Encode(base: nat, recs: seq<Record>): (data: seq<byte>)
    ensures |data| == Size(recs)
    decreases recs
  {
    if recs == [] then [] else Frame(base, recs[0]) + Encode(base + 1, recs[1..])
  }

  function Size(recs: seq<Record>): nat {
    if recs == [] then 0 else HEADER + |recs[0]| + Size(recs[1..])
  }

  // ---- reading at an offset ----

  predicate HasHeader(data: seq<byte>, off: nat) { off + HEADER <= |data| }

  function HeaderSeq(data: seq<byte>, off: nat): nat
    requires HasHeader(data, off)
  {
    FromBigEndian(data[off..off + 8])
  }

  function HeaderLen(data: seq<byte>, off: nat): nat
    requires HasHeader(data, off)
  {
    FromBigEndian(data[off + 8..off + HEADER])
  }

  /** What a reader finds at `off`: the sequence and payload of a complete frame, or nothing. */
  function FrameAt(data: seq<byte>, off: nat): Option<(nat, Record)> {
    if !HasHeader(data, off) then None
    else
      var end := off + HEADER + HeaderLen(data, off);
      if end > |data| then None else Some((HeaderSeq(data, off), data[off + HEADER..end]))
  }

  /** The last sequence of the complete frames from `off` on, or `hi` when there is none. */
  function ScanHighest(data: seq<byte>, off: nat, hi: nat): nat
    decreases |data| - off
  {
    match FrameAt(data, off)
    case None => hi
    case Some((s, rec)) => ScanHighest(data, off + HEADER + |rec|, s)
  }

  /** The offset of the first frame from `off` on whose sequence is at least `target`. */
  function SeekFrom(data: seq<byte>, off: nat, target: nat): nat
    decreases |data| - off
  {
    if !HasHeader(data, off) || HeaderSeq(data, off) >= target then off
    else SeekFrom(data, off + HEADER + HeaderLen(data, off), target)
  }

  /** Reads one frame of a file at an offset; the header is read first, then the payload. */
  method ReadFrame(data: seq<byte>, off: nat) returns (seqNo: nat, rec: Record, advance: nat, ok: bool)
    ensures ok <==> FrameAt(data, off).Some?
    ensures ok ==> FrameAt(data, off) == Some((seqNo, rec)) && advance == HEADER + |rec|
  {
    seqNo, rec, advance, ok := 0, [], 0, false;
    if off + HEADER > |data| {
      return;
    }
    var length := FromBigEndian(data[off + 8..off + HEADER]);
    if off + HEADER + length > |data| {
      return;
    }
    seqNo := FromBigEndian(data[off..off + 8]);
    rec := data[off + HEADER..off + HEADER + length];
    advance := HEADER + length;
    ok := true;
  }

  /** Scans a segment for its highest sequence, stopping at a torn frame. */
  method HighestSeq(data: seq<byte>) returns (hi: nat)
    ensures hi == ScanHighest(data, 0, 0)
  {
    hi := 0;
    var off := 0;
    while off + HEADER <= |data|
      invariant ScanHighest(data, off, hi) == ScanHighest(data, 0, 0)
      decreases |data| - off
    {
      var seqNo := FromBigEndian(data[off..off + 8]);
      var length := FromBigEndian(data[off + 8..off + HEADER]);
      var recEnd := off + HEADER + length;
      if recEnd > |data| {
        break;
      }
      hi := seqNo;
      off := recEnd;
    }
  }

  /** Positions a freshly opened segment at the first frame with sequence >= target. */
  method Seek(data: seq<byte>, target: nat) returns (off: nat)
    ensures off == SeekFrom(data, 0, target)
  {
    off := 0;
    while off + HEADER <= |data|
      invariant SeekFrom(data, off, target) == SeekFrom(data, 0, target)
      decreases |data| - off
    {
      var seqNo := FromBigEndian(data[off..off + 8]);
      if seqNo >= target {
        break;
      }
      var length := FromBigEndian(data[off + 8..off + HEADER]);
      off := off + HEADER + length;
    }
  }

  // ---- the format read back ----

  lemma {:induction false} SizeOfConcat(a: seq<Record>, b: seq<Record>)
    ensures Size(a + b) == Size(a) + Size(b)
  {
    if a == [] {
      assert a + b == b;
    } else {
      assert (a + b)[1..] == a[1..] + b;
      SizeOfConcat(a[1..], b);
    }
  }

  lemma {:induction false} EncodeConcat(base: nat, a: seq<Record>, b: seq<Record>)
    ensures Encode(base, a + b) == Encode(base, a) + Encode(base + |a|, b)
    decreases a
  {
    hide Frame;
    if a == [] {
      assert a + b == b;
    } else {
      assert (a + b)[1..] == a[1..] + b;
      EncodeConcat(base + 1, a[1..], b);
    }
  }

  lemma SizeStep(recs: seq<Record>, k: nat)
    requires k < |recs|
    ensures Size(recs[..k + 1]) == Size(recs[..k]) + HEADER + |recs[k]|
    ensures Size(recs[..k + 1]) <= Size(recs)
  {
    SizeOfConcat(recs[..k], [recs[k]]);
    assert recs[..k + 1] == recs[..k] + [recs[k]];
    SizeOfConcat(recs[..k + 1], recs[k + 1..]);
    assert recs == recs[..k + 1] + recs[k + 1..];
  }

  lemma {:induction false} SizeZero(recs: seq<Record>)
    ensures Size(recs) == 0 <==> recs == []
  {
  }

  lemma SizeOfOne(rec: Record)
    ensures Size([rec]) == HEADER + |rec|
  {
  }

  /** The bytes of frame `k` lie at offset Size(recs[..k]) of the segment. */
  lemma FrameBytes(base: nat, recs: seq<Record>, k: nat)
    requires k < |recs|
    ensures Size(recs[..k + 1]) <= Size(recs)
    ensures Size(recs[..k + 1]) == Size(recs[..k]) + HEADER + |recs[k]|
    ensures Encode(base, recs)[Size(recs[..k])..Size(recs[..k + 1])] == Frame(base + k, recs[k])
  {
    hide Frame, Size;
    SizeStep(recs, k);
    assert recs == recs[..k] + recs[k..];
    EncodeConcat(base, recs[..k], recs[k..]);
    assert recs[k..][0] == recs[k];
  }

  /** A header read where a frame begins gives that frame's sequence and length. */
  lemma HeaderRead(data: seq<byte>, off: nat, s: nat, rec: Record)
    requires HasHeader(data, off) && s < SEQ_LIMIT && |rec| < LEN_LIMIT
    requires data[off..off + HEADER] == Frame(s, rec)[..HEADER]
    ensures HeaderSeq(data, off) == s && HeaderLen(data, off) == |rec|
  {
    assert data[off..off + 8] == data[off..off + HEADER][..8] == BigEndian(s, 8);
    assert data[off + 8..off + HEADER] == data[off..off + HEADER][8..] == BigEndian(|rec|, 4);
    Pow256Values();
    BigEndianRoundTrip(s, 8);
    BigEndianRoundTrip(|rec|, 4);
  }

  /** In every byte prefix of a segment, a header readable at the k-th frame boundary is frame k's header. */
  lemma HeaderAtBoundary(base: nat, recs: seq<Record>, m: nat, k: nat)
    requires Fits(base, recs)
    requires m <= Size(recs) && k <= |recs|
    requires HasHeader(Encode(base, recs)[..m], Size(recs[..k]))
    ensures k < |recs|
    ensures HeaderSeq(Encode(base, recs)[..m], Size(recs[..k])) == base + k
    ensures HeaderLen(Encode(base, recs)[..m], Size(recs[..k])) == |recs[k]|
  {
    hide HeaderSeq, HeaderLen, Encode, Size;
    assert recs[..|recs|] == recs;
    var off := Size(recs[..k]);
    FrameBytes(base, recs, k);
    var whole := Encode(base, recs);
    var f := whole[off..Size(recs[..k + 1])];
    assert whole[..m][off..off + HEADER] == whole[off..off + HEADER] == f[..HEADER];
    HeaderRead(whole[..m], off, base + k, recs[k]);
  }

  /** In every byte prefix of a segment, at the k-th frame boundary, there is exactly frame k if it is complete. */
  lemma FrameAtBoundary(base: nat, recs: seq<Record>, m: nat, k: nat)
    requires Fits(base, recs)
    requires m <= Size(recs) && k <= |recs|
    ensures FrameAt(Encode(base, recs)[..m], Size(recs[..k])) ==
            if k < |recs| && Size(recs[..k + 1]) <= m then Some((base + k, recs[k])) else None
  {
    hide HeaderSeq, HeaderLen, Encode, Size;
    var whole := Encode(base, recs);
    var off := Size(recs[..k]);
    if HasHeader(whole[..m], off) {
      HeaderAtBoundary(base, recs, m, k);
      FrameBytes(base, recs, k);
      if Size(recs[..k + 1]) <= m {
        var f := whole[off..Size(recs[..k + 1])];
        assert whole[..m][off + HEADER..off + HEADER + |recs[k]|] == f[HEADER..];
        assert Frame(base + k, recs[k])[HEADER..] == recs[k];
      }
    } else if k < |recs| {
      FrameBytes(base, recs, k);
    }
  }

  /** How many whole frames of `recs` lie within the first `m` bytes. */
  function Complete(recs: seq<Record>, m: nat): (c: nat)
    ensures c <= |recs|
    ensures Size(recs[..c]) <= m
    ensures c < |recs| ==> m < Size(recs[..c + 1])
  {
    if recs == [] || m < HEADER + |recs[0]| then
      (assert recs != [] ==> recs[..1][0] == recs[0]; 0)
    else
      var c := 1 + Complete(recs[1..], m - HEADER - |recs[0]|);
      assert recs[..c][1..] == recs[1..][..c - 1];
      assert c < |recs| ==> recs[..c + 1][1..] == recs[1..][..c];
      c
  }

  /**
    * Crash tolerance of the scan: on every byte prefix of a segment, from any frame boundary, the scan
    * returns the sequence of the last complete frame (or what it started with when none is complete).
    */
  lemma {:induction false} ScanOfPrefix(base: nat, recs: seq<Record>, m: nat, k: nat, hi: nat)
    requires Fits(base, recs)
    requires m <= Size(recs) && k <= Complete(recs, m)
    ensures Size(recs[..k]) <= m
    ensures ScanHighest(Encode(base, recs)[..m], Size(recs[..k]), hi) ==
            if k < Complete(recs, m) then base + Complete(recs, m) - 1 else hi
    decreases Complete(recs, m) - k
  {
    hide FrameAt, Frame, Encode, Size, Complete;
    var c := Complete(recs, m);
    SizeMonotone(recs, k, c);
    FrameAtBoundary(base, recs, m, k);
    var data, off := Encode(base, recs)[..m], Size(recs[..k]);
    if k < c {
      SizeMonotone(recs, k + 1, c);
      SizeStep(recs, k);
      assert FrameAt(data, off) == Some((base + k, recs[k]));
      assert ScanHighest(data, off, hi) == ScanHighest(data, off + HEADER + |recs[k]|, base + k);
      ScanOfPrefix(base, recs, m, k + 1, base + k);
    } else {
      assert FrameAt(data, off) == None;
    }
  }

  lemma {:induction false} SizeMonotone(recs: seq<Record>, i: nat, j: nat)
    requires i <= j <= |recs|
    ensures Size(recs[..i]) <= Size(recs[..j])
    ensures i < j ==> Size(recs[..i]) < Size(recs[..j])
  {
    assert recs[..j] == recs[..i] + recs[i..j];
    SizeOfConcat(recs[..i], recs[i..j]);
    SizeZero(recs[i..j]);
  }

  /** highestSeq finds the last complete frame of every torn segment that has one, and 0 otherwise. */
  lemma HighestSeqOfPrefix(base: nat, recs: seq<Record>, m: nat)
    requires Fits(base, recs) && m <= Size(recs)
    ensures ScanHighest(Encode(base, recs)[..m], 0, 0) ==
            if Complete(recs, m) == 0 then 0 else base + Complete(recs, m) - 1
  {
    assert recs[..0] == [];
    ScanOfPrefix(base, recs, m, 0, 0);
  }

  /** Seeking in a well-formed segment lands on the frame of `target`, or on the end if it has none. */
  lemma {:induction false} SeekLands(base: nat, recs: seq<Record>, k: nat, target: nat)
    requires Fits(base, recs)
    requires k <= |recs| && base + k <= target
    ensures SeekFrom(Encode(base, recs), Size(recs[..k]), target) == Size(recs[..Min(target - base, |recs|)])
    decreases |recs| - k
  {
    hide HeaderSeq, HeaderLen, Frame;
    var data := Encode(base, recs);
    assert data[..Size(recs)] == data;
    SizeMonotone(recs, k, |recs|);
    assert recs[..|recs|] == recs;
    if k < |recs| {
      FrameBytes(base, recs, k);
      HeaderAtBoundary(base, recs, Size(recs), k);
      if base + k < target {
        SizeStep(recs, k);
        SeekLands(base, recs, k + 1, target);
      }
    }
  }

  /** A segment's bytes determine its records: two lists with equal bytes are equal. */
  lemma {:induction false} EncodeInjective(base: nat, a: seq<Record>, b: seq<Record>)
    requires Fits(base, a) && Fits(base, b)
    requires Encode(base, a) == Encode(base, b)
    ensures a == b
    decreases a
  {
    SizeZero(a);
    SizeZero(b);
    if a != [] && b != [] {
      assert a[..0] == [] && b[..0] == [];
      SizeStep(a, 0);
      SizeStep(b, 0);
      assert a[..1] == [a[0]] && b[..1] == [b[0]];
      assert Encode(base, a)[..Size(a)] == Encode(base, a);
      assert Encode(base, b)[..Size(b)] == Encode(base, b);
      FrameAtBoundary(base, a, Size(a), 0);
      FrameAtBoundary(base, b, Size(b), 0);
      assert a[0] == b[0];
      assert Encode(base + 1, a[1..]) == Encode(base, a)[HEADER + |a[0]|..];
      assert Encode(base + 1, b[1..]) == Encode(base, b)[HEADER + |b[0]|..];
      assert Fits(base + 1, a[1..]) && Fits(base + 1, b[1..]);
      EncodeInjective(base + 1, a[1..], b[1..]);
    }
  }

  lemma PrefixOfEncode(base: nat, recs: seq<Record>, c: nat)
    requires c <= |recs|
    ensures Size(recs[..c]) <= Size(recs)
    ensures Encode(base, recs)[..Size(recs[..c])] == Encode(base, recs[..c])
  {
    EncodeConcat(base, recs[..c], recs[c..]);
    assert recs == recs[..c] + recs[c..];
  }

  /** Appending a frame to a segment is appending a record to its list. */
  lemma EncodeSnoc(base: nat, recs: seq<Record>, rec: Record)
    ensures Encode(base, recs) + Frame(base + |recs|, rec) == Encode(base, recs + [rec])
    ensures Size(recs + [rec]) == Size(recs) + HEADER + |rec|
  {
    EncodeConcat(base, recs, [rec]);
    SizeOfConcat(recs, [rec]);
    assert [rec][1..] == [];
  }

  /**
    * The limit of recovery: the segment is reopened for append without truncation. The next frame written
    * makes it a well-formed segment of the complete records plus the new one exactly when nothing of a
    * torn frame was left behind.
    */
  lemma AppendAfterTornTail(base: nat, recs: seq<Record>, m: nat, c: nat, rec: Record)
    requires Fits(base, recs) && m <= Size(recs)
    requires c == Complete(recs, m)
    ensures Encode(base, recs)[..m] + Frame(base + c, rec) == Encode(base, recs[..c] + [rec]) <==> m == Size(recs[..c])
  {
    hide Encode, Frame, Size;
    EncodeSnoc(base, recs[..c], rec);
    if m == Size(recs[..c]) {
      PrefixOfEncode(base, recs, c);
    } else {
      assert |Encode(base, recs)[..m] + Frame(base + c, rec)| != Size(recs[..c] + [rec]);
    }
  }
}
