/**
  * Docker's multiplexed log stream (internal/input/docker.go): frames of an eight-byte header and a
  * payload, whose bytes are cut into lines per stream type.
  */
module Docker {
  import opened Bytes
  import opened Sequences

  const LF: byte := 10
  const CR: byte := 13
  const HEADER := 8

  /** An emitted line and the name of its stream. */
  datatype Line = Line(stream: string, text: seq<byte>)

  function StreamName(kind: byte): string { if kind == 2 then "stderr" else "stdout" }

  // ---- cutting bytes into lines ----

  /** All trailing carriage returns are trimmed. */
  function TrimCR(s: seq<byte>): seq<byte> {
    if s != [] && s[|s| - 1] == CR then TrimCR(s[..|s| - 1]) else s
  }

  /** The segments of s that end in a newline, and what follows the last newline. */
  function Segments(s: seq<byte>): seq<seq<byte>> {
    if s == [] then []
    else if s[|s| - 1] == LF then Segments(s[..|s| - 1]) + [Rest(s[..|s| - 1])]
    else Segments(s[..|s| - 1])
  }

  function Rest(s: seq<byte>): seq<byte> {
    if s == [] || s[|s| - 1] == LF then [] else Rest(s[..|s| - 1]) + [s[|s| - 1]]
  }

  /** The lines a reader of the whole text expects: every terminated segment, trimmed, unless that leaves nothing. */
  function Lines(s: seq<byte>): seq<seq<byte>> { Kept(Segments(s)) }

  function Kept(segments: seq<seq<byte>>): seq<seq<byte>> {
    if segments == [] then []
    else
      var line := TrimCR(segments[|segments| - 1]);
      Kept(segments[..|segments| - 1]) + if line == [] then [] else [line]
  }

  function Joined(segments: seq<seq<byte>>): seq<byte> {
    if segments == [] then [] else Joined(segments[..|segments| - 1]) + segments[|segments| - 1] + [LF]
  }

  /** The segments are the text: joined with newlines, the rest behind them, they give it back; none holds a newline. */
  lemma {:induction false} SegmentsAreTheText(s: seq<byte>)
    ensures s == Joined(Segments(s)) + Rest(s)
    ensures LF !in Rest(s)
    ensures forall i :: 0 <= i < |Segments(s)| ==> LF !in Segments(s)[i]
  {
    SegmentsHoldNoNewline(s);
    if s != [] {
      var init := s[..|s| - 1];
      SegmentsAreTheText(init);
      assert s == init + [s[|s| - 1]];
      if s[|s| - 1] == LF {
        JoinedSnoc(Segments(init), Rest(init));
      }
    }
  }

  lemma JoinedSnoc(segments: seq<seq<byte>>, last: seq<byte>)
    ensures Joined(segments + [last]) == Joined(segments) + last + [LF]
  {
  }

  lemma {:induction false} SegmentsHoldNoNewline(s: seq<byte>)
    ensures LF !in Rest(s)
    ensures forall i :: 0 <= i < |Segments(s)| ==> LF !in Segments(s)[i]
  {
    if s != [] {
      SegmentsHoldNoNewline(s[..|s| - 1]);
    }
  }

  lemma {:induction false} TrimTrims(s: seq<byte>)
    ensures TrimCR(s) <= s
    ensures forall i :: |TrimCR(s)| <= i < |s| ==> s[i] == CR
    ensures TrimCR(s) != [] ==> TrimCR(s)[|TrimCR(s)| - 1] != CR
  {
    if s != [] && s[|s| - 1] == CR {
      TrimTrims(s[..|s| - 1]);
    }
  }

  /** Text that arrives in two pieces: the second one continues the rest of the first. */
  lemma {:induction false} SegmentsOfConcat(a: seq<byte>, b: seq<byte>)
    ensures Segments(a + b) == Segments(a) + Segments(Rest(a) + b)
    ensures Rest(a + b) == Rest(Rest(a) + b)
    decreases |b|
  {
    hide Segments, Rest;
    if b == [] {
      assert a + b == a && Rest(a) + b == Rest(a);
      RestHasNoSegments(a);
    } else {
      var init, x := b[..|b| - 1], b[|b| - 1];
      SegmentsOfConcat(a, init);
      LastOfConcat(a, b);
      LastOfConcat(Rest(a), b);
      SegmentsStep(a + b);
      SegmentsStep(Rest(a) + b);
      var more := Segments(Rest(a) + init);
      Associates(Segments(a), more, [Rest(Rest(a) + init)]);
    }
  }

  /** What the last byte of a text adds. */
  lemma SegmentsStep(s: seq<byte>)
    requires s != []
    ensures var init := s[..|s| - 1];
            if s[|s| - 1] == LF then Segments(s) == Segments(init) + [Rest(init)] && Rest(s) == []
            else Segments(s) == Segments(init) && Rest(s) == Rest(init) + [s[|s| - 1]]
  {
  }

  lemma LastOfConcat(a: seq<byte>, b: seq<byte>)
    requires b != []
    ensures (a + b)[|a + b| - 1] == b[|b| - 1] && (a + b)[..|a + b| - 1] == a + b[..|b| - 1]
  {
  }

  lemma {:induction false} RestHasNoSegments(s: seq<byte>)
    ensures Segments(Rest(s)) == [] && Rest(Rest(s)) == Rest(s)
  {
    if s != [] && s[|s| - 1] != LF {
      RestHasNoSegments(s[..|s| - 1]);
      assert Rest(s)[..|Rest(s)| - 1] == Rest(s[..|s| - 1]);
    }
  }

  lemma {:induction false} KeptConcat(a: seq<seq<byte>>, b: seq<seq<byte>>)
    ensures Kept(a + b) == Kept(a) + Kept(b)
    decreases |b|
  {
    if b == [] {
      assert a + b == a;
    } else {
      var init := b[..|b| - 1];
      assert (a + b)[..|a + b| - 1] == a + init;
      KeptConcat(a, init);
    }
  }

  lemma LinesOfConcat(a: seq<byte>, b: seq<byte>)
    ensures Lines(a + b) == Lines(a) + Lines(Rest(a) + b)
    ensures Rest(a + b) == Rest(Rest(a) + b)
  {
    SegmentsOfConcat(a, b);
    KeptConcat(Segments(a), Segments(Rest(a) + b));
  }

  /** A segment and its newline in front of more text. */
  lemma {:induction false} FirstSegment(line: seq<byte>, more: seq<byte>)
    requires LF !in line
    ensures Segments(line) == [] && Rest(line) == line
    ensures Segments(line + [LF] + more) == [line] + Segments(more)
    ensures Rest(line + [LF] + more) == Rest(more)
  {
    NoNewline(line);
    var ended := line + [LF];
    assert ended[..|ended| - 1] == line;
    SegmentsOfConcat(ended, more);
    assert [] + more == more;
  }

  lemma {:induction false} NoNewline(line: seq<byte>)
    requires LF !in line
    ensures Segments(line) == [] && Rest(line) == line
  {
    if line != [] {
      NoNewline(line[..|line| - 1]);
      assert line[..|line| - 1] + [line[|line| - 1]] == line;
    }
  }

  // ---- frames ----

  datatype Frame = Frame(kind: byte, payload: seq<byte>)

  /** The next frame of the stream, and how many bytes it takes; nothing when the stream ends before it does. */
  datatype Next = NoFrame | Next(frame: Frame, size: nat)

  function NextFrame(s: seq<byte>): (n: Next)
    ensures n.Next? ==> HEADER <= n.size <= |s|
  {
    if |s| < HEADER then NoFrame
    else
      var size := FromBigEndian(s[4..8]);
      if |s| < HEADER + size then NoFrame else Next(Frame(s[0], s[HEADER..HEADER + size]), HEADER + size)
  }

  function Frames(s: seq<byte>): seq<Frame>
    decreases |s|
  {
    match NextFrame(s)
    case NoFrame => []
    case Next(f, n) => [f] + Frames(s[n..])
  }

  /** Header: the stream type, three bytes of any value, the size. */
  function EncodeFrame(f: Frame, pad: seq<byte>): seq<byte>
    requires |pad| == 3
  {
    [f.kind] + pad + BigEndian(|f.payload|, 4) + f.payload
  }

  function EncodeFrames(fs: seq<Frame>, pad: seq<byte>): seq<byte>
    requires |pad| == 3
  {
    if fs == [] then [] else EncodeFrame(fs[0], pad) + EncodeFrames(fs[1..], pad)
  }

  predicate FramesFit(fs: seq<Frame>) { forall i :: 0 <= i < |fs| ==> |fs[i].payload| < Pow256(4) }

  lemma NextOfEncoded(f: Frame, pad: seq<byte>, more: seq<byte>)
    requires |pad| == 3 && |f.payload| < Pow256(4)
    ensures NextFrame(EncodeFrame(f, pad) + more) == Next(f, HEADER + |f.payload|)
    ensures (EncodeFrame(f, pad) + more)[HEADER + |f.payload|..] == more
  {
    var s := EncodeFrame(f, pad) + more;
    assert s[0] == f.kind;
    assert s[4..8] == BigEndian(|f.payload|, 4);
    assert s[HEADER..HEADER + |f.payload|] == f.payload;
    BigEndianRoundTrip(|f.payload|, 4);
  }

  /** Reading frames undoes writing them, up to a last one that the stream does not finish. */
  lemma {:induction false} FramesOfEncoded(fs: seq<Frame>, pad: seq<byte>, tail: seq<byte>)
    requires |pad| == 3 && FramesFit(fs) && NextFrame(tail) == NoFrame
    ensures Frames(EncodeFrames(fs, pad) + tail) == fs
  {
    hide EncodeFrame, NextFrame;
    if fs == [] {
      assert EncodeFrames(fs, pad) + tail == tail;
    } else {
      var more := EncodeFrames(fs[1..], pad) + tail;
      assert EncodeFrames(fs, pad) + tail == EncodeFrame(fs[0], pad) + more;
      NextOfEncoded(fs[0], pad, more);
      FramesOfEncoded(fs[1..], pad, tail);
      assert fs == [fs[0]] + fs[1..];
    }
  }

  // ---- the demultiplexer ----

  /** The bytes of one stream type, in the order of the frames. */
  function StreamBytes(fs: seq<Frame>, kind: byte): seq<byte> {
    if fs == [] then []
    else StreamBytes(fs[..|fs| - 1], kind) + if fs[|fs| - 1].kind == kind then fs[|fs| - 1].payload else []
  }

  /** What an emitted line is tagged with here: its stream type, of which the program shows the name only. */
  datatype Emitted = Emitted(kind: byte, text: seq<byte>)

  function Of(out: seq<Emitted>, kind: byte): seq<seq<byte>> {
    if out == [] then []
    else Of(out[..|out| - 1], kind) + if out[|out| - 1].kind == kind then [out[|out| - 1].text] else []
  }

  function Shown(out: seq<Emitted>): seq<Line> {
    seq(|out|, i requires 0 <= i < |out| => Line(StreamName(out[i].kind), out[i].text))
  }

  function Tagged(kind: byte, lines: seq<seq<byte>>): seq<Emitted> {
    if lines == [] then [] else Tagged(kind, lines[..|lines| - 1]) + [Emitted(kind, lines[|lines| - 1])]
  }

  /** All lines in the order in which they are emitted: after each frame, the lines it completes. */
  function EmittedBy(fs: seq<Frame>): seq<Emitted> {
    if fs == [] then []
    else
      var init, f := fs[..|fs| - 1], fs[|fs| - 1];
      EmittedBy(init) + Tagged(f.kind, Lines(Rest(StreamBytes(init, f.kind)) + f.payload))
  }

  lemma {:induction false} OfConcat(a: seq<Emitted>, b: seq<Emitted>, kind: byte)
    ensures Of(a + b, kind) == Of(a, kind) + Of(b, kind)
    decreases |b|
  {
    if b == [] {
      assert a + b == a;
    } else {
      var init := b[..|b| - 1];
      assert (a + b)[..|a + b| - 1] == a + init;
      OfConcat(a, init, kind);
    }
  }

  lemma {:induction false} OfTagged(kind: byte, lines: seq<seq<byte>>, k: byte)
    ensures Of(Tagged(kind, lines), k) == if k == kind then lines else []
  {
    if lines != [] {
      var init := lines[..|lines| - 1];
      OfTagged(kind, init, k);
      var t := Tagged(kind, lines);
      assert t[..|t| - 1] == Tagged(kind, init);
    }
  }

  /**
    * Framing is invisible: however the bytes of the streams are cut into frames and interleaved, the lines
    * of each stream type are those of its concatenated bytes.
    */
  lemma {:induction false} LinesIgnoreFraming(fs: seq<Frame>, kind: byte)
    ensures Of(EmittedBy(fs), kind) == Lines(StreamBytes(fs, kind))
  {
    if fs != [] {
      hide Lines, Rest, Tagged, Of;
      var init, f := fs[..|fs| - 1], fs[|fs| - 1];
      var lines := Lines(Rest(StreamBytes(init, f.kind)) + f.payload);
      LinesIgnoreFraming(init, kind);
      OfConcat(EmittedBy(init), Tagged(f.kind, lines), kind);
      OfTagged(f.kind, lines, kind);
      if f.kind == kind {
        LinesOfConcat(StreamBytes(init, kind), f.payload);
      } else {
        assert StreamBytes(init, kind) + [] == StreamBytes(init, kind);
      }
    }
    else { NothingEmitted(kind); }
  }

  lemma NothingEmitted(kind: byte)
    ensures Of([], kind) == Lines([])
  {
  }

  /** Two ways of framing the same streams emit the same lines on every stream. */
  lemma SameStreamsSameLines(fs: seq<Frame>, gs: seq<Frame>, kind: byte)
    requires StreamBytes(fs, kind) == StreamBytes(gs, kind)
    ensures Of(EmittedBy(fs), kind) == Of(EmittedBy(gs), kind)
  {
    LinesIgnoreFraming(fs, kind);
    LinesIgnoreFraming(gs, kind);
  }

  /** One stream's buffer, rewritten in place by each piece of its data. */
  class LineBuffer {
    var buf: seq<byte>

    constructor ()
      ensures buf == []
    {
      buf := [];
    }

    /** Completes lines with the data and keeps the unterminated rest. */
    method Flush(data: seq<byte>) returns (lines: seq<seq<byte>>)
      modifies this
      ensures lines == Lines(old(buf) + data)
      ensures buf == Rest(old(buf) + data)
    {
      hide Rest, Segments, Kept;
      var s := buf + data;
      ghost var all := s;
      lines := [];
      var i := IndexOf(s, LF);
      while i.Some?
        invariant i == IndexOf(s, LF)
        invariant Lines(all) == lines + Lines(s)
        invariant Rest(all) == Rest(s)
        decreases |s|
      {
        var line := TrimRightCR(s[..i.value]);
        FirstLine(s[..i.value], s[i.value + 1..]);
        assert s == s[..i.value] + [LF] + s[i.value + 1..];
        if line != [] {
          lines := lines + [line];
        }
        s := s[i.value + 1..];
        i := IndexOf(s, LF);
      }
      NoLine(s);
      buf := s;
    }

    static method TrimRightCR(s: seq<byte>) returns (r: seq<byte>)
      ensures r == TrimCR(s)
    {
      r := s;
      while r != [] && r[|r| - 1] == CR
        invariant TrimCR(r) == TrimCR(s)
      {
        r := r[..|r| - 1];
      }
    }
  }

  lemma FirstLine(line: seq<byte>, more: seq<byte>)
    requires LF !in line
    ensures Lines(line + [LF] + more) == (if TrimCR(line) == [] then [] else [TrimCR(line)]) + Lines(more)
    ensures Rest(line + [LF] + more) == Rest(more)
  {
    FirstSegment(line, more);
    KeptConcat([line], Segments(more));
    assert Kept([line]) == if TrimCR(line) == [] then [] else [TrimCR(line)];
  }

  lemma NoLine(s: seq<byte>)
    requires LF !in s
    ensures Lines(s) == [] && Rest(s) == s
  {
    NoNewline(s);
  }

  lemma EmptyFrame(fs: seq<Frame>, f: Frame)
    requires f.payload == []
    ensures EmittedBy(fs + [f]) == EmittedBy(fs)
  {
    hide Lines, Rest;
    assert (fs + [f])[..|fs|] == fs;
    var rest := Rest(StreamBytes(fs, f.kind));
    SegmentsAreTheText(StreamBytes(fs, f.kind));
    assert rest + [] == rest;
    NoLine(rest);
  }

  lemma EmittedSnoc(fs: seq<Frame>, f: Frame)
    ensures EmittedBy(fs + [f]) == EmittedBy(fs) + Tagged(f.kind, Lines(Rest(StreamBytes(fs, f.kind)) + f.payload))
  {
  }

  lemma ShownConcat(a: seq<Emitted>, b: seq<Emitted>)
    ensures Shown(a + b) == Shown(a) + Shown(b)
  {
  }

  function Named(kind: byte, lines: seq<seq<byte>>): seq<Line> {
    seq(|lines|, i requires 0 <= i < |lines| => Line(StreamName(kind), lines[i]))
  }

  lemma {:induction false} ShownTagged(kind: byte, lines: seq<seq<byte>>)
    ensures |Tagged(kind, lines)| == |lines|
    ensures Shown(Tagged(kind, lines)) == Named(kind, lines)
  {
    if lines != [] {
      ShownTagged(kind, lines[..|lines| - 1]);
      ShownConcat(Tagged(kind, lines[..|lines| - 1]), [Emitted(kind, lines[|lines| - 1])]);
    }
  }

  /** The demultiplexer's buffers: one of its own for each stream type met, holding the unterminated rest. */
  ghost predicate BuffersOk(bufs: map<byte, LineBuffer>, fs: seq<Frame>)
    reads bufs.Values
  {
    && (forall k, l :: k in bufs && l in bufs && k != l ==> bufs[k] != bufs[l])
    && (forall k :: k in bufs ==> bufs[k].buf == Rest(StreamBytes(fs, k)))
    && (forall k :: k !in bufs ==> StreamBytes(fs, k) == [])
  }

  lemma StreamGrows(fs: seq<Frame>, f: Frame)
    ensures StreamBytes(fs + [f], f.kind) == StreamBytes(fs, f.kind) + f.payload
    ensures forall k :: k != f.kind || f.payload == [] ==> StreamBytes(fs + [f], k) == StreamBytes(fs, k)
  {
  }

  /** One frame's payload goes through the buffer of its stream type, made when the type is new. */
  method Deliver(known: map<byte, LineBuffer>, f: Frame, ghost fs: seq<Frame>)
    returns (bufs: map<byte, LineBuffer>, lines: seq<Line>)
    requires BuffersOk(known, fs)
    modifies known.Values
    ensures BuffersOk(bufs, fs + [f])
    ensures forall k :: k in bufs ==> (k in known && bufs[k] == known[k]) || fresh(bufs[k])
    ensures lines == Named(f.kind, Lines(Rest(StreamBytes(fs, f.kind)) + f.payload))
  {
    hide Lines, Rest, StreamBytes, Named;
    bufs := known;
    if f.kind !in bufs {
      var b := new LineBuffer();
      RestOfNothing();
      bufs := bufs[f.kind := b];
    }
    StreamGrows(fs, f);
    RestOfConcat(StreamBytes(fs, f.kind), f.payload);
    var texts := bufs[f.kind].Flush(f.payload);
    lines := Named(f.kind, texts);
  }

  lemma FramesUnfold(r: seq<byte>)
    ensures |r| < HEADER || |r| < HEADER + FromBigEndian(r[4..8]) ==> Frames(r) == []
    ensures |r| >= HEADER && |r| >= HEADER + FromBigEndian(r[4..8]) ==>
              var n := HEADER + FromBigEndian(r[4..8]);
              Frames(r) == [Frame(r[0], r[HEADER..n])] + Frames(r[n..])
  {
    hide FromBigEndian;
  }

  /** One turn of the loop: the frame at the head of the rest joins those before it. */
  lemma FramesStep(fs: seq<Frame>, r: seq<byte>)
    ensures |r| < HEADER || |r| < HEADER + FromBigEndian(r[4..8]) ==> fs + Frames(r) == fs
    ensures |r| >= HEADER && |r| >= HEADER + FromBigEndian(r[4..8]) ==>
              var n := HEADER + FromBigEndian(r[4..8]);
              fs + Frames(r) == fs + [Frame(r[0], r[HEADER..n])] + Frames(r[n..])
  {
    hide FromBigEndian, Frames;
    FramesUnfold(r);
    if |r| < HEADER || |r| < HEADER + FromBigEndian(r[4..8]) {
      assert fs + [] == fs;
    } else {
      var n := HEADER + FromBigEndian(r[4..8]);
      Associates(fs, [Frame(r[0], r[HEADER..n])], Frames(r[n..]));
    }
  }

  /** Reads a finished stream to its end, or to the frame it breaks off in. */
  method Demux(s: seq<byte>) returns (out: seq<Line>)
    ensures out == Shown(EmittedBy(Frames(s)))
  {
    hide Lines, Rest, EmittedBy, StreamBytes, Shown, Tagged, Named, FromBigEndian, Frames;
    var b1 := new LineBuffer();
    var b2 := new LineBuffer();
    var bufs: map<byte, LineBuffer> := map[1 := b1, 2 := b2];
    ghost var fs: seq<Frame> := [];
    var r := s;
    out := [];
    NothingYet();
    while true
      invariant Frames(s) == fs + Frames(r)
      invariant out == Shown(EmittedBy(fs))
      invariant forall k :: k in bufs ==> fresh(bufs[k])
      invariant BuffersOk(bufs, fs)
      decreases |r|
    {
      FramesStep(fs, r);
      if |r| < HEADER {
        return;
      }
      var kind, size := r[0], FromBigEndian(r[4..8]);
      if |r| < HEADER + size {
        return;
      }
      var payload := r[HEADER..HEADER + size];
      var f := Frame(kind, payload);
      r := r[HEADER + size..];
      if size == 0 {
        EmptyFrame(fs, f);
        StreamGrows(fs, f);
      } else {
        var lines;
        bufs, lines := Deliver(bufs, f, fs);
        out := out + lines;
        EmittedSnoc(fs, f);
        ShownConcat(EmittedBy(fs), Tagged(kind, Lines(Rest(StreamBytes(fs, kind)) + payload)));
        ShownTagged(kind, Lines(Rest(StreamBytes(fs, kind)) + payload));
      }
      fs := fs + [f];
    }
  }

  lemma RestOfConcat(a: seq<byte>, b: seq<byte>)
    ensures Rest(a + b) == Rest(Rest(a) + b)
  {
    LinesOfConcat(a, b);
  }

  lemma RestOfNothing()
    ensures Rest([]) == []
  {
  }

  lemma NothingYet()
    ensures Shown(EmittedBy([])) == []
    ensures forall k :: StreamBytes([], k) == []
    ensures Rest([]) == []
  {
  }

  /**
    * End to end: frames written in any way, then a stream that ends in the middle of one more, emit on each
    * stream type the lines of its bytes.
    */
  lemma DemuxUndoesFraming(fs: seq<Frame>, pad: seq<byte>, tail: seq<byte>, kind: byte)
    requires |pad| == 3 && FramesFit(fs) && NextFrame(tail) == NoFrame
    ensures Of(EmittedBy(Frames(EncodeFrames(fs, pad) + tail)), kind) == Lines(StreamBytes(fs, kind))
  {
    FramesOfEncoded(fs, pad, tail);
    LinesIgnoreFraming(fs, kind);
  }

  // ---- under the streams' names ----

  /** The texts of the lines shown under a name, in order. */
  function Under(lines: seq<Line>, name: string): seq<seq<byte>> {
    if lines == [] then []
    else Under(lines[..|lines| - 1], name) + if lines[|lines| - 1].stream == name then [lines[|lines| - 1].text] else []
  }

  lemma {:induction false} UnderShown(out: seq<Emitted>, kind: byte, name: string)
    requires forall i :: 0 <= i < |out| ==> (StreamName(out[i].kind) == name <==> out[i].kind == kind)
    ensures Under(Shown(out), name) == Of(out, kind)
    decreases |out|
  {
    hide StreamName;
    if out != [] {
      var init := out[..|out| - 1];
      UnderShown(init, kind, name);
      assert Shown(out)[..|out| - 1] == Shown(init);
    }
  }

  lemma {:induction false} KindsEmitted(fs: seq<Frame>, i: nat)
    requires i < |EmittedBy(fs)|
    ensures exists k :: 0 <= k < |fs| && fs[k].kind == EmittedBy(fs)[i].kind
    decreases |fs|
  {
    hide Lines, Rest, StreamBytes;
    var init, f := fs[..|fs| - 1], fs[|fs| - 1];
    if i < |EmittedBy(init)| {
      KindsEmitted(init, i);
    } else {
      TaggedKind(f.kind, Lines(Rest(StreamBytes(init, f.kind)) + f.payload), i - |EmittedBy(init)|);
      assert fs[|fs| - 1].kind == f.kind;
    }
  }

  lemma {:induction false} TaggedKind(kind: byte, lines: seq<seq<byte>>, i: nat)
    requires i < |Tagged(kind, lines)|
    ensures Tagged(kind, lines)[i].kind == kind
    decreases |lines|
  {
    if i < |Tagged(kind, lines[..|lines| - 1])| {
      TaggedKind(kind, lines[..|lines| - 1], i);
    }
  }

  /**
    * What is shown: frames of type 2 appear as stderr, line by line as their bytes say, and frames of the one
    * other type as stdout.
    */
  lemma DemuxShows(fs: seq<Frame>, pad: seq<byte>, tail: seq<byte>, other: byte)
    requires |pad| == 3 && FramesFit(fs) && NextFrame(tail) == NoFrame
    requires other != 2 && forall i :: 0 <= i < |fs| ==> fs[i].kind == 2 || fs[i].kind == other
    ensures var shown := Shown(EmittedBy(Frames(EncodeFrames(fs, pad) + tail)));
            && Under(shown, "stderr") == Lines(StreamBytes(fs, 2))
            && Under(shown, "stdout") == Lines(StreamBytes(fs, other))
  {
    hide Lines, EmittedBy, StreamBytes, Under, Shown, Of, EncodeFrames, NextFrame, Frames;
    DemuxUndoesFraming(fs, pad, tail, 2);
    DemuxUndoesFraming(fs, pad, tail, other);
    FramesOfEncoded(fs, pad, tail);
    var out := EmittedBy(fs);
    forall i | 0 <= i < |out| ensures out[i].kind == 2 || out[i].kind == other {
      KindsEmitted(fs, i);
    }
    UnderShown(out, 2, "stderr");
    UnderShown(out, other, "stdout");
  }
}
