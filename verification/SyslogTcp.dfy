/**
  * Syslog over TCP (internal/input/syslog.go): octet-counted frames (RFC 6587 section 3.4.1) and
  * newline-terminated messages (section 3.4.2), told apart by the first byte of each.
  */
module SyslogTcp {
  import opened Wrappers
  import opened Bytes
  import opened Sequences

  const LF: byte := 10
  const CR: byte := 13
  const SP: byte := 32
  const TAB: byte := 9
  const MAX_LINE := 0x10_0000

  predicate Digit(b: byte) { 48 <= b <= 57 }

  // ---- trimming and numbers ----

  function TrimCRLF(s: seq<byte>): seq<byte> {
    if s != [] && (s[|s| - 1] == LF || s[|s| - 1] == CR) then TrimCRLF(s[..|s| - 1]) else s
  }

  predicate Blank(b: byte) { b == SP || b == TAB }

  function TrimLeft(s: seq<byte>): seq<byte> {
    if s != [] && Blank(s[0]) then TrimLeft(s[1..]) else s
  }

  function TrimRight(s: seq<byte>): seq<byte> {
    if s != [] && (Blank(s[|s| - 1]) || s[|s| - 1] == LF || s[|s| - 1] == CR) then TrimRight(s[..|s| - 1]) else s
  }

  function Decimal(n: nat): seq<byte> {
    if n < 10 then [48 + n] else Decimal(n / 10) + [48 + n % 10]
  }

  predicate AllDigits(s: seq<byte>) { forall i :: 0 <= i < |s| ==> Digit(s[i]) }

  function Value(s: seq<byte>): nat
    requires AllDigits(s)
  {
    if s == [] then 0
    else
      assert Digit(s[|s| - 1]);
      10 * Value(s[..|s| - 1]) + (s[|s| - 1] as int - 48)
  }

  /** strconv.Atoi on a text that starts with a digit, so without a sign. */
  function Atoi(s: seq<byte>): Option<nat> {
    if s != [] && AllDigits(s) then Some(Value(s)) else None
  }

  lemma {:induction false} DecimalDigits(n: nat)
    ensures Decimal(n) != []
    ensures AllDigits(Decimal(n))
  {
    if n >= 10 {
      DecimalDigits(n / 10);
    }
  }

  lemma {:induction false} DecimalRoundTrip(n: nat)
    ensures Atoi(Decimal(n)) == Some(n)
  {
    DecimalDigits(n);
    if n >= 10 {
      DecimalRoundTrip(n / 10);
      assert Decimal(n)[..|Decimal(n)| - 1] == Decimal(n / 10);
    } else {
      var d := Decimal(n);
      assert d[..0] == [] && Value(d) == 10 * Value(d[..0]) + n;
    }
  }

  // ---- what a connection emits ----

  datatype Octets = Bad | Octets(body: seq<byte>, rest: seq<byte>)

  function ReadOctets(s: seq<byte>): (o: Octets)
    ensures o.Octets? ==> |o.rest| < |s| && 0 < |o.body| <= MAX_LINE
  {
    var i := IndexOf(s, SP);
    if i == None then Bad
    else
      var n := Atoi(TrimRight(TrimLeft(s[..i.value + 1])));
      var after := s[i.value + 1..];
      if n == None || n.value == 0 || n.value > MAX_LINE || n.value > |after| then Bad
      else Octets(after[..n.value], after[n.value..])
  }

  function Emitted(s: seq<byte>): seq<seq<byte>>
    decreases |s|
  {
    if s == [] then []
    else if Digit(s[0]) then
      match ReadOctets(s)
      case Bad => []
      case Octets(body, rest) => [body] + Emitted(rest)
    else
      var i := IndexOf(s, LF);
      if i == None then Line(s) else Line(s[..i.value + 1]) + Emitted(s[i.value + 1..])
  }

  function Line(line: seq<byte>): seq<seq<byte>> {
    if TrimCRLF(line) == [] then [] else [TrimCRLF(line)]
  }

  /** One connection's buffered reader and the messages handed on. */
  class Conn {
    var rest: seq<byte>
    var out: seq<seq<byte>>

    constructor (data: seq<byte>)
      ensures rest == data && out == []
    {
      rest, out := data, [];
    }

    /** Bytes up to and including the delimiter, or all that is left and not ok. */
    method ReadUntil(delim: byte) returns (line: seq<byte>, ok: bool)
      modifies this`rest
      ensures ok == IndexOf(old(rest), delim).Some?
      ensures line == if ok then old(rest)[..IndexOf(old(rest), delim).value + 1] else old(rest)
      ensures rest == old(rest)[|line|..]
    {
      var i := IndexOf(rest, delim);
      if i == None {
        line, ok, rest := rest, false, [];
      } else {
        line, ok, rest := rest[..i.value + 1], true, rest[i.value + 1..];
      }
    }

    method Emit(payload: seq<byte>)
      modifies this`out
      ensures out == if payload == [] then old(out) else old(out) + [payload]
    {
      if payload != [] {
        out := out + [payload];
      }
    }

    method ReadOctetFramed() returns (ok: bool)
      modifies this
      ensures ok == ReadOctets(old(rest)).Octets?
      ensures ok ==> rest == ReadOctets(old(rest)).rest && out == old(out) + [ReadOctets(old(rest)).body]
      ensures !ok ==> out == old(out)
    {
      hide IndexOf;
      var lenStr, found := ReadUntil(SP);
      if !found {
        return false;
      }
      var text := TrimSpace(lenStr);
      var n := Atoi(text);
      if n == None || n.value <= 0 || n.value > MAX_LINE {
        return false;
      }
      if |rest| < n.value {
        return false;
      }
      var buf := rest[..n.value];
      rest := rest[n.value..];
      Emit(buf);
      return true;
    }

    /** Reads the connection to its end, or to the first frame it cannot read. */
    method HandleConn()
      modifies this
      ensures out == old(out) + Emitted(old(rest))
    {
      hide IndexOf, ReadOctets, TrimCRLF, Emitted, Line;
      ghost var before, s := out, rest;
      while rest != []
        invariant before + Emitted(s) == out + Emitted(rest)
        decreases |rest|
      {
        ghost var o := out;
        EmittedStep(rest);
        ghost var tail := Emitted(rest);
        if Digit(rest[0]) {
          var ok := ReadOctetFramed();
          Associates(o, out[|o|..], if ok then Emitted(rest) else []);
          if !ok {
            return;
          }
        } else {
          var line, ok := ReadUntil(LF);
          LineOf(line);
          if line != [] {
            var trimmed := TrimEnd(line);
            Emit(trimmed);
          }
          assert out == o + Line(line);
          Associates(o, Line(line), if ok then Emitted(rest) else []);
          if !ok {
            return;
          }
        }
        assert o + tail == out + Emitted(rest);
      }
      EmittedNothing();
    }

    static method TrimEnd(b: seq<byte>) returns (r: seq<byte>)
      ensures r == TrimCRLF(b)
    {
      r := b;
      while |r| > 0 && (r[|r| - 1] == LF || r[|r| - 1] == CR)
        invariant TrimCRLF(r) == TrimCRLF(b)
      {
        r := r[..|r| - 1];
      }
    }

    static method TrimSpace(s: seq<byte>) returns (r: seq<byte>)
      ensures r == TrimRight(TrimLeft(s))
    {
      hide TrimLeft, TrimRight, Blank;
      var start, end := 0, |s|;
      while start < end && (s[start] == SP || s[start] == TAB)
        invariant 0 <= start <= end == |s|
        invariant TrimLeft(s[start..]) == TrimLeft(s)
      {
        TrimLeftStep(s[start..]);
        assert s[start..][1..] == s[start + 1..];
        start := start + 1;
      }
      TrimLeftStep(s[start..]);
      ghost var t := s[start..];
      assert s[start..end] == t;
      while end > start && (s[end - 1] == SP || s[end - 1] == TAB || s[end - 1] == LF || s[end - 1] == CR)
        invariant start <= end <= |s|
        invariant TrimRight(s[start..end]) == TrimRight(t)
      {
        TrimRightStep(s[start..end]);
        assert s[start..end][..end - start - 1] == s[start..end - 1];
        end := end - 1;
      }
      TrimRightStep(s[start..end]);
      r := s[start..end];
    }
  }

  lemma TrimLeftStep(s: seq<byte>)
    ensures TrimLeft(s) == if s != [] && (s[0] == SP || s[0] == TAB) then TrimLeft(s[1..]) else s
  {
  }

  lemma TrimRightStep(s: seq<byte>)
    ensures TrimRight(s) ==
            if s != [] && (s[|s| - 1] == SP || s[|s| - 1] == TAB || s[|s| - 1] == LF || s[|s| - 1] == CR)
            then TrimRight(s[..|s| - 1]) else s
  {
  }

  lemma LineOf(line: seq<byte>)
    ensures Line(line) == if TrimCRLF(line) == [] then [] else [TrimCRLF(line)]
    ensures line == [] ==> Line(line) == []
  {
  }

  lemma EmittedNothing()
    ensures Emitted([]) == []
  {
  }

  /** One turn of the reading loop. */
  lemma EmittedStep(s: seq<byte>)
    requires s != []
    ensures Digit(s[0]) ==>
              var o := ReadOctets(s);
              if o.Octets? then Emitted(s) == [o.body] + Emitted(o.rest) else Emitted(s) == []
    ensures !Digit(s[0]) ==>
              var i := IndexOf(s, LF);
              if i.None? then Emitted(s) == Line(s)
              else Emitted(s) == Line(s[..i.value + 1]) + Emitted(s[i.value + 1..])
  {
  }

  // ---- the sender ----

  datatype Msg = Counted(body: seq<byte>) | Lined(body: seq<byte>)

  function Encode(m: Msg): seq<byte> {
    match m
    case Counted(b) => Decimal(|b|) + [SP] + b
    case Lined(b) => b + [LF]
  }

  function EncodeAll(ms: seq<Msg>): seq<byte> {
    if ms == [] then [] else Encode(ms[0]) + EncodeAll(ms[1..])
  }

  function Bodies(ms: seq<Msg>): seq<seq<byte>> {
    if ms == [] then [] else [ms[0].body] + Bodies(ms[1..])
  }

  predicate LineOk(b: seq<byte>) { b != [] && !Digit(b[0]) && LF !in b && b[|b| - 1] != CR }

  predicate MsgOk(m: Msg) {
    match m
    case Counted(b) => 1 <= |b| <= MAX_LINE
    case Lined(b) => LineOk(b)
  }

  lemma {:induction false} TrimDigits(d: seq<byte>)
    requires d != [] && AllDigits(d)
    ensures TrimRight(TrimLeft(d + [SP])) == d
  {
  }

  /** An octet-counted frame is read back precisely when its length is within 1 and 2^20; otherwise reading stops. */
  lemma CountedIff(b: seq<byte>, more: seq<byte>)
    ensures Emitted(Encode(Counted(b)) + more) == (if 1 <= |b| <= MAX_LINE then [b] + Emitted(more) else [])
    ensures Emitted(Encode(Counted(b)) + more) == [b] + Emitted(more) <==> MsgOk(Counted(b))
  {
    hide Decimal, Atoi, TrimRight, TrimLeft, IndexOf;
    var d := Decimal(|b|);
    var s := Encode(Counted(b)) + more;
    DecimalDigits(|b|);
    DecimalRoundTrip(|b|);
    TrimDigits(d);
    assert s == d + [SP] + (b + more);
    IndexAfter(d, SP, b + more);
    assert s[..|d| + 1] == d + [SP];
    assert s[|d| + 1..] == b + more;
    assert s[0] == d[0];
    assert (b + more)[..|b|] == b && (b + more)[|b|..] == more;
  }

  lemma {:induction false} TrimLine(b: seq<byte>)
    requires LF !in b
    ensures |TrimCRLF(b)| <= |b|
    ensures TrimCRLF(b) == b <==> b == [] || b[|b| - 1] != CR
    ensures TrimCRLF(b + [LF]) == TrimCRLF(b)
    decreases b
  {
    assert (b + [LF])[..|b|] == b;
    if b != [] && b[|b| - 1] == CR {
      TrimLine(b[..|b| - 1]);
    }
  }

  /** A line that does not begin with a digit. */
  lemma LinedRead(b: seq<byte>, more: seq<byte>)
    requires LF !in b && (b == [] || !Digit(b[0]))
    ensures Emitted(Encode(Lined(b)) + more) == Line(b) + Emitted(more)
  {
    hide IndexOf, TrimCRLF;
    var s := Encode(Lined(b)) + more;
    IndexAfter(b, LF, more);
    assert s == b + [LF] + more;
    assert s[..|b| + 1] == b + [LF] && s[|b| + 1..] == more;
    assert s[0] == if b == [] then LF else b[0];
    TrimLine(b);
  }

  /** A text without a newline is read back as a line, whatever follows it, precisely when it is a legal line. */
  lemma LinedIff(b: seq<byte>)
    requires LF !in b
    ensures LineOk(b) <==> forall more :: Emitted(Encode(Lined(b)) + more) == [b] + Emitted(more)
  {
    hide Emitted;
    if LineOk(b) {
      forall more ensures Emitted(Encode(Lined(b)) + more) == [b] + Emitted(more) {
        LinedRead(b, more);
        TrimLine(b);
      }
    } else {
      NotALine(b);
      assert Emitted(Encode(Lined(b)) + []) != [b] + Emitted([]);
    }
  }

  lemma NotALine(b: seq<byte>)
    requires LF !in b && !LineOk(b)
    ensures Emitted(Encode(Lined(b)) + []) != [b] + Emitted([])
  {
    hide TrimCRLF, ReadOctets;
    var s := Encode(Lined(b)) + [];
    if b == [] || !Digit(b[0]) {
      LinedRead(b, []);
      TrimLine(b);
      assert Line(b) != [b] && Emitted([]) == [];
      assert Line(b) + [] == Line(b) && [b] + [] == [b];
    } else {
      assert s[0] == b[0];
      ShorterBody(s);
      EmittedStep(s);
      EmittedNothing();
      assert [b] + [] == [b] && |s| == |b| + 1;
      assert Emitted(s) != [] ==> Emitted(s)[0] == ReadOctets(s).body;
    }
  }

  /** A counted body is at least two bytes shorter than the stream it is read from. */
  lemma ShorterBody(s: seq<byte>)
    requires s != [] && Digit(s[0])
    ensures ReadOctets(s).Octets? ==> |ReadOctets(s).body| + 2 <= |s|
  {
  }

  /** Reading undoes writing: any mixture of frames and lines is handed on message by message, in order. */
  lemma {:induction false} DecodesEncoded(ms: seq<Msg>, more: seq<byte>)
    requires forall i :: 0 <= i < |ms| ==> MsgOk(ms[i])
    ensures Emitted(EncodeAll(ms) + more) == Bodies(ms) + Emitted(more)
  {
    hide Emitted, Encode;
    if ms == [] {
      assert EncodeAll(ms) + more == more;
    } else {
      var m, rest := ms[0], EncodeAll(ms[1..]) + more;
      assert EncodeAll(ms) + more == Encode(m) + rest;
      DecodesEncoded(ms[1..], more);
      if m.Counted? {
        CountedIff(m.body, rest);
      } else {
        LinedRead(m.body, rest);
        TrimLine(m.body);
      }
    }
  }

  // ---- what other senders write ----

  predicate AllCR(s: seq<byte>) { forall i :: 0 <= i < |s| ==> s[i] == CR }

  lemma {:induction false} TrimEnds(b: seq<byte>, ends: seq<byte>)
    requires b == [] || (b[|b| - 1] != CR && b[|b| - 1] != LF)
    requires forall i :: 0 <= i < |ends| ==> ends[i] == CR || ends[i] == LF
    ensures TrimCRLF(b + ends) == b
    decreases |ends|
  {
    if ends == [] {
      assert b + ends == b;
    } else {
      var n := |ends| - 1;
      assert (b + ends)[..|b + ends| - 1] == b + ends[..n];
      TrimEnds(b, ends[..n]);
    }
  }

  /** Carriage returns before a newline, or before the end of the connection, do not count. */
  lemma LineEndings(b: seq<byte>, crs: seq<byte>, more: seq<byte>)
    requires LineOk(b) && AllCR(crs)
    ensures Emitted(b + crs + [LF] + more) == [b] + Emitted(more)
    ensures Emitted(b + crs) == [b]
  {
    hide TrimCRLF, Emitted, IndexOf;
    TrimEnds(b, crs);
    LinedRead(b + crs, more);
    LastLine(b + crs);
  }

  /** A line of nothing else is not handed on. */
  lemma BlankLines(crs: seq<byte>, more: seq<byte>)
    requires AllCR(crs)
    ensures Emitted(crs + [LF] + more) == Emitted(more)
    ensures Emitted(crs) == []
  {
    hide TrimCRLF, Emitted, IndexOf;
    TrimEnds([], crs);
    assert [] + crs == crs && [] + Emitted(more) == Emitted(more);
    LinedRead(crs, more);
    EmittedNothing();
    if crs != [] {
      LastLine(crs);
    }
  }

  /** What is left at the end of the connection is a line too. */
  lemma LastLine(s: seq<byte>)
    requires s != [] && LF !in s && !Digit(s[0])
    ensures Emitted(s) == Line(s)
  {
    hide TrimCRLF;
    EmittedStep(s);
  }

  predicate Padding(s: seq<byte>) { forall i :: 0 <= i < |s| ==> s[i] == TAB || s[i] == CR || s[i] == LF }

  lemma {:induction false} TrimPadding(d: seq<byte>, pad: seq<byte>)
    requires d != [] && AllDigits(d) && forall i :: 0 <= i < |pad| ==> Blank(pad[i]) || pad[i] == CR || pad[i] == LF
    ensures TrimRight(d + pad) == d
    decreases |pad|
  {
    if pad == [] {
      assert d + pad == d;
    } else {
      var n := |pad| - 1;
      assert (d + pad)[..|d + pad| - 1] == d + pad[..n];
      TrimPadding(d, pad[..n]);
    }
  }

  /** Tabs and line ends between a length and its blank do not count; the limit of a length is 1048576. */
  lemma PaddedCount(b: seq<byte>, pad: seq<byte>, more: seq<byte>)
    requires Padding(pad)
    ensures Emitted(Decimal(|b|) + pad + [SP] + b + more) ==
            if 1 <= |b| <= 1_048_576 then [b] + Emitted(more) else []
  {
    hide Decimal, Atoi, TrimRight, TrimLeft, IndexOf, Emitted;
    var d := Decimal(|b|);
    var s := d + pad + [SP] + b + more;
    DecimalDigits(|b|);
    DecimalRoundTrip(|b|);
    NotTrimmedLeft(d, pad + [SP]);
    TrimPadding(d, pad + [SP]);
    assert s == d + pad + [SP] + (b + more);
    IndexAfter(d + pad, SP, b + more);
    assert s[..|d + pad| + 1] == d + (pad + [SP]);
    assert s[|d + pad| + 1..] == b + more;
    assert s[0] == d[0];
    assert (b + more)[..|b|] == b && (b + more)[|b|..] == more;
    EmittedStep(s);
  }

  lemma NotTrimmedLeft(d: seq<byte>, more: seq<byte>)
    requires d != [] && AllDigits(d)
    ensures TrimLeft(d + more) == d + more
  {
    assert Digit((d + more)[0]);
  }

  /** A connection that ends within a counted frame hands on nothing of it. */
  lemma CutFrame(b: seq<byte>, k: nat)
    requires k < |Encode(Counted(b))|
    ensures Emitted(Encode(Counted(b))[..k]) == []
  {
    hide Decimal, Atoi, TrimRight, TrimLeft, IndexOf, Emitted;
    var d := Decimal(|b|);
    var s := Encode(Counted(b))[..k];
    DecimalDigits(|b|);
    EmittedNothing();
    if k > 0 {
      assert s[0] == d[0] && Digit(d[0]);
      EmittedStep(s);
      if k <= |d| {
        assert s == d[..k];
        assert SP !in s;
      } else {
        DecimalRoundTrip(|b|);
        TrimDigits(d);
        assert s == d + [SP] + b[..k - |d| - 1];
        IndexAfter(d, SP, b[..k - |d| - 1]);
        assert s[..|d| + 1] == d + [SP];
      }
    }
  }

  lemma {:induction false} ValueZeros(zeros: seq<byte>, d: seq<byte>)
    requires AllDigits(d) && forall i :: 0 <= i < |zeros| ==> zeros[i] == 48
    ensures AllDigits(zeros + d) && Value(zeros + d) == Value(d)
    decreases |d| + |zeros|
  {
    var s := zeros + d;
    forall i | 0 <= i < |s| ensures Digit(s[i]) {
      assert i >= |zeros| ==> s[i] == d[i - |zeros|];
    }
    if d != [] {
      assert s[..|s| - 1] == zeros + d[..|d| - 1] && s[|s| - 1] == d[|d| - 1];
      ValueZeros(zeros, d[..|d| - 1]);
    } else if zeros != [] {
      assert s[..|s| - 1] == zeros[..|zeros| - 1] + d && s[|s| - 1] == 48;
      ValueZeros(zeros[..|zeros| - 1], d);
    }
  }

  /** Zeros in front of a length do not count. */
  lemma ZerosRead(zeros: seq<byte>, b: seq<byte>, more: seq<byte>)
    requires forall i :: 0 <= i < |zeros| ==> zeros[i] == 48
    ensures Emitted(zeros + Decimal(|b|) + [SP] + b + more) == if 1 <= |b| <= 1_048_576 then [b] + Emitted(more) else []
  {
    hide Decimal, TrimRight, TrimLeft, IndexOf, Emitted, Value;
    var d := zeros + Decimal(|b|);
    var s := d + [SP] + b + more;
    DecimalDigits(|b|);
    DecimalRoundTrip(|b|);
    ValueZeros(zeros, Decimal(|b|));
    TrimDigits(d);
    assert s == d + [SP] + (b + more);
    IndexAfter(d, SP, b + more);
    assert s[..|d| + 1] == d + [SP];
    assert s[|d| + 1..] == b + more;
    assert s[0] == d[0] && Digit(d[0]);
    assert (b + more)[..|b|] == b && (b + more)[|b|..] == more;
    EmittedStep(s);
  }

  /** A length with anything but digits in it, or without a blank behind it, ends the connection. */
  lemma BadCount(t: seq<byte>, more: seq<byte>)
    requires t != [] && SP !in t && Digit(t[0])
    ensures Emitted(t) == []
    ensures !AllDigits(t) && !Padding([t[|t| - 1]]) ==> Emitted(t + [SP] + more) == []
  {
    hide TrimRight, TrimLeft, IndexOf, Emitted;
    EmittedStep(t);
    if !AllDigits(t) && !Padding([t[|t| - 1]]) {
      var s := t + [SP] + more;
      IndexAfter(t, SP, more);
      assert s[..|t| + 1] == t + [SP] && s[0] == t[0];
      KeptText(t);
      EmittedStep(s);
    }
  }

  lemma KeptText(t: seq<byte>)
    requires t != [] && SP !in t && Digit(t[0]) && !Padding([t[|t| - 1]])
    ensures TrimRight(TrimLeft(t + [SP])) == t
  {
    var s := t + [SP];
    assert s[0] == t[0] && TrimLeft(s) == s;
    assert s[..|s| - 1] == t && [t[|t| - 1]][0] == t[|t| - 1];
    assert t[|t| - 1] in t;
  }
}
