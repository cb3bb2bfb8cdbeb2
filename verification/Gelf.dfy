/**
  * Reassembly of chunked GELF datagrams (internal/input/gelf.go): a table from message id to the chunks
  * held so far, read and changed by one packet at a time. An empty slot of a partial message is [], as an
  * empty payload copied onto a nil slice leaves it nil.
  */
module Gelf {
  import opened Wrappers
  import opened Bytes

  const HEADER := 12
  const MAX_CHUNKS := 128
  /** Five seconds in nanoseconds. */
  const TIMEOUT := 5_000_000_000

  type Id = seq<byte>
  type Table = map<Id, Partial>

  datatype Partial = Partial(count: nat, parts: seq<seq<byte>>, received: nat, ts: int)

  datatype Chunk = Chunk(id: Id, index: nat, count: nat, payload: seq<byte>)

  datatype Outcome = Nothing | Full(payload: seq<byte>) | IndexPanic

  /** A datagram and the time at which it is handled. */
  datatype Packet = Packet(now: int, bytes: seq<byte>)

  // ---- one packet ----

  function Parse(b: seq<byte>): (c: Option<Chunk>)
    ensures c.Some? ==> c.value.index < c.value.count <= MAX_CHUNKS
  {
    if |b| < HEADER || b[11] == 0 || b[11] > MAX_CHUNKS || b[10] >= b[11] then None
    else Some(Chunk(b[2..10], b[10], b[11], b[HEADER..]))
  }

  predicate Expired(p: Partial, now: int) { p.ts < now - TIMEOUT }

  function Live(t: Table, now: int): Table { map id | id in t && !Expired(t[id], now) :: t[id] }

  function Slots(n: nat): seq<seq<byte>> { seq(n, _ => []) }

  function Fresh(c: Chunk, now: int): Partial { Partial(c.count, Slots(c.count), 0, now) }

  function Put(p: Partial, c: Chunk): Partial
    requires c.index < |p.parts|
  {
    if p.parts[c.index] != [] then p
    else p.(parts := p.parts[c.index := c.payload], received := p.received + 1)
  }

  function Flat(parts: seq<seq<byte>>): seq<byte> {
    if parts == [] then [] else Flat(parts[..|parts| - 1]) + parts[|parts| - 1]
  }

  /** What becomes of one message id, alone: its partial message, and the outcome of a chunk of its own. */
  function Own(held: Option<Partial>, now: int, c: Chunk): (Option<Partial>, Outcome) {
    var live := if held.Some? && !Expired(held.value, now) then held else None;
    var p := if live.Some? then live.value else Fresh(c, now);
    if c.index >= |p.parts| then (live, IndexPanic)
    else
      var q := Put(p, c);
      if q.received < q.count then (Some(q), Nothing) else (None, Full(Flat(q.parts)))
  }

  function Lookup(t: Table, id: Id): Option<Partial> { if id in t then Some(t[id]) else None }

  lemma LiveLookup(t: Table, id: Id, now: int)
    ensures Lookup(Live(t, now), id) == if id in t && !Expired(t[id], now) then Some(t[id]) else None
    ensures id in Live(t, now) ==> id in t && Live(t, now)[id] == t[id]
  {
  }

  function Store(t: Table, id: Id, p: Option<Partial>): Table { if p.Some? then t[id := p.value] else t - {id} }

  function Receive(t: Table, p: Packet): (Table, Outcome) {
    match Parse(p.bytes)
    case None => (t, Nothing)
    case Some(c) =>
      var (q, out) := Own(Lookup(t, c.id), p.now, c);
      (Store(Live(t, p.now), c.id, q), out)
  }

  /** The reassembler with its table updated in place. */
  class Reassembler {
    var msgs: Table

    constructor ()
      ensures msgs == map[]
    {
      msgs := map[];
    }

    method EvictExpired(now: int)
      modifies this
      ensures msgs == Live(old(msgs), now)
    {
      var todo := msgs.Keys;
      while todo != {}
        invariant todo <= msgs.Keys <= old(msgs).Keys
        invariant forall id :: id in msgs ==> msgs[id] == old(msgs)[id]
        invariant forall id :: id in old(msgs) && id !in todo ==> (id in msgs <==> !Expired(old(msgs)[id], now))
        decreases |todo|
      {
        var id :| id in todo;
        if Expired(msgs[id], now) {
          msgs := msgs - {id};
        }
        todo := todo - {id};
      }
    }

    method Add(now: int, chunk: seq<byte>) returns (out: Outcome)
      modifies this
      ensures (msgs, out) == Receive(old(msgs), Packet(now, chunk))
    {
      hide Flat, Live, Expired;
      if |chunk| < HEADER {
        return Nothing;
      }
      var id, index, count := chunk[2..10], chunk[10], chunk[11];
      if count == 0 || count > MAX_CHUNKS || index >= count {
        return Nothing;
      }
      ghost var c := Chunk(id, index, count, chunk[HEADER..]);
      EvictExpired(now);
      ghost var live := msgs;
      LiveLookup(old(msgs), id, now);
      if id !in msgs {
        msgs := msgs[id := Partial(count, Slots(count), 0, now)];
      }
      var p := msgs[id];
      assert p == if Lookup(live, id).Some? then live[id] else Fresh(c, now);
      if index >= |p.parts| {
        assert msgs == Store(live, id, Lookup(live, id));
        return IndexPanic;
      }
      if p.parts[index] == [] {
        p := p.(parts := p.parts[index := chunk[HEADER..]], received := p.received + 1);
        msgs := msgs[id := p];
      }
      assert msgs == live[id := p];
      if p.received < p.count {
        return Nothing;
      }
      msgs := msgs - {id};
      assert msgs == live - {id};
      var full := Concatenate(p.parts);
      return Full(full);
    }

    static method Concatenate(parts: seq<seq<byte>>) returns (full: seq<byte>)
      ensures full == Flat(parts)
    {
      full := [];
      for i := 0 to |parts|
        invariant full == Flat(parts[..i])
      {
        assert parts[..i + 1][..i] == parts[..i];
        full := full + parts[i];
      }
      assert parts[..|parts|] == parts;
    }
  }

  // ---- runs ----

  function After(t: Table, ps: seq<Packet>): Table {
    if ps == [] then t else Receive(After(t, ps[..|ps| - 1]), ps[|ps| - 1]).0
  }

  /** The outcome of the last packet. */
  function LastOut(t: Table, ps: seq<Packet>): Outcome
    requires ps != []
  {
    Receive(After(t, ps[..|ps| - 1]), ps[|ps| - 1]).1
  }

  /** The packet's chunk if it is one of this id. */
  function ChunkOf(p: Packet, id: Id): Option<Chunk> {
    var c := Parse(p.bytes);
    if c.Some? && c.value.id == id then c else None
  }

  /** Whatever other ids send, an id sees only its own chunks and the clock. */
  lemma Isolation(t: Table, p: Packet, id: Id)
    ensures var (t', out) := Receive(t, p);
            var held := Lookup(t, id);
            match ChunkOf(p, id)
            case Some(c) => Lookup(t', id) == Own(held, p.now, c).0 && out == Own(held, p.now, c).1
            case None =>
              Lookup(t', id) == if Parse(p.bytes).Some? && held.Some? && Expired(held.value, p.now) then None else held
  {
  }

  // ---- what the table holds in every run ----

  function Filled(parts: seq<seq<byte>>): nat {
    if parts == [] then 0 else Filled(parts[..|parts| - 1]) + if parts[|parts| - 1] == [] then 0 else 1
  }

  /** Slots are counted at least once and a message with all of them counted is no longer held. */
  predicate PartialOk(p: Partial) { |p.parts| == p.count && Filled(p.parts) <= p.received < p.count }

  /** Nothing but filled slots has been counted. */
  predicate Exact(p: Partial) { p.received == Filled(p.parts) }

  predicate TableOk(t: Table) { forall id :: id in t ==> PartialOk(t[id]) }

  predicate TableExact(t: Table) { forall id :: id in t ==> Exact(t[id]) }

  lemma {:induction false} FilledUpdate(parts: seq<seq<byte>>, i: nat, b: seq<byte>)
    requires i < |parts| && parts[i] == []
    ensures Filled(parts[i := b]) == Filled(parts) + if b == [] then 0 else 1
    decreases |parts|
  {
    var n := |parts| - 1;
    if i == n {
      assert parts[i := b][..n] == parts[..n];
    } else {
      assert parts[i := b][..n] == parts[..n][i := b];
      FilledUpdate(parts[..n], i, b);
    }
  }

  lemma {:induction false} FilledNone(n: nat)
    ensures Filled(Slots(n)) == 0
  {
    if n > 0 {
      assert Slots(n)[..n - 1] == Slots(n - 1);
      FilledNone(n - 1);
    }
  }

  /** Held messages stay within bounds under every packet, malformed, repeated or late. */
  lemma ReceiveKeeps(t: Table, p: Packet)
    requires TableOk(t)
    ensures TableOk(Receive(t, p).0)
  {
    hide Filled;
    var parsed := Parse(p.bytes);
    if parsed.Some? {
      OwnKeeps(Lookup(t, parsed.value.id), p.now, parsed.value);
    }
  }

  lemma OwnKeeps(held: Option<Partial>, now: int, c: Chunk)
    requires held.Some? ==> PartialOk(held.value)
    requires c.index < c.count
    ensures var q := Own(held, now, c).0; q.Some? ==> PartialOk(q.value)
  {
    hide Filled;
    FilledNone(c.count);
    var p := if held.Some? && !Expired(held.value, now) then held.value else Fresh(c, now);
    if c.index < |p.parts| && p.parts[c.index] == [] {
      FilledUpdate(p.parts, c.index, c.payload);
    }
  }

  lemma {:induction false} RunKeeps(t: Table, ps: seq<Packet>)
    requires TableOk(t)
    ensures TableOk(After(t, ps))
  {
    if ps != [] {
      RunKeeps(t, ps[..|ps| - 1]);
      ReceiveKeeps(After(t, ps[..|ps| - 1]), ps[|ps| - 1]);
    }
  }

  /**
    * A count that was exact stays exact after a chunk that leaves its message held, precisely when the
    * chunk is not an empty payload for an empty slot.
    */
  lemma ExactUnlessEmpty(held: Option<Partial>, now: int, c: Chunk)
    requires held.Some? ==> PartialOk(held.value) && Exact(held.value)
    requires c.index < c.count
    ensures var p := if held.Some? && !Expired(held.value, now) then held.value else Fresh(c, now);
            var (q, out) := Own(held, now, c);
            out == Nothing && q.Some? ==> (Exact(q.value) <==> !(c.payload == [] && p.parts[c.index] == []))
  {
    hide Filled;
    FilledNone(c.count);
    var p := if held.Some? && !Expired(held.value, now) then held.value else Fresh(c, now);
    if c.index < |p.parts| && p.parts[c.index] == [] {
      FilledUpdate(p.parts, c.index, c.payload);
    }
  }

  predicate HasPayload(p: Packet) {
    var c := Parse(p.bytes);
    c.Some? ==> c.value.payload != []
  }

  /** While no chunk is empty, every held message counts its filled slots, and some slot is still missing. */
  lemma {:induction false} RunCountsFilledSlots(ps: seq<Packet>)
    requires forall k :: 0 <= k < |ps| ==> HasPayload(ps[k])
    ensures TableOk(After(map[], ps)) && TableExact(After(map[], ps))
  {
    if ps != [] {
      var rest, p := ps[..|ps| - 1], ps[|ps| - 1];
      RunCountsFilledSlots(rest);
      var t, c := After(map[], rest), Parse(p.bytes);
      ReceiveKeeps(t, p);
      assert HasPayload(p);
      if c.Some? {
        ExactUnlessEmpty(Lookup(t, c.value.id), p.now, c.value);
      }
    }
  }

  /**
    * A chunk of a message with an exact count completes it too early, with a slot still missing, precisely
    * when it is an empty payload for an empty slot and all other slots but that one are counted.
    */
  lemma CompletesEarlyIff(p: Partial, now: int, c: Chunk)
    requires PartialOk(p) && Exact(p) && !Expired(p, now) && c.index < p.count
    ensures var (q, out) := Own(Some(p), now, c);
            (out.Full? && Filled(Put(p, c).parts) < p.count) <==>
            (c.payload == [] && p.parts[c.index] == [] && p.received + 1 == p.count)
  {
    hide Filled;
    if p.parts[c.index] == [] {
      FilledUpdate(p.parts, c.index, c.payload);
    }
  }

  /** Two empty copies of the first of two chunks complete the message without the second. */
  lemma EmptyChunkTwice(id: Id)
    ensures var c := Chunk(id, 0, 2, []);
            && Own(None, 0, c) == (Some(Partial(2, [[], []], 1, 0)), Nothing)
            && Own(Own(None, 0, c).0, 0, c) == (None, Full([]))
  {
    var p := Fresh(Chunk(id, 0, 2, []), 0);
    var both: seq<seq<byte>> := [[], []];
    var q := Partial(2, both, 1, 0);
    assert p.parts == both && both[0 := []] == both;
    assert Put(q, Chunk(id, 0, 2, [])) == Partial(2, both, 2, 0);
    var one := both[..1];
    assert one[..0] == [] && one[0] == [] && Flat(one) == Flat([]) + [];
    assert Flat(both) == Flat(one) + [];
  }

  /** Indexing fails precisely for a chunk whose index lies past the slots of the live message of its id. */
  lemma PanicsIff(t: Table, p: Packet)
    requires TableOk(t)
    ensures var c := Parse(p.bytes);
            Receive(t, p).1 == IndexPanic <==>
            c.Some? && c.value.id in t && !Expired(t[c.value.id], p.now) && t[c.value.id].count <= c.value.index
  {
    hide Filled;
  }

  /** The datagram that carries a chunk. */
  function Datagram(c: Chunk): seq<byte>
    requires |c.id| == 8 && c.index < 256 && c.count < 256
  {
    [0x1e, 0x0f] + c.id + [c.index, c.count] + c.payload
  }

  lemma ParseDatagram(c: Chunk)
    requires |c.id| == 8 && c.index < c.count <= MAX_CHUNKS
    ensures Parse(Datagram(c)) == Some(c)
  {
    var b := Datagram(c);
    assert b[2..10] == c.id && b[10] == c.index && b[11] == c.count && b[HEADER..] == c.payload;
  }

  /** Two datagrams from the empty table: the first of two chunks, then the last of three under the same id. */
  lemma TwoDatagramsPanic(id: Id)
    requires |id| == 8
    ensures var first, second := Chunk(id, 0, 2, [1]), Chunk(id, 2, 3, [1]);
            LastOut(map[], [Packet(0, Datagram(first)), Packet(0, Datagram(second))]) == IndexPanic
  {
    hide Parse, Datagram, Flat;
    var first, second := Chunk(id, 0, 2, [1]), Chunk(id, 2, 3, [1]);
    var ps := [Packet(0, Datagram(first)), Packet(0, Datagram(second))];
    ParseDatagram(first);
    ParseDatagram(second);
    assert ps[..1] == [ps[0]] && ps[..1][..0] == [];
    assert After(map[], ps[..1]) == Receive(map[], ps[0]).0;
    FirstChunkHeld(first, 0);
    assert LastOut(map[], ps) == Own(Lookup(After(map[], ps[..1]), id), 0, second).1;
  }

  lemma FirstChunkHeld(c: Chunk, now: int)
    requires c.index < c.count && c.count > 1
    ensures var (q, out) := Own(None, now, c);
            q.Some? && q.value.ts == now && |q.value.parts| == c.count == q.value.count && out == Nothing
  {
  }

  // ---- up to the first failure ----

  /** The id's chunks all promise the same number of chunks. */
  predicate OneCount(p: Packet, counts: Id -> nat) {
    var c := Parse(p.bytes);
    c.Some? ==> c.value.count == counts(c.value.id)
  }

  ghost predicate CountsHeld(t: Table, counts: Id -> nat) {
    forall id :: id in t ==> |t[id].parts| == counts(id)
  }

  /** An index that fails ends the program; as long as ids do not change their count, none does. */
  lemma {:induction false} OneCountNeverPanics(ps: seq<Packet>, counts: Id -> nat)
    requires forall k :: 0 <= k < |ps| ==> OneCount(ps[k], counts)
    ensures CountsHeld(After(map[], ps), counts)
    ensures ps != [] ==> LastOut(map[], ps) != IndexPanic
    decreases |ps|
  {
    hide Flat, Parse;
    if ps != [] {
      var rest, p := ps[..|ps| - 1], ps[|ps| - 1];
      OneCountNeverPanics(rest, counts);
      assert OneCount(p, counts);
      ParseBounds(p.bytes);
    }
  }

  /** The packets that the program lives to handle: all of them, or those up to the first whose index fails. */
  ghost function Handled(ps: seq<Packet>): (h: seq<Packet>)
    ensures h <= ps
  {
    if ps == [] then []
    else
      var init := ps[..|ps| - 1];
      if Handled(init) == init && (init == [] || LastOut(map[], init) != IndexPanic) then ps else Handled(init)
  }

  /** No index fails before the last handled packet, and only a failing one keeps the rest from being handled. */
  lemma {:induction false} HandledUpToPanic(ps: seq<Packet>)
    ensures forall k :: 0 < k < |Handled(ps)| ==> LastOut(map[], ps[..k]) != IndexPanic
    ensures Handled(ps) != ps ==> Handled(ps) != [] && LastOut(map[], Handled(ps)) == IndexPanic
    decreases |ps|
  {
    hide LastOut;
    if ps != [] {
      var init := ps[..|ps| - 1];
      HandledUpToPanic(init);
      assert forall k :: 0 <= k <= |init| ==> init[..k] == ps[..k];
    }
  }

  /** As long as ids do not change their count, every packet is handled. */
  lemma {:induction false} OneCountHandlesAll(ps: seq<Packet>, counts: Id -> nat)
    requires forall k :: 0 <= k < |ps| ==> OneCount(ps[k], counts)
    ensures Handled(ps) == ps
    decreases |ps|
  {
    hide LastOut, OneCount;
    if ps != [] {
      var init := ps[..|ps| - 1];
      OneCountHandlesAll(init, counts);
      OneCountNeverPanics(init, counts);
    }
  }

  // ---- order and repeats do not matter ----

  /** Every chunk of the id in the run belongs to this message: same count, its own non-empty payload. */
  predicate ChunksOf(ps: seq<Packet>, id: Id, parts: seq<seq<byte>>) {
    forall k :: 0 <= k < |ps| ==> ChunkFits(ps[k], id, parts)
  }

  predicate ChunkFits(p: Packet, id: Id, parts: seq<seq<byte>>) {
    var c := ChunkOf(p, id);
    c.Some? ==> c.value.count == |parts| && c.value.payload == parts[c.value.index] && parts[c.value.index] != []
  }

  /** How far a message has come, in terms of sets: the indices seen since the first of them. */
  datatype Progress = Idle | Gathering(seen: set<nat>, since: int)

  function All(n: nat): (s: set<nat>)
    ensures forall i: nat :: i in s <==> i < n
    ensures |s| == n
  {
    if n == 0 then {} else All(n - 1) + {n - 1}
  }

  /** A packet's effect: every well-formed one lets time pass, and one of the id adds its index. */
  function Gather(g: Progress, p: Packet, id: Id, n: nat): (Progress, bool) {
    if Parse(p.bytes) == None then (g, false)
    else
      var g' := if g.Gathering? && g.since < p.now - TIMEOUT then Idle else g;
      match ChunkOf(p, id)
      case None => (g', false)
      case Some(c) =>
        var seen := (if g'.Gathering? then g'.seen else {}) + {c.index};
        if seen == All(n) then (Idle, true)
        else (Gathering(seen, if g'.Gathering? then g'.since else p.now), false)
  }

  function GatherAll(ps: seq<Packet>, id: Id, n: nat): Progress {
    if ps == [] then Idle else Gather(GatherAll(ps[..|ps| - 1], id, n), ps[|ps| - 1], id, n).0
  }

  ghost predicate Holds(o: Option<Partial>, g: Progress, parts: seq<seq<byte>>) {
    match g
    case Idle => o == None
    case Gathering(seen, since) =>
      && o.Some?
      && o.value.ts == since
      && o.value.count == |parts|
      && o.value.received == |seen| < |parts|
      && seen <= All(|parts|)
      && SlotsHold(o.value.parts, seen, parts)
  }

  lemma ProperSubset(a: set<nat>, b: set<nat>)
    requires a <= b
    ensures |a| < |b| <==> a != b
    ensures |a| <= |b|
  {
    assert b == a + (b - a);
    if a != b {
      var x :| x in b && x !in a;
      assert |b - a| > 0 by { assert x in b - a; }
    }
  }

  ghost predicate SlotsHold(slots: seq<seq<byte>>, seen: set<nat>, parts: seq<seq<byte>>) {
    |slots| == |parts| && forall i :: 0 <= i < |parts| ==> slots[i] == if i in seen then parts[i] else []
  }

  /** Putting a chunk on its slot adds its index, once. */
  lemma PutFollows(p: Partial, seen: set<nat>, c: Chunk, parts: seq<seq<byte>>)
    requires SlotsHold(p.parts, seen, parts) && p.received == |seen|
    requires c.index < |parts| && c.payload == parts[c.index] && parts[c.index] != []
    ensures var q := Put(p, c);
            SlotsHold(q.parts, seen + {c.index}, parts) && q.received == |seen + {c.index}|
  {
    if c.index in seen {
      assert seen + {c.index} == seen;
    } else {
      assert p.parts[c.index] == [];
      assert |seen + {c.index}| == |seen| + 1;
    }
  }

  /** One chunk of the message follows the sets. */
  lemma OwnFollows(o: Option<Partial>, g: Progress, now: int, c: Chunk, parts: seq<seq<byte>>)
    requires Holds(o, g, parts)
    requires c.count == |parts| && c.index < c.count && c.payload == parts[c.index] && parts[c.index] != []
    ensures var g' := if g.Gathering? && g.since < now - TIMEOUT then Idle else g;
            var seen := (if g'.Gathering? then g'.seen else {}) + {c.index};
            var (q, out) := Own(o, now, c);
            if seen == All(|parts|) then q == None && out == Full(Flat(parts))
            else Holds(q, Gathering(seen, if g'.Gathering? then g'.since else now), parts) && out == Nothing
  {
    hide Flat, Put, SlotsHold, All, Fresh;
    var g' := if g.Gathering? && g.since < now - TIMEOUT then Idle else g;
    if g'.Gathering? {
      ChunkFollows(o.value, g'.seen, c, parts);
    } else {
      FreshHolds(c, now, parts);
      ChunkFollows(Fresh(c, now), {}, c, parts);
    }
  }

  /** A chunk put into a message whose slots hold some of the parts. */
  lemma ChunkFollows(p: Partial, before: set<nat>, c: Chunk, parts: seq<seq<byte>>)
    requires SlotsHold(p.parts, before, parts) && p.count == |parts| && p.received == |before|
    requires before <= All(|parts|)
    requires c.count == |parts| && c.index < c.count && c.payload == parts[c.index] && parts[c.index] != []
    ensures |p.parts| == |parts|
    ensures var (q, seen) := (Put(p, c), before + {c.index});
            && SlotsHold(q.parts, seen, parts) && q.received == |seen| <= |parts| && seen <= All(|parts|)
            && q.ts == p.ts && q.count == p.count
            && (q.received < q.count <==> seen != All(|parts|))
            && (seen == All(|parts|) ==> q.parts == parts)
  {
    hide Put, SlotsHold, All;
    SlotCount(p.parts, before, parts);
    PutFollows(p, before, c, parts);
    PutOthers(p, c);
    SeenGrows(before, c.index, |parts|);
    if before + {c.index} == All(|parts|) {
      AllSlots(Put(p, c).parts, parts);
    }
  }

  lemma SeenGrows(before: set<nat>, i: nat, n: nat)
    requires before <= All(n) && i < n
    ensures before + {i} <= All(n)
    ensures |before + {i}| <= n
    ensures |before + {i}| < n <==> before + {i} != All(n)
  {
    hide All;
    ProperSubset(before + {i}, All(n));
  }

  lemma FreshHolds(c: Chunk, now: int, parts: seq<seq<byte>>)
    requires c.count == |parts|
    ensures var p := Fresh(c, now);
            SlotsHold(p.parts, {}, parts) && p.count == |parts| && p.received == 0 && p.ts == now
  {
  }

  lemma SlotCount(slots: seq<seq<byte>>, seen: set<nat>, parts: seq<seq<byte>>)
    requires SlotsHold(slots, seen, parts)
    ensures |slots| == |parts|
  {
  }

  lemma PutOthers(p: Partial, c: Chunk)
    requires c.index < |p.parts|
    ensures var q := Put(p, c); q.ts == p.ts && q.count == p.count && |q.parts| == |p.parts|
  {
  }

  lemma AllSlots(slots: seq<seq<byte>>, parts: seq<seq<byte>>)
    requires SlotsHold(slots, All(|parts|), parts)
    ensures slots == parts
  {
  }

  /**
    * Reassembly: whatever the order and the repeats of a message's chunks, and whatever other packets fall
    * between them, the table holds for its id precisely the chunks seen since the first one that has not
    * expired, and a chunk yields the message in order precisely when it is the last one missing.
    */
  lemma {:induction false} Reassembles(ps: seq<Packet>, id: Id, parts: seq<seq<byte>>)
    requires ChunksOf(ps, id, parts)
    ensures Holds(Lookup(After(map[], ps), id), GatherAll(ps, id, |parts|), parts)
    ensures ps != [] && ChunkOf(ps[|ps| - 1], id).Some? ==>
              LastOut(map[], ps) ==
              if Gather(GatherAll(ps[..|ps| - 1], id, |parts|), ps[|ps| - 1], id, |parts|).1 then Full(Flat(parts))
              else Nothing
    decreases |ps|
  {
    hide Flat, Own, Parse;
    if ps != [] {
      var rest, p := ps[..|ps| - 1], ps[|ps| - 1];
      Reassembles(rest, id, parts);
      var t, g := After(map[], rest), GatherAll(rest, id, |parts|);
      Isolation(t, p, id);
      assert ChunkFits(p, id, parts);
      var c := ChunkOf(p, id);
      if c.Some? {
        ParseBounds(p.bytes);
        OwnFollows(Lookup(t, id), g, p.now, c.value, parts);
      }
    }
  }

  lemma ParseBounds(b: seq<byte>)
    ensures Parse(b).Some? ==> Parse(b).value.index < Parse(b).value.count
  {
  }

  /** The indices of the id's chunks in a run. */
  function Indices(ps: seq<Packet>, id: Id): set<nat> {
    if ps == [] then {}
    else
      var c := ChunkOf(ps[|ps| - 1], id);
      Indices(ps[..|ps| - 1], id) + if c.Some? then {c.value.index} else {}
  }

  /** All packets of the run are handled within the timeout. */
  predicate Prompt(ps: seq<Packet>, start: int) {
    forall i :: 0 <= i < |ps| ==> start <= ps[i].now <= start + TIMEOUT
  }

  /** The sets after a prompt run that has not completed the message. */
  predicate Gathered(g: Progress, seen: set<nat>, start: int) {
    if g.Idle? then seen == {} else g.seen == seen && g.since >= start
  }

  lemma GatherStep(g: Progress, seen: set<nat>, p: Packet, id: Id, n: nat, start: int)
    requires Gathered(g, seen, start) && start <= p.now <= start + TIMEOUT
    ensures var c := ChunkOf(p, id);
            var (g', done) := Gather(g, p, id, n);
            var seen' := seen + if c.Some? then {c.value.index} else {};
            && done == (c.Some? && seen' == All(n))
            && (!done ==> Gathered(g', seen', start))
  {
    hide All, Parse;
  }

  lemma {:induction false} PromptGathers(ps: seq<Packet>, id: Id, n: nat, start: int)
    requires Prompt(ps, start) && n > 0
    requires forall k :: 0 <= k <= |ps| ==> Indices(ps[..k], id) != All(n)
    ensures Gathered(GatherAll(ps, id, n), Indices(ps, id), start)
    decreases |ps|
  {
    hide ChunkOf, All, Gather, Gathered;
    if ps == [] {
      NothingGathered(id, n, start);
    } else {
      var rest, p := ps[..|ps| - 1], ps[|ps| - 1];
      assert forall k :: 0 <= k <= |rest| ==> rest[..k] == ps[..k];
      assert ps[..|ps|] == ps;
      PromptGathers(rest, id, n, start);
      GatherStep(GatherAll(rest, id, n), Indices(rest, id), p, id, n, start);
    }
  }

  lemma NothingGathered(id: Id, n: nat, start: int)
    ensures Gathered(GatherAll([], id, n), Indices([], id), start)
  {
  }

  /**
    * Handled within the timeout, a message's chunks in any order, with repeats and among other packets,
    * yield nothing up to the last one missing, and that one yields the whole message in order.
    */
  lemma LastMissingChunkCompletes(ps: seq<Packet>, id: Id, parts: seq<seq<byte>>, start: int)
    requires ps != [] && ChunksOf(ps, id, parts) && Prompt(ps, start) && parts != []
    requires ChunkOf(ps[|ps| - 1], id).Some?
    requires forall k :: 0 <= k < |ps| ==> Indices(ps[..k], id) != All(|parts|)
    ensures LastOut(map[], ps) == if Indices(ps, id) == All(|parts|) then Full(Flat(parts)) else Nothing
  {
    hide Flat, ChunkOf, LastOut, Gather, All, Gathered, ChunksOf;
    var rest, p := ps[..|ps| - 1], ps[|ps| - 1];
    assert forall k :: 0 <= k <= |rest| ==> rest[..k] == ps[..k];
    PromptGathers(rest, id, |parts|, start);
    GatherStep(GatherAll(rest, id, |parts|), Indices(rest, id), p, id, |parts|, start);
    Reassembles(ps, id, parts);
  }
}
