/** A message cut into GELF chunks by its sender, and the reassembler's side of that format. */
module GelfChunks {
  import opened Wrappers
  import opened Bytes
  import opened Gelf

  // ---- the format ----

  /** A datagram is a chunk exactly when its header is whole and names an index below a count of at most 128. */
  lemma ParseIff(b: seq<byte>)
    ensures Parse(b).Some? <==> |b| >= 12 && 0 < b[11] <= 128 && b[10] < b[11]
    ensures Parse(b).Some? ==> Parse(b).value == Chunk(b[2..10], b[10], b[11], b[12..])
  {
  }

  // ---- the payload ----

  /** Joining two lists of parts joins what they hold, in order. */
  lemma {:induction false} FlatConcat(a: seq<seq<byte>>, b: seq<seq<byte>>)
    ensures Flat(a + b) == Flat(a) + Flat(b)
    decreases |b|
  {
    if b == [] {
      assert a + b == a;
    } else {
      var n := |b| - 1;
      assert (a + b)[..|a + b| - 1] == a + b[..n] && (a + b)[|a + b| - 1] == b[n];
      FlatConcat(a, b[..n]);
    }
  }

  lemma FlatOne(part: seq<byte>)
    ensures Flat([part]) == part
  {
    assert [part][..0] == [] && [] + part == part;
  }

  /** The sender's parts: size bytes each, the last one what is left. */
  function Cut(payload: seq<byte>, size: nat): seq<seq<byte>>
    requires size > 0
    decreases |payload|
  {
    if |payload| <= size then [payload] else [payload[..size]] + Cut(payload[size..], size)
  }

  /** Nothing is lost by cutting, and no part is empty unless the message is. */
  lemma {:induction false} CutJoins(payload: seq<byte>, size: nat)
    requires size > 0
    ensures Flat(Cut(payload, size)) == payload && Cut(payload, size) != []
    ensures payload != [] ==> forall i :: 0 <= i < |Cut(payload, size)| ==> Cut(payload, size)[i] != []
    decreases |payload|
  {
    hide Flat;
    if |payload| <= size {
      FlatOne(payload);
    } else {
      var rest := Cut(payload[size..], size);
      CutJoins(payload[size..], size);
      FlatConcat([payload[..size]], rest);
      FlatOne(payload[..size]);
    }
  }

  /** A packet is one of the sender's chunks, or nothing that carries the message's id. */
  ghost predicate Sent(p: Packet, id: Id, parts: seq<seq<byte>>) {
    ChunkOf(p, id).Some? ==>
      exists i :: 0 <= i < |parts| && |parts| < 256 && p.bytes == Datagram(Chunk(id, i, |parts|, parts[i]))
  }

  lemma SentFits(p: Packet, id: Id, parts: seq<seq<byte>>)
    requires |id| == 8 && |parts| <= MAX_CHUNKS && Sent(p, id, parts)
    requires forall i :: 0 <= i < |parts| ==> parts[i] != []
    ensures ChunkFits(p, id, parts)
  {
    hide Parse, Datagram;
    if ChunkOf(p, id).Some? {
      var i :| 0 <= i < |parts| && |parts| < 256 && p.bytes == Datagram(Chunk(id, i, |parts|, parts[i]));
      ParseDatagram(Chunk(id, i, |parts|, parts[i]));
    }
  }

  /**
    * Round trip: a message cut into at most 128 chunks, sent in any order and with repeats among any other
    * packets, all within the timeout, comes back whole with the last chunk that was missing, and not before.
    */
  lemma SentIsReassembled(ps: seq<Packet>, id: Id, payload: seq<byte>, size: nat, start: int)
    requires |id| == 8 && payload != [] && size > 0 && |Cut(payload, size)| <= 128
    requires ps != [] && Prompt(ps, start) && ChunkOf(ps[|ps| - 1], id).Some?
    requires forall k :: 0 <= k < |ps| ==> Sent(ps[k], id, Cut(payload, size))
    requires forall k :: 0 <= k < |ps| ==> Indices(ps[..k], id) != All(|Cut(payload, size)|)
    ensures LastOut(map[], ps) == if Indices(ps, id) == All(|Cut(payload, size)|) then Full(payload) else Nothing
  {
    hide Flat, ChunkOf, LastOut, All, Sent, ChunkFits, Cut, Indices, Prompt;
    var parts := Cut(payload, size);
    CutJoins(payload, size);
    forall k | 0 <= k < |ps| ensures ChunkFits(ps[k], id, parts) {
      SentFits(ps[k], id, parts);
    }
    LastMissingChunkCompletes(ps, id, parts, start);
  }

  // ---- what is held, and for how long ----

  /** A slot that holds a chunk is not overwritten while its message is held. */
  lemma FilledStays(t: Table, p: Packet, id: Id, i: nat)
    requires id in t && id in Receive(t, p).0 && !Expired(t[id], p.now)
    requires i < |t[id].parts| && t[id].parts[i] != []
    ensures var u := Receive(t, p).0[id];
            |u.parts| == |t[id].parts| && u.parts[i] == t[id].parts[i] && u.ts == t[id].ts
  {
    hide Flat;
    Isolation(t, p, id);
  }

  /** A message is held for five seconds from its first chunk, and dropped by the next chunk of any id after that. */
  lemma HeldFiveSeconds(t: Table, p: Packet, id: Id)
    requires id in t && Parse(p.bytes).Some? && ChunkOf(p, id) == None
    ensures id in Receive(t, p).0 <==> p.now - t[id].ts <= 5_000_000_000
  {
    hide Parse, Flat;
    Isolation(t, p, id);
  }
}
