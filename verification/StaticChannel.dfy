/** Static virtual channels: CHANNEL_PDU_HEADER chunking and reassembly. */
module StaticChannel {
  import opened Bits
  import opened Wire

  const CHUNK_SIZE: nat := 1600
  const MAX_REASSEMBLY := 64 * 1024 * 1024
  const MAX_REASSEMBLY_GLOBAL := 256 * 1024 * 1024

  const FLAG_FIRST := 0x01
  const FLAG_LAST := 0x02
  const FLAG_SHOW_PROTOCOL := 0x10

  predicate First(flags: nat) { flags % 2 == 1 }

  predicate Last(flags: nat) { flags / 2 % 2 == 1 }

  // ---------- sending ----------

  function ChunkFlags(first: bool, last: bool, showProto: bool): (f: nat)
    ensures f < TWO_32 && First(f) == first && Last(f) == last
  {
    (if first then FLAG_FIRST else 0) + (if last then FLAG_LAST else 0) + (if showProto then FLAG_SHOW_PROTOCOL else 0)
  }

  function ChunkPdu(total: nat, flags: nat, chunk: seq<byte>): (pdu: seq<byte>)
    requires total < TWO_32 && flags < TWO_32
    ensures |pdu| == 8 + |chunk| && TotalOf(pdu) == total && FlagsOf(pdu) == flags && pdu[8..] == chunk
  {
    var pdu := PutLe32(total) + PutLe32(flags) + chunk;
    assert pdu[0..4] == PutLe32(total) && pdu[4..8] == PutLe32(flags);
    pdu
  }

  function TotalOf(pdu: seq<byte>): nat
    requires |pdu| >= 8
  {
    GetLe32(pdu[0..4])
  }

  function FlagsOf(pdu: seq<byte>): nat
    requires |pdu| >= 8
  {
    GetLe32(pdu[4..8])
  }

  /** The chunks of data from offset off on. */
  function ChunksFrom(data: seq<byte>, off: nat, showProto: bool): seq<seq<byte>>
    requires off <= |data|
    decreases |data| - off
  {
    if off == |data| then []
    else
      var end := if off + CHUNK_SIZE < |data| then off + CHUNK_SIZE else |data|;
      [ChunkPdu(Uint32(|data|), ChunkFlags(off == 0, end == |data|, showProto), data[off..end])]
      + ChunksFrom(data, end, showProto)
  }

  function Chunks(data: seq<byte>, showProto: bool): seq<seq<byte>> { ChunksFrom(data, 0, showProto) }

  // ---------- receiving ----------

  datatype Pending = Absent | Buffered(buf: seq<byte>)

  /** What a PDU does to its own channel when the size limits admit it. */
  function ChannelStep(p: Pending, pdu: seq<byte>): (r: (Pending, seq<seq<byte>>))
    ensures |r.1| <= 1
  {
    if |pdu| < 8 then (p, [])
    else
      var flags, chunk := FlagsOf(pdu), pdu[8..];
      if First(flags) then
        if Last(flags) then (Absent, [chunk]) else (Buffered(chunk), [])
      else match p
        case Absent => (Absent, [])
        case Buffered(buf) => if Last(flags) then (Absent, [buf + chunk]) else (Buffered(buf + chunk), [])
  }

  type Buffers = map<nat, seq<byte>>

  function Lookup(m: Buffers, id: nat): Pending {
    if id in m then Buffered(m[id]) else Absent
  }

  function Store(m: Buffers, id: nat, p: Pending): Buffers {
    match p
    case Absent => m - {id}
    case Buffered(buf) => m[id := buf]
  }

  /** vcReassembly and vcReassemblyTotal. */
  datatype State = State(buffers: Buffers, total: int)

  /** The size limits, checked only when a multi-chunk message starts. */
  predicate Admitted(s: State, pdu: seq<byte>) {
    |pdu| >= 8 && First(FlagsOf(pdu)) && !Last(FlagsOf(pdu)) ==>
      TotalOf(pdu) <= MAX_REASSEMBLY && s.total + TotalOf(pdu) <= MAX_REASSEMBLY_GLOBAL
  }

  function Weight(p: Pending): nat { if p.Buffered? then |p.buf| else 0 }

  function Step(s: State, t: Tagged): (State, seq<Tagged>) {
    if !Admitted(s, t.data) then (s, [])
    else
      var was := Lookup(s.buffers, t.id);
      var (p, out) := ChannelStep(was, t.data);
      (State(Store(s.buffers, t.id, p), s.total - Weight(was) + Weight(p)),
       if out == [] then [] else [Tagged(t.id, out[0])])
  }

  // ---------- the running total ----------

  /** The bytes held in all buffers. */
  ghost function Held(m: Buffers): nat {
    if m == map[] then 0
    else
      var id :| id in m;
      |m[id]| + Held(m - {id})
  }

  lemma {:induction false} HeldRemove(m: Buffers, id: nat)
    requires id in m
    ensures Held(m) == |m[id]| + Held(m - {id})
    decreases |m|
  {
    var k :| k in m && Held(m) == |m[k]| + Held(m - {k});
    if k != id {
      HeldRemove(m - {k}, id);
      HeldRemove(m - {id}, k);
      assert (m - {k}) - {id} == (m - {id}) - {k};
    }
  }

  lemma {:induction false} HeldStore(m: Buffers, id: nat, p: Pending)
    ensures Held(Store(m, id, p)) == Held(m) - Weight(Lookup(m, id)) + Weight(p)
  {
    if id in m {
      HeldRemove(m, id);
    } else {
      assert m - {id} == m;
    }
    match p
    case Absent =>
    case Buffered(buf) =>
      var m' := m[id := buf];
      HeldRemove(m', id);
      assert m' - {id} == m - {id};
  }

  /** The counter is the sum of the buffers, whatever PDUs arrive. */
  lemma {:induction false} StepKeepsTotal(s: State, t: Tagged)
    requires s.total == Held(s.buffers)
    ensures var s' := Step(s, t).0; s'.total == Held(s'.buffers)
  {
    HeldStore(s.buffers, t.id, ChannelStep(Lookup(s.buffers, t.id), t.data).0);
  }

  class Client {
    var vcReassembly: Buffers
    var vcReassemblyTotal: int
    var delivered: seq<Tagged>
    var written: seq<seq<byte>>
    const handled: set<nat>

    ghost function Contents(): State
      reads this
    {
      State(vcReassembly, vcReassemblyTotal)
    }

    constructor (handled: set<nat>)
      ensures Contents() == State(map[], 0) && delivered == [] && written == [] && this.handled == handled
    {
      vcReassembly, vcReassemblyTotal, delivered, written := map[], 0, [], [];
      this.handled := handled;
    }

    method HandleVirtualChannelData(channelID: nat, data: seq<byte>)
      modifies this`vcReassembly, this`vcReassemblyTotal, this`delivered
      ensures channelID !in handled ==> Contents() == old(Contents()) && delivered == old(delivered)
      ensures channelID in handled ==>
        var (s, out) := Step(old(Contents()), Tagged(channelID, data));
        Contents() == s && delivered == old(delivered) + out
    {
      if channelID !in handled || |data| < 8 {
        StoreLookup(vcReassembly, channelID);
        return;
      }
      var flags, chunk := FlagsOf(data), data[8..];
      if First(flags) && Last(flags) {
        if channelID in vcReassembly {
          vcReassemblyTotal := vcReassemblyTotal - |vcReassembly[channelID]|;
        }
        vcReassembly := vcReassembly - {channelID};
        delivered := delivered + [Tagged(channelID, chunk)];
        return;
      }
      if First(flags) {
        var totalLen := TotalOf(data);
        if totalLen > MAX_REASSEMBLY {
          return;
        }
        if vcReassemblyTotal + totalLen > MAX_REASSEMBLY_GLOBAL {
          return;
        }
        if channelID in vcReassembly {
          vcReassemblyTotal := vcReassemblyTotal - |vcReassembly[channelID]|;
        }
        vcReassembly := vcReassembly[channelID := chunk];
        vcReassemblyTotal := vcReassemblyTotal + |chunk|;
        return;
      }
      if channelID !in vcReassembly {
        StoreLookup(vcReassembly, channelID);
        return;
      }
      var buf := vcReassembly[channelID];
      var oldLen := |buf|;
      buf := buf + chunk;
      vcReassemblyTotal := vcReassemblyTotal + (|buf| - oldLen);
      if Last(flags) {
        vcReassemblyTotal := vcReassemblyTotal - |buf|;
        vcReassembly := vcReassembly - {channelID};
        delivered := delivered + [Tagged(channelID, buf)];
      } else {
        vcReassembly := vcReassembly[channelID := buf];
      }
    }

    /** The chunks written for one message; an empty message writes nothing. */
    method SendChannelData(data: seq<byte>, showProto: bool)
      modifies this`written
      ensures written == old(written) + Chunks(data, showProto)
    {
      hide ChunkPdu, ChunkFlags;
      var off := 0;
      ghost var goal := written + Chunks(data, showProto);
      while off < |data|
        invariant off <= |data|
        invariant written + ChunksFrom(data, off, showProto) == goal
      {
        var end := if off + CHUNK_SIZE < |data| then off + CHUNK_SIZE else |data|;
        var pdu := ChunkPdu(Uint32(|data|), ChunkFlags(off == 0, end == |data|, showProto), data[off..end]);
        ghost var rest := ChunksFrom(data, end, showProto);
        assert (written + [pdu]) + rest == written + ([pdu] + rest);
        written := written + [pdu];
        off := end;
      }
    }
  }

  lemma {:induction false} StoreLookup(m: Buffers, id: nat)
    ensures Store(m, id, Lookup(m, id)) == m
  {
  }
}
