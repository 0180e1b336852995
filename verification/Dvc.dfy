/** Dynamic virtual channels: fragmenting sender and reassembling receiver. */
module Dvc {
  import opened Bits
  import opened Wire

  const CMD_CREATE := 1
  const CMD_DATA_FIRST := 2
  const CMD_DATA := 3
  const CMD_CLOSE := 4

  const MAX_REASSEMBLY := 64 * 1024 * 1024

  // ---------- variable-length integers ----------

  function CbIdSize(id: nat): (cb: nat)
    ensures cb <= 2
  {
    if id <= 0xFF then 0 else if id <= 0xFFFF then 1 else 2
  }

  function ChannelIdLen(cb: nat): nat {
    if cb == 1 then 2 else if cb == 2 then 4 else 1
  }

  /** The value read and the number of bytes it took; nothing is read from too few bytes. */
  function GetChannelId(data: seq<byte>, cb: nat): (r: (nat, nat))
    ensures r.1 <= |data|
  {
    if cb == 0 && |data| >= 1 then (data[0], 1)
    else if cb == 1 && |data| >= 2 then (GetLe16(data[..2]), 2)
    else if cb == 2 && |data| >= 4 then (GetLe32(data[..4]), 4)
    else (0, 0)
  }

  function PutChannelId(id: nat): (s: seq<byte>)
    requires id < TWO_32
    ensures |s| == ChannelIdLen(CbIdSize(id))
  {
    if id <= 0xFF then [id] else if id <= 0xFFFF then PutLe16(id) else PutLe32(id)
  }

  /** Reading inverts writing, whatever follows. */
  lemma {:induction false} ChannelIdRoundTrip(id: nat, rest: seq<byte>)
    requires id < TWO_32
    ensures GetChannelId(PutChannelId(id) + rest, CbIdSize(id)) == (id, ChannelIdLen(CbIdSize(id)))
  {
    var s := PutChannelId(id);
    assert (s + rest)[..|s|] == s;
  }

  // ---------- PDUs ----------

  /** cmd in bits 7-4, Sp in bits 3-2, cbId in bits 1-0. */
  function Header(cmd: nat, sp: nat, cb: nat): byte
    requires cmd < 16 && sp < 4 && cb < 4
  {
    16 * cmd + 4 * sp + cb
  }

  function Cmd(hdr: byte): nat { hdr / 16 % 16 }

  function Sp(hdr: byte): nat { hdr / 4 % 4 }

  function CbId(hdr: byte): nat { hdr % 4 }

  /** The channel a PDU names, and the offset after the name. */
  function Target(pdu: seq<byte>): (r: (nat, nat))
    requires pdu != []
    ensures 1 <= r.1 <= |pdu|
  {
    var (id, n) := GetChannelId(pdu[1..], CbId(pdu[0]));
    (id, 1 + n)
  }

  function DataPdu(id: nat, payload: seq<byte>): (pdu: seq<byte>)
    requires id < TWO_32
    ensures |pdu| == DataHdrSize(id) + |payload|
  {
    [Header(CMD_DATA, 0, CbIdSize(id))] + PutChannelId(id) + payload
  }

  function DataFirstPdu(id: nat, total: nat, payload: seq<byte>): (pdu: seq<byte>)
    requires id < TWO_32 && total < TWO_32
    ensures |pdu| == FirstHdrSize(id, total) + |payload|
  {
    [Header(CMD_DATA_FIRST, CbIdSize(total), CbIdSize(id))] + PutChannelId(id) + PutChannelId(total) + payload
  }

  function DataHdrSize(id: nat): nat { 1 + ChannelIdLen(CbIdSize(id)) }

  function FirstHdrSize(id: nat, total: nat): nat {
    1 + ChannelIdLen(CbIdSize(id)) + ChannelIdLen(CbIdSize(total))
  }

  // ---------- sending ----------

  /** The payload limit leaves room for the headers. */
  predicate Splittable(max: nat, id: nat, len: nat) {
    DataHdrSize(id) + len <= max || (FirstHdrSize(id, Uint32(len)) <= max && DataHdrSize(id) < max)
  }

  /** Nine bytes of room are enough for every channel and every length. */
  lemma {:induction false} NineIsEnough(max: nat, id: nat, len: nat)
    ensures max >= 9 ==> Splittable(max, id, len)
  {
  }

  function DataChunks(max: nat, id: nat, data: seq<byte>): (pdus: seq<seq<byte>>)
    requires id < TWO_32 && DataHdrSize(id) < max
    decreases |data|
  {
    if data == [] then []
    else
      var room := max - DataHdrSize(id);
      var n := if |data| > room then room else |data|;
      [DataPdu(id, data[..n])] + DataChunks(max, id, data[n..])
  }

  /** The PDUs one message is sent as. */
  function Fragments(max: nat, id: nat, data: seq<byte>): (pdus: seq<seq<byte>>)
    requires id < TWO_32 && Splittable(max, id, |data|)
  {
    if DataHdrSize(id) + |data| <= max then [DataPdu(id, data)]
    else
      var total := Uint32(|data|);
      var n := max - FirstHdrSize(id, total);
      [DataFirstPdu(id, total, data[..n])] + DataChunks(max, id, data[n..])
  }

  lemma {:induction false} ChunksStep(max: nat, id: nat, data: seq<byte>, pos: nat, n: nat)
    requires id < TWO_32 && DataHdrSize(id) < max && pos < |data|
    requires n == if |data| - pos > max - DataHdrSize(id) then max - DataHdrSize(id) else |data| - pos
    ensures DataChunks(max, id, data[pos..]) == [DataPdu(id, data[pos..pos + n])] + DataChunks(max, id, data[pos + n..])
  {
    hide DataPdu;
    assert data[pos..][..n] == data[pos..pos + n] && data[pos..][n..] == data[pos + n..];
  }

  lemma {:induction false} ChunkSizes(max: nat, id: nat, data: seq<byte>)
    requires id < TWO_32 && DataHdrSize(id) < max
    ensures forall p :: p in DataChunks(max, id, data) ==> 0 < |p| <= max
    decreases |data|
  {
    if data != [] {
      var room := max - DataHdrSize(id);
      ChunkSizes(max, id, data[if |data| > room then room else |data|..]);
    }
  }

  /** No fragment is longer than the payload limit. */
  lemma {:induction false} FragmentSizes(max: nat, id: nat, data: seq<byte>)
    requires id < TWO_32 && Splittable(max, id, |data|)
    ensures forall p :: p in Fragments(max, id, data) ==> 0 < |p| <= max
  {
    if DataHdrSize(id) + |data| > max {
      ChunkSizes(max, id, data[max - FirstHdrSize(id, Uint32(|data|))..]);
    }
  }

  // ---------- receiving ----------

  /** Reassembly state of one open channel; total is zero when nothing is pending. */
  datatype Channel = Channel(handled: bool, buf: seq<byte>, total: nat)

  /** The channel's new state and what its handler is given. */
  datatype Effect = Effect(channel: Channel, delivered: seq<seq<byte>>)

  function Deliver(c: Channel, data: seq<byte>): seq<seq<byte>> {
    if c.handled then [data] else []
  }

  function OnData(c: Channel, payload: seq<byte>): Effect {
    if c.total > 0 then
      var buf := c.buf + payload;
      if Uint32(|buf|) >= c.total then
        Effect(c.(buf := [], total := 0), Deliver(c, buf[..c.total]))
      else Effect(c.(buf := buf), [])
    else Effect(c, Deliver(c, payload))
  }

  function OnDataFirst(c: Channel, total: nat, chunk: seq<byte>): Effect {
    if total > MAX_REASSEMBLY then Effect(c.(buf := [], total := 0), [])
    else if Uint32(|chunk|) >= total then Effect(c.(buf := [], total := 0), Deliver(c, chunk[..total]))
    else Effect(c.(buf := chunk, total := total), [])
  }

  datatype Admission = Rejected | Accepted(handled: bool)

  /** The channel callback: what it decides for a channel name. */
  type Policy = seq<byte> -> Admission

  /** The bytes before the first zero. */
  function CString(s: seq<byte>): seq<byte> {
    if s == [] || s[0] == 0 then [] else [s[0]] + CString(s[1..])
  }

  datatype Slot = Closed | Open(c: Channel)

  /** What a PDU does to the channel it names; Closed when the channel is not open. */
  function ChannelStep(admit: Policy, c: Slot, pdu: seq<byte>): (Slot, seq<seq<byte>>) {
    if pdu == [] then (c, []) else
    var (id, off) := Target(pdu);
    var cmd := Cmd(pdu[0]);
    if cmd == CMD_DATA && c.Open? then
      var e := OnData(c.c, pdu[off..]);
      (Open(e.channel), e.delivered)
    else if cmd == CMD_DATA_FIRST && c.Open? then
      var (total, n) := GetChannelId(pdu[off..], Sp(pdu[0]));
      var e := OnDataFirst(c.c, total, pdu[off + n..]);
      (Open(e.channel), e.delivered)
    else if cmd == CMD_CREATE && off < |pdu| then
      match admit(CString(pdu[off..]))
      case Rejected => (c, [])
      case Accepted(handled) => (Open(Channel(handled, [], 0)), [])
    else if cmd == CMD_CLOSE then (Closed, [])
    else (c, [])
  }

  type Channels = map<nat, Channel>

  function Lookup(chs: Channels, id: nat): Slot {
    if id in chs then Open(chs[id]) else Closed
  }

  function Store(chs: Channels, id: nat, c: Slot): Channels {
    match c
    case Open(ch) => chs[id := ch]
    case Closed => chs - {id}
  }

  lemma {:induction false} StoreLookup(chs: Channels, id: nat)
    ensures Store(chs, id, Lookup(chs, id)) == chs
  {
  }

  function Tag(id: nat, msgs: seq<seq<byte>>): seq<Tagged> {
    if msgs == [] then [] else [Tagged(id, msgs[0])] + Tag(id, msgs[1..])
  }

  function Step(admit: Policy, chs: Channels, pdu: seq<byte>): (Channels, seq<Tagged>) {
    if pdu == [] then (chs, [])
    else
      var id := Target(pdu).0;
      var (c, out) := ChannelStep(admit, Lookup(chs, id), pdu);
      (Store(chs, id, c), Tag(id, out))
  }

  /** DRDYNVC state on the static channel, with the log of handler calls and of sends. */
  class Handler {
    var channels: Channels
    var delivered: seq<Tagged>
    var sent: seq<seq<byte>>
    const maxPDUPayload: nat
    const onChannel: Policy

    constructor (max: int, onChannel: Policy)
      ensures channels == map[] && delivered == [] && sent == []
      ensures maxPDUPayload == if max <= 0 then 1600 else max
      ensures this.onChannel == onChannel
    {
      channels, delivered, sent := map[], [], [];
      maxPDUPayload := if max <= 0 then 1600 else max;
      this.onChannel := onChannel;
    }

    method ProcessPDU(data: seq<byte>)
      modifies this
      ensures channels == Step(onChannel, old(channels), data).0
      ensures delivered == old(delivered) + Step(onChannel, old(channels), data).1
      ensures sent == old(sent)
    {
      if |data| < 1 {
        return;
      }
      var cmd, cb := Cmd(data[0]), CbId(data[0]);
      var (id, n) := GetChannelId(data[1..], cb);
      var off := 1 + n;
      if cmd == CMD_CREATE {
        HandleCreate(data, id, off);
      } else if cmd == CMD_DATA {
        HandleData(data, id, off);
      } else if cmd == CMD_DATA_FIRST {
        HandleDataFirst(data, id, off);
      } else if cmd == CMD_CLOSE {
        channels := channels - {id};
      }
    }

    method Dispatch(id: nat, data: seq<byte>)
      requires id in channels
      modifies this`delivered
      ensures delivered == old(delivered) + Tag(id, Deliver(channels[id], data))
    {
      if channels[id].handled {
        delivered := delivered + [Tagged(id, data)];
      }
    }

    method HandleCreate(data: seq<byte>, id: nat, off: nat)
      requires data != [] && Cmd(data[0]) == CMD_CREATE && Target(data) == (id, off)
      modifies this`channels
      ensures channels == Step(onChannel, old(channels), data).0
    {
      if off >= |data| {
        return;
      }
      var name := ReadName(data[off..]);
      StoreLookup(channels, id);
      match onChannel(name)
      case Rejected =>
      case Accepted(handled) => channels := channels[id := Channel(handled, [], 0)];
    }

    /** The null-terminated channel name. */
    method ReadName(nameBytes: seq<byte>) returns (name: seq<byte>)
      ensures name == CString(nameBytes)
    {
      var nameEnd := 0;
      while nameEnd < |nameBytes| && nameBytes[nameEnd] != 0
        invariant nameEnd <= |nameBytes|
        invariant nameBytes[..nameEnd] + CString(nameBytes[nameEnd..]) == CString(nameBytes)
      {
        assert nameBytes[nameEnd..][1..] == nameBytes[nameEnd + 1..];
        nameEnd := nameEnd + 1;
      }
      name := nameBytes[..nameEnd];
    }

    method HandleData(data: seq<byte>, id: nat, off: nat)
      requires data != [] && Cmd(data[0]) == CMD_DATA && Target(data) == (id, off)
      modifies this`channels, this`delivered
      ensures channels == Step(onChannel, old(channels), data).0
      ensures delivered == old(delivered) + Step(onChannel, old(channels), data).1
    {
      if id !in channels {
        return;
      }
      var payload, ch := data[off..], channels[id];
      if ch.total > 0 {
        ch := ch.(buf := ch.buf + payload);
        if Uint32(|ch.buf|) >= ch.total {
          Dispatch(id, ch.buf[..ch.total]);
          ch := ch.(buf := [], total := 0);
        }
        channels := channels[id := ch];
        return;
      }
      Dispatch(id, payload);
    }

    method HandleDataFirst(data: seq<byte>, id: nat, off: nat)
      requires data != [] && Cmd(data[0]) == CMD_DATA_FIRST && Target(data) == (id, off)
      modifies this`channels, this`delivered
      ensures channels == Step(onChannel, old(channels), data).0
      ensures delivered == old(delivered) + Step(onChannel, old(channels), data).1
    {
      if id !in channels {
        return;
      }
      var ch := channels[id];
      var (totalLen, n) := GetChannelId(data[off..], Sp(data[0]));
      if totalLen > MAX_REASSEMBLY {
        channels := channels[id := ch.(buf := [], total := 0)];
        return;
      }
      ch := ch.(buf := data[off + n..]);
      if Uint32(|ch.buf|) >= totalLen {
        Dispatch(id, ch.buf[..totalLen]);
        channels := channels[id := ch.(buf := [], total := 0)];
      } else {
        channels := channels[id := ch.(total := totalLen)];
      }
    }

    method SendData(channelID: nat, data: seq<byte>)
      requires channelID < TWO_32 && Splittable(maxPDUPayload, channelID, |data|)
      modifies this`sent
      ensures sent == old(sent) + Fragments(maxPDUPayload, channelID, data)
    {
      hide DataPdu, DataFirstPdu, DataChunks;
      var dataHdrSize := 1 + ChannelIdLen(CbIdSize(channelID));
      if dataHdrSize + |data| <= maxPDUPayload {
        sent := sent + [DataPdu(channelID, data)];
        return;
      }
      var total := Uint32(|data|);
      var firstDataLen := maxPDUPayload - FirstHdrSize(channelID, total);
      sent := sent + [DataFirstPdu(channelID, total, data[..firstDataLen])];
      SendChunks(channelID, data, firstDataLen);
    }

    /** The fragments after the first. */
    method SendChunks(channelID: nat, data: seq<byte>, start: nat)
      requires channelID < TWO_32 && DataHdrSize(channelID) < maxPDUPayload && start <= |data|
      modifies this`sent
      ensures sent == old(sent) + DataChunks(maxPDUPayload, channelID, data[start..])
    {
      hide DataPdu, DataHdrSize;
      var pos, room := start, maxPDUPayload - DataHdrSize(channelID);
      ghost var goal := sent + DataChunks(maxPDUPayload, channelID, data[start..]);
      while pos < |data|
        invariant pos <= |data|
        invariant sent + DataChunks(maxPDUPayload, channelID, data[pos..]) == goal
      {
        hide DataChunks;
        var chunkLen := |data| - pos;
        if chunkLen > room {
          chunkLen := room;
        }
        ChunksStep(maxPDUPayload, channelID, data, pos, chunkLen);
        ghost var rest := DataChunks(maxPDUPayload, channelID, data[pos + chunkLen..]);
        var frag := DataPdu(channelID, data[pos..pos + chunkLen]);
        assert (sent + [frag]) + rest == sent + ([frag] + rest);
        sent := sent + [frag];
        pos := pos + chunkLen;
      }
    }
  }
}
