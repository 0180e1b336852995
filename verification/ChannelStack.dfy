/** Both channel layers together: dynamic-channel messages, fragmented into PDUs,
    chunked onto a static channel, interleaved with everything else. */
module ChannelStack {
  import opened Bits
  import opened Wire
  import opened StaticChannel
  import Dvc
  import DvcRuns

  function Run(s: State, run: seq<Tagged>): (State, seq<Tagged>)
    decreases run
  {
    if run == [] then (s, [])
    else
      var (s1, out) := Step(s, run[0]);
      var (s2, out') := Run(s1, run[1..]);
      (s2, out + out')
  }

  /** In every reachable state the counter is the sum of all buffered bytes. */
  lemma {:induction false} RunKeepsTotal(s: State, run: seq<Tagged>)
    requires s.total == Held(s.buffers)
    ensures var s' := Run(s, run).0; s'.total == Held(s'.buffers)
    decreases run
  {
    if run != [] {
      StepKeepsTotal(s, run[0]);
      RunKeepsTotal(Step(s, run[0]).0, run[1..]);
    }
  }

  function ChannelRun(p: Pending, pdus: seq<seq<byte>>): (Pending, seq<seq<byte>>)
    decreases pdus
  {
    if pdus == [] then (p, [])
    else
      var (p1, out) := ChannelStep(p, pdus[0]);
      var (p2, out') := ChannelRun(p1, pdus[1..]);
      (p2, out + out')
  }

  /** No PDU of channel id is refused by the size limits when it arrives. */
  ghost predicate AdmittedOn(s: State, run: seq<Tagged>, id: nat)
    decreases run
  {
    run == [] || ((run[0].id == id ==> Admitted(s, run[0].data)) && AdmittedOn(Step(s, run[0]).0, run[1..], id))
  }

  lemma {:induction false} StepIsLocal(s: State, t: Tagged, id: nat)
    requires t.id == id ==> Admitted(s, t.data)
    ensures var (s', out) := Step(s, t);
            if t.id == id then (Lookup(s'.buffers, id), On(out, id)) == ChannelStep(Lookup(s.buffers, id), t.data)
            else Lookup(s'.buffers, id) == Lookup(s.buffers, id) && On(out, id) == []
  {
    if Admitted(s, t.data) {
      var (p, o) := ChannelStep(Lookup(s.buffers, t.id), t.data);
      hide ChannelStep;
      if o != [] {
        assert o == [o[0]] && [o[0]] + [] == o;
        assert Step(s, t).1[1..] == [];
      }
    }
  }

  lemma {:induction false} ChannelRunCons(p: Pending, pdu: seq<byte>, rest: seq<seq<byte>>)
    ensures var (p1, out) := ChannelStep(p, pdu);
            var (p2, out') := ChannelRun(p1, rest);
            ChannelRun(p, [pdu] + rest) == (p2, out + out')
  {
    hide ChannelStep;
    assert ([pdu] + rest)[1..] == rest;
  }

  /** Each static channel sees its own chunks only. */
  lemma {:induction false} RunIsLocal(s: State, run: seq<Tagged>, id: nat)
    requires AdmittedOn(s, run, id)
    ensures var (s', out) := Run(s, run);
            (Lookup(s'.buffers, id), On(out, id)) == ChannelRun(Lookup(s.buffers, id), On(run, id))
    decreases run
  {
    hide Step, ChannelStep, Lookup;
    if run != [] {
      var (s1, out) := Step(s, run[0]);
      var (s2, out') := Run(s1, run[1..]);
      StepIsLocal(s, run[0], id);
      RunIsLocal(s1, run[1..], id);
      OnConcat(out, out', id);
      ChannelRunCons(Lookup(s.buffers, id), run[0].data, On(run[1..], id));
      assert [] + On(out', id) == On(out', id) && [] + On(run[1..], id) == On(run[1..], id);
    }
  }

  lemma {:induction false} ChannelRunConcat(p: Pending, a: seq<seq<byte>>, b: seq<seq<byte>>)
    ensures var (p1, out1) := ChannelRun(p, a);
            var (p2, out2) := ChannelRun(p1, b);
            ChannelRun(p, a + b) == (p2, out1 + out2)
    decreases a
  {
    hide ChannelStep;
    if a == [] {
      var out2 := ChannelRun(p, b).1;
      assert a + b == b && [] + out2 == out2;
    } else {
      var (p', out) := ChannelStep(p, a[0]);
      ChannelRunConcat(p', a[1..], b);
      ChannelRunCons(p, a[0], a[1..] + b);
      assert a + b == [a[0]] + (a[1..] + b);
      var (p1, out1) := ChannelRun(p', a[1..]);
      var (p2, out2) := ChannelRun(p1, b);
      assert out + (out1 + out2) == (out + out1) + out2;
    }
  }

  // ---------- one static message ----------

  /** The chunks after the first complete whatever buffer they find, and are dropped
      where there is none. */
  lemma {:induction false} LaterChunks(p: Pending, data: seq<byte>, off: nat, showProto: bool)
    requires 0 < off < |data|
    ensures ChannelRun(p, ChunksFrom(data, off, showProto)) == (Absent, if p.Absent? then [] else [p.buf + data[off..]])
    decreases |data| - off
  {
    hide *;
    var end := ChunkEnd(data, off);
    var chunk, rest := data[off..end], ChunksFrom(data, end, showProto);
    var pdu := ChunkPdu(Uint32(|data|), ChunkFlags(false, end == |data|, showProto), chunk);
    ChunksCons(data, off, showProto);
    ChannelRunCons(p, pdu, rest);
    LaterChunk(p, Uint32(|data|), chunk, end == |data|, showProto);
    var p1 := ChannelStep(p, pdu).0;
    if end < |data| {
      LaterChunks(p1, data, end, showProto);
      var last := ChannelRun(p1, rest).1;
      assert [] + last == last;
      if p.Buffered? { assert p.buf + chunk + data[end..] == p.buf + data[off..]; }
    } else {
      RunNothing(p1);
      var last := ChannelStep(p, pdu).1;
      assert last + [] == last && chunk == data[off..];
    }
  }

  function ChunkEnd(data: seq<byte>, off: nat): (end: nat)
    requires off < |data|
    ensures off < end <= |data|
  {
    if off + CHUNK_SIZE < |data| then off + CHUNK_SIZE else |data|
  }

  lemma {:induction false} ChunksCons(data: seq<byte>, off: nat, showProto: bool)
    requires off < |data|
    ensures var end := ChunkEnd(data, off);
            && ChunksFrom(data, off, showProto) ==
                 [ChunkPdu(Uint32(|data|), ChunkFlags(off == 0, end == |data|, showProto), data[off..end])] + ChunksFrom(data, end, showProto)
            && (end == |data| ==> ChunksFrom(data, end, showProto) == [])
  {
    hide ChunkPdu, ChunkFlags;
  }

  lemma {:induction false} RunNothing(p: Pending)
    ensures ChannelRun(p, []) == (p, [])
  {
  }

  lemma {:induction false} LaterChunk(p: Pending, total: nat, chunk: seq<byte>, last: bool, showProto: bool)
    requires total < TWO_32
    ensures ChannelStep(p, ChunkPdu(total, ChunkFlags(false, last, showProto), chunk)) ==
              if p.Absent? then (Absent, []) else if last then (Absent, [p.buf + chunk]) else (Buffered(p.buf + chunk), [])
  {
    hide ChunkPdu, ChunkFlags;
  }

  /** The chunks of a message rebuild it, whatever was pending. */
  lemma {:induction false} ChunksReceived(p: Pending, data: seq<byte>, showProto: bool)
    requires data != []
    ensures ChannelRun(p, Chunks(data, showProto)) == (Absent, [data])
  {
    hide *;
    var end := ChunkEnd(data, 0);
    var rest := ChunksFrom(data, end, showProto);
    var pdu := ChunkPdu(Uint32(|data|), ChunkFlags(true, end == |data|, showProto), data[0..end]);
    ChunksAre(data, showProto);
    ChunksCons(data, 0, showProto);
    ChannelRunCons(p, pdu, rest);
    FirstChunk(p, Uint32(|data|), data[0..end], end == |data|, showProto);
    if end < |data| {
      LaterChunks(Buffered(data[0..end]), data, end, showProto);
      assert [] + [data[0..end] + data[end..]] == [data[0..end] + data[end..]];
      assert data[0..end] + data[end..] == data;
    } else {
      RunNothing(Absent);
      assert [data[0..end]] + [] == [data[0..end]] && data[0..end] == data;
    }
  }

  lemma {:induction false} ChunksAre(data: seq<byte>, showProto: bool)
    ensures Chunks(data, showProto) == ChunksFrom(data, 0, showProto)
  {
  }

  lemma {:induction false} FirstChunk(p: Pending, total: nat, chunk: seq<byte>, last: bool, showProto: bool)
    requires total < TWO_32
    ensures ChannelStep(p, ChunkPdu(total, ChunkFlags(true, last, showProto), chunk)) ==
              if last then (Absent, [chunk]) else (Buffered(chunk), [])
  {
    hide ChunkPdu, ChunkFlags;
  }

  function Stream(msgs: seq<seq<byte>>, showProto: bool): seq<seq<byte>> {
    if msgs == [] then [] else Chunks(msgs[0], showProto) + Stream(msgs[1..], showProto)
  }

  ghost predicate AllNonempty(msgs: seq<seq<byte>>) { forall m :: m in msgs ==> m != [] }

  lemma {:induction false} StreamReceived(p: Pending, msgs: seq<seq<byte>>, showProto: bool)
    requires AllNonempty(msgs)
    ensures ChannelRun(p, Stream(msgs, showProto)).1 == msgs
    decreases msgs
  {
    hide *;
    StreamIs(msgs, showProto);
    if msgs == [] {
      RunNothing(p);
    } else {
      NonemptyIs(msgs);
      ChunksReceived(p, msgs[0], showProto);
      StreamReceived(Absent, msgs[1..], showProto);
      ChannelRunConcat(p, Chunks(msgs[0], showProto), Stream(msgs[1..], showProto));
      assert [msgs[0]] + msgs[1..] == msgs;
    }
  }

  lemma {:induction false} StreamIs(msgs: seq<seq<byte>>, showProto: bool)
    ensures Stream(msgs, showProto) == if msgs == [] then [] else Chunks(msgs[0], showProto) + Stream(msgs[1..], showProto)
  {
    hide Chunks;
  }

  lemma {:induction false} NonemptyIs(msgs: seq<seq<byte>>)
    requires AllNonempty(msgs) && msgs != []
    ensures msgs[0] != [] && AllNonempty(msgs[1..])
  {
    assert msgs[0] in msgs && forall m :: m in msgs[1..] ==> m in msgs;
  }

  /** Every interleaving of chunk streams: a channel whose starts are all admitted gets
      its messages whole and in order, whatever it held before and whatever other
      channels receive. */
  lemma {:induction false} InterleavingDelivers(s: State, run: seq<Tagged>, id: nat, msgs: seq<seq<byte>>, showProto: bool)
    requires AllNonempty(msgs) && On(run, id) == Stream(msgs, showProto) && AdmittedOn(s, run, id)
    ensures On(Run(s, run).1, id) == msgs
  {
    RunIsLocal(s, run, id);
    StreamReceived(Lookup(s.buffers, id), msgs, showProto);
  }

  // ---------- the size limits ----------

  /** The guard a multi-chunk message must pass when its first chunk arrives. */
  predicate Fits(s: State, len: nat) {
    Uint32(len) <= MAX_REASSEMBLY && s.total + Uint32(len) <= MAX_REASSEMBLY_GLOBAL
  }

  /** The PDU starts a message of several chunks. */
  predicate Opens(pdu: seq<byte>) { |pdu| >= 8 && First(FlagsOf(pdu)) && !Last(FlagsOf(pdu)) }

  /** PDUs that do not start a message of several chunks are never refused. */
  lemma {:induction false} OnlyStartsRefused(s: State, run: seq<Tagged>, id: nat)
    requires forall p :: p in On(run, id) ==> !Opens(p)
    ensures AdmittedOn(s, run, id)
    decreases run
  {
    if run != [] {
      hide Step;
      if run[0].id == id { OnMember(run, id, 0); }
      assert forall p :: p in On(run[1..], id) ==> p in On(run, id);
      OnlyStartsRefused(Step(s, run[0]).0, run[1..], id);
    }
  }

  lemma {:induction false} LaterChunksDoNotOpen(data: seq<byte>, off: nat, showProto: bool)
    requires 0 < off <= |data|
    ensures forall p :: p in ChunksFrom(data, off, showProto) ==> !Opens(p)
    decreases |data| - off
  {
    if off < |data| {
      LaterChunksDoNotOpen(data, if off + CHUNK_SIZE < |data| then off + CHUNK_SIZE else |data|, showProto);
    }
  }

  /** What a channel delivers of a message of several chunks that starts in state s: the
      message if its start fits the limits; else what was pending, completed by the rest
      of the message; else nothing. */
  function Outcome(s: State, id: nat, data: seq<byte>): seq<seq<byte>>
    requires |data| > CHUNK_SIZE
  {
    if Fits(s, |data|) then [data] else if id in s.buffers then [s.buffers[id] + data[CHUNK_SIZE..]] else []
  }

  /** For every state and message, under any interleaving with other channels. */
  lemma {:induction false} MessageOutcome(s: State, run: seq<Tagged>, data: seq<byte>, showProto: bool, id: nat)
    requires |data| > CHUNK_SIZE && run != [] && run[0].id == id && On(run, id) == Chunks(data, showProto)
    ensures On(Run(s, run).1, id) == Outcome(s, id, data)
  {
    hide *;
    var first := FirstOf(data, showProto);
    var later := ChunksFrom(data, CHUNK_SIZE, showProto);
    SeveralChunks(data, showProto);
    FirstOn(run, id);
    assert On(run[1..], id) == On(run, id)[1..] == later;
    LaterChunksDoNotOpen(data, CHUNK_SIZE, showProto);
    StartIs(s, run[0], data, showProto);
    OnlyStartsRefused(Step(s, run[0]).0, run[1..], id);
    OutcomeIs(s, id, data);
    if Fits(s, |data|) {
      AdmittedCons(s, run, id);
      RunIsLocal(s, run, id);
      ChunksReceived(Lookup(s.buffers, id), data, showProto);
    } else {
      RunIsLocal(s, run[1..], id);
      LaterChunks(Lookup(s.buffers, id), data, CHUNK_SIZE, showProto);
      RunRefused(s, run);
      LookupIs(s.buffers, id);
    }
  }

  function FirstOf(data: seq<byte>, showProto: bool): seq<byte>
    requires |data| > CHUNK_SIZE
  {
    ChunkPdu(Uint32(|data|), ChunkFlags(true, false, showProto), data[..CHUNK_SIZE])
  }

  lemma {:induction false} SeveralChunks(data: seq<byte>, showProto: bool)
    requires |data| > CHUNK_SIZE
    ensures CHUNK_SIZE > 0
    ensures Chunks(data, showProto) == [FirstOf(data, showProto)] + ChunksFrom(data, CHUNK_SIZE, showProto)
  {
    hide ChunkPdu, ChunkFlags;
    assert data[0..CHUNK_SIZE] == data[..CHUNK_SIZE];
  }

  lemma {:induction false} FirstOn(run: seq<Tagged>, id: nat)
    requires run != [] && run[0].id == id
    ensures On(run, id) == [run[0].data] + On(run[1..], id)
  {
  }

  /** A start is admitted if it fits; a refused one changes and delivers nothing. */
  lemma {:induction false} StartIs(s: State, t: Tagged, data: seq<byte>, showProto: bool)
    requires |data| > CHUNK_SIZE && t.data == FirstOf(data, showProto)
    ensures Admitted(s, t.data) <==> Fits(s, |data|)
    ensures !Fits(s, |data|) ==> Step(s, t) == (s, [])
  {
  }

  lemma {:induction false} AdmittedCons(s: State, run: seq<Tagged>, id: nat)
    requires run != [] && Admitted(s, run[0].data) && AdmittedOn(Step(s, run[0]).0, run[1..], id)
    ensures AdmittedOn(s, run, id)
  {
    hide Step, Admitted;
  }

  lemma {:induction false} RunRefused(s: State, run: seq<Tagged>)
    requires run != [] && Step(s, run[0]) == (s, [])
    ensures Run(s, run) == Run(s, run[1..])
  {
    hide Step;
    assert [] + Run(s, run[1..]).1 == Run(s, run[1..]).1;
  }

  lemma {:induction false} OutcomeIs(s: State, id: nat, data: seq<byte>)
    requires |data| > CHUNK_SIZE
    ensures Outcome(s, id, data) ==
              if Fits(s, |data|) then [data] else if id in s.buffers then [s.buffers[id] + data[CHUNK_SIZE..]] else []
  {
  }

  lemma {:induction false} LookupIs(m: Buffers, id: nat)
    ensures Lookup(m, id) == if id in m then Buffered(m[id]) else Absent
  {
  }

  /** A message of several chunks arrives exactly if and only if its start fits the
      limits, or the channel happens to hold the very bytes of the refused first chunk. */
  lemma {:induction false} ArrivesIffItFits(s: State, run: seq<Tagged>, data: seq<byte>, showProto: bool, id: nat)
    requires |data| > CHUNK_SIZE && run != [] && run[0].id == id && On(run, id) == Chunks(data, showProto)
    ensures On(Run(s, run).1, id) == [data] <==> Fits(s, |data|) || (id in s.buffers && s.buffers[id] == data[..CHUNK_SIZE])
  {
    hide Run, Chunks;
    MessageOutcome(s, run, data, showProto, id);
    assert data == data[..CHUNK_SIZE] + data[CHUNK_SIZE..];
    if id in s.buffers && s.buffers[id] + data[CHUNK_SIZE..] == data {
      assert |s.buffers[id]| == CHUNK_SIZE;
      assert (s.buffers[id] + data[CHUNK_SIZE..])[..CHUNK_SIZE] == s.buffers[id];
    }
  }

  /** From the start of a connection: a message over the limit follows the first chunk of
      another, and the channel delivers the one's first chunk with the other's rest. */
  lemma {:induction false} RefusedStartMixesMessages(other: seq<byte>, data: seq<byte>, run: seq<Tagged>, showProto: bool, id: nat)
    requires CHUNK_SIZE < |other| <= MAX_REASSEMBLY < |data| < TWO_32
    requires run != [] && run[0].id == id && On(run, id) == Chunks(data, showProto)
    ensures var started := Step(State(map[], 0), Tagged(id, Chunks(other, showProto)[0])).0;
            && started.total == Held(started.buffers)
            && On(Run(started, run).1, id) == [other[..CHUNK_SIZE] + data[CHUNK_SIZE..]]
  {
    var s := State(map[], 0);
    var t := Tagged(id, Chunks(other, showProto)[0]);
    StepKeepsTotal(s, t);
    Started(other, showProto, id);
    hide Step, Run, Chunks;
    MessageOutcome(Step(s, t).0, run, data, showProto, id);
  }

  lemma {:induction false} Started(other: seq<byte>, showProto: bool, id: nat)
    requires CHUNK_SIZE < |other| <= MAX_REASSEMBLY
    ensures Step(State(map[], 0), Tagged(id, Chunks(other, showProto)[0])) == (State(map[id := other[..CHUNK_SIZE]], CHUNK_SIZE), [])
  {
    assert other[0..CHUNK_SIZE] == other[..CHUNK_SIZE];
  }

  // ---------- both layers ----------

  /** A message of one chunk is never subject to the limits. */
  lemma {:induction false} SmallAlwaysAdmitted(s: State, run: seq<Tagged>, id: nat)
    requires forall p :: p in On(run, id) ==> |p| >= 8 && First(FlagsOf(p)) && Last(FlagsOf(p))
    ensures AdmittedOn(s, run, id)
  {
    OnlyStartsRefused(s, run, id);
  }

  lemma {:induction false} SmallChunks(data: seq<byte>, showProto: bool)
    requires 0 < |data| <= CHUNK_SIZE
    ensures Chunks(data, showProto) == [ChunkPdu(|data|, ChunkFlags(true, true, showProto), data)]
  {
    assert data[0..|data|] == data;
    var pdu := ChunkPdu(|data|, ChunkFlags(true, true, showProto), data);
    assert ChunksFrom(data, |data|, showProto) == [] && [pdu] + [] == [pdu];
  }

  lemma {:induction false} SmallStream(msgs: seq<seq<byte>>, showProto: bool)
    requires forall m :: m in msgs ==> 0 < |m| <= CHUNK_SIZE
    ensures forall p :: p in Stream(msgs, showProto) ==> |p| >= 8 && First(FlagsOf(p)) && Last(FlagsOf(p))
  {
    if msgs != [] {
      SmallChunks(msgs[0], showProto);
      SmallStream(msgs[1..], showProto);
    }
  }

  /** End to end: dynamic-channel messages sent on channels dvcId, in any interleaving
      of their fragments, carried by static channel id in any interleaving with any
      other static traffic, reach their handlers once, whole and in order.  The size
      limits never interfere. */
  lemma {:induction false} StackDelivers(
      s: State, run: seq<Tagged>, id: nat, pdus: seq<seq<byte>>, showProto: bool,
      admit: Dvc.Policy, chs: Dvc.Channels, dvcId: nat, msgs: seq<seq<byte>>)
    requires forall p :: p in pdus ==> 0 < |p| <= CHUNK_SIZE
    requires On(run, id) == Stream(pdus, showProto)
    requires DvcRuns.Idle(Dvc.Lookup(chs, dvcId), true) && DvcRuns.Sendable(CHUNK_SIZE, dvcId, msgs)
    requires DvcRuns.PdusFor(pdus, dvcId) == DvcRuns.Stream(CHUNK_SIZE, dvcId, msgs)
    ensures On(Run(s, run).1, id) == pdus
    ensures On(DvcRuns.Run(admit, chs, On(Run(s, run).1, id)).1, dvcId) == msgs
  {
    SmallStream(pdus, showProto);
    SmallAlwaysAdmitted(s, run, id);
    InterleavingDelivers(s, run, id, pdus, showProto);
    DvcRuns.InterleavingDelivers(admit, chs, pdus, CHUNK_SIZE, dvcId, msgs);
  }
}
