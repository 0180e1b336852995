/** Whole runs of the dynamic channel protocol: any interleaving of the fragment
    streams of different channels is reassembled message for message. */
module DvcRuns {
  import opened Bits
  import opened Wire
  import opened Dvc

  function Run(admit: Policy, chs: Channels, pdus: seq<seq<byte>>): (Channels, seq<Tagged>)
    decreases pdus
  {
    if pdus == [] then (chs, [])
    else
      var (chs1, out) := Step(admit, chs, pdus[0]);
      var (chs2, out') := Run(admit, chs1, pdus[1..]);
      (chs2, out + out')
  }

  /** The PDUs of a run that name channel id. */
  function PdusFor(pdus: seq<seq<byte>>, id: nat): seq<seq<byte>> {
    if pdus == [] then []
    else (if pdus[0] != [] && Target(pdus[0]).0 == id then [pdus[0]] else []) + PdusFor(pdus[1..], id)
  }

  function ChannelRun(admit: Policy, c: Slot, pdus: seq<seq<byte>>): (Slot, seq<seq<byte>>)
    decreases pdus
  {
    if pdus == [] then (c, [])
    else
      var (c1, out) := ChannelStep(admit, c, pdus[0]);
      var (c2, out') := ChannelRun(admit, c1, pdus[1..]);
      (c2, out + out')
  }

  lemma {:induction false} ChannelRunCons(admit: Policy, c: Slot, p: seq<byte>, rest: seq<seq<byte>>)
    ensures var (c1, out) := ChannelStep(admit, c, p);
            var (c2, out') := ChannelRun(admit, c1, rest);
            ChannelRun(admit, c, [p] + rest) == (c2, out + out')
  {
    hide ChannelStep;
    assert ([p] + rest)[1..] == rest;
  }

  lemma {:induction false} OnTag(id: nat, msgs: seq<seq<byte>>, other: nat)
    ensures On(Tag(id, msgs), other) == if other == id then msgs else []
  {
    if msgs != [] {
      OnTag(id, msgs[1..], other);
      assert Tag(id, msgs)[1..] == Tag(id, msgs[1..]);
    }
  }

  /** A PDU acts on the channel it names and on no other. */
  lemma {:induction false} StepIsLocal(admit: Policy, chs: Channels, pdu: seq<byte>, id: nat)
    ensures var (chs', out) := Step(admit, chs, pdu);
            if pdu != [] && Target(pdu).0 == id then
              (Lookup(chs', id), On(out, id)) == ChannelStep(admit, Lookup(chs, id), pdu)
            else Lookup(chs', id) == Lookup(chs, id) && On(out, id) == []
  {
    hide ChannelStep;
    if pdu != [] {
      var t := Target(pdu).0;
      OnTag(t, ChannelStep(admit, Lookup(chs, t), pdu).1, id);
    }
  }

  /** Each channel sees its own PDUs only, however the run interleaves them. */
  lemma {:induction false} RunIsLocal(admit: Policy, chs: Channels, pdus: seq<seq<byte>>, id: nat)
    ensures var (chs', out) := Run(admit, chs, pdus);
            (Lookup(chs', id), On(out, id)) == ChannelRun(admit, Lookup(chs, id), PdusFor(pdus, id))
    decreases pdus
  {
    hide Step, ChannelStep, Lookup, Target;
    if pdus != [] {
      var (chs1, out) := Step(admit, chs, pdus[0]);
      var (chs2, out') := Run(admit, chs1, pdus[1..]);
      StepIsLocal(admit, chs, pdus[0], id);
      RunIsLocal(admit, chs1, pdus[1..], id);
      OnConcat(out, out', id);
      PdusForCons(pdus, id);
      ChannelRunCons(admit, Lookup(chs, id), pdus[0], PdusFor(pdus[1..], id));
      assert [] + On(out', id) == On(out', id);
    }
  }

  lemma {:induction false} PdusForCons(pdus: seq<seq<byte>>, id: nat)
    requires pdus != []
    ensures PdusFor(pdus, id) ==
      if pdus[0] != [] && Target(pdus[0]).0 == id then [pdus[0]] + PdusFor(pdus[1..], id) else PdusFor(pdus[1..], id)
  {
  }

  lemma {:induction false} ChannelRunConcat(admit: Policy, c: Slot, a: seq<seq<byte>>, b: seq<seq<byte>>)
    ensures var (c1, out1) := ChannelRun(admit, c, a);
            var (c2, out2) := ChannelRun(admit, c1, b);
            ChannelRun(admit, c, a + b) == (c2, out1 + out2)
    decreases a
  {
    hide ChannelStep;
    if a == [] {
      var out2 := ChannelRun(admit, c, b).1;
      assert a + b == b && [] + out2 == out2;
    } else {
      var (c', out) := ChannelStep(admit, c, a[0]);
      ChannelRunConcat(admit, c', a[1..], b);
      ChannelRunCons(admit, c, a[0], a[1..] + b);
      assert a + b == [a[0]] + (a[1..] + b);
      var (c1, out1) := ChannelRun(admit, c', a[1..]);
      var (c2, out2) := ChannelRun(admit, c1, b);
      assert out + (out1 + out2) == (out + out1) + out2;
    }
  }

  // ---------- one message ----------

  lemma {:induction false} HeaderFields(cmd: nat, sp: nat, cb: nat)
    requires cmd < 16 && sp < 4 && cb < 4
    ensures Cmd(Header(cmd, sp, cb)) == cmd && Sp(Header(cmd, sp, cb)) == sp && CbId(Header(cmd, sp, cb)) == cb
  {
    DivisionUnique(Header(cmd, sp, cb), 16, cmd, 4 * sp + cb);
    DivisionUnique(Header(cmd, sp, cb), 4, 4 * cmd + sp, cb);
    DivisionUnique(4 * cmd + sp, 4, cmd, sp);
    hide Header;
  }

  lemma {:induction false} DataPduDecodes(id: nat, payload: seq<byte>)
    requires id < TWO_32
    ensures var pdu := DataPdu(id, payload);
            pdu != [] && Cmd(pdu[0]) == CMD_DATA && Target(pdu) == (id, DataHdrSize(id)) && pdu[DataHdrSize(id)..] == payload
  {
    var pdu, s := DataPdu(id, payload), PutChannelId(id);
    HeaderFields(CMD_DATA, 0, CbIdSize(id));
    hide PutChannelId, GetChannelId, Header, Cmd, CbId;
    SplitPdu(pdu[0], s, [], payload);
    ChannelIdRoundTrip(id, payload);
  }

  lemma {:induction false} DataFirstDecodes(id: nat, total: nat, payload: seq<byte>)
    requires id < TWO_32 && total < TWO_32
    ensures var pdu := DataFirstPdu(id, total, payload);
            var off := 1 + ChannelIdLen(CbIdSize(id));
            && pdu != [] && Cmd(pdu[0]) == CMD_DATA_FIRST && Target(pdu) == (id, off)
            && GetChannelId(pdu[off..], Sp(pdu[0])) == (total, ChannelIdLen(CbIdSize(total)))
            && off + ChannelIdLen(CbIdSize(total)) <= |pdu|
            && pdu[off + ChannelIdLen(CbIdSize(total))..] == payload
  {
    var pdu, s, t := DataFirstPdu(id, total, payload), PutChannelId(id), PutChannelId(total);
    HeaderFields(CMD_DATA_FIRST, CbIdSize(total), CbIdSize(id));
    hide PutChannelId, GetChannelId, Header, Cmd, CbId, Sp;
    SplitPdu(pdu[0], s, t, payload);
    ChannelIdRoundTrip(id, t + payload);
    ChannelIdRoundTrip(total, payload);
  }

  lemma {:induction false} SplitPdu(hdr: byte, s: seq<byte>, t: seq<byte>, payload: seq<byte>)
    ensures var pdu := [hdr] + s + t + payload;
            pdu[1..] == s + (t + payload) && pdu[1 + |s|..] == t + payload && pdu[1 + |s| + |t|..] == payload
    ensures t == [] ==> [hdr] + s + t == [hdr] + s && t + payload == payload
  {
  }

  /** The payloads of the fragments after the first. */
  function Pieces(room: nat, data: seq<byte>): (ps: seq<seq<byte>>)
    requires room > 0
    decreases |data|
  {
    if data == [] then []
    else
      var n := if |data| > room then room else |data|;
      [data[..n]] + Pieces(room, data[n..])
  }

  /** How many more pieces are taken until have bytes are total bytes, lengths counted in
      32 bits. */
  function Needed(have: nat, total: nat, ps: seq<seq<byte>>): (k: nat)
    ensures k <= |ps|
    decreases ps
  {
    if ps == [] || Uint32(have) >= total then 0 else 1 + Needed(have + |ps[0]|, total, ps[1..])
  }

  function Cleared(c: Channel): Channel { c.(buf := [], total := 0) }

  /** What a handler, if there is one, is given. */
  function Given(c: Channel, msgs: seq<seq<byte>>): seq<seq<byte>> { if c.handled then msgs else [] }

  lemma {:induction false} PiecesCons(max: nat, id: nat, data: seq<byte>)
    requires id < TWO_32 && DataHdrSize(id) < max && data != []
    ensures var room := max - DataHdrSize(id);
            var n := if |data| > room then room else |data|;
            && Pieces(room, data) == [data[..n]] + Pieces(room, data[n..]) && 0 < n <= |data|
            && DataChunks(max, id, data) == [DataPdu(id, data[..n])] + DataChunks(max, id, data[n..])
  {
    hide DataPdu, DataHdrSize;
  }

  lemma {:induction false} NoPieces(max: nat, id: nat)
    requires id < TWO_32 && DataHdrSize(id) < max
    ensures Pieces(max - DataHdrSize(id), []) == [] && DataChunks(max, id, []) == []
  {
  }

  lemma {:induction false} ChannelRunNothing(admit: Policy, c: Slot)
    ensures ChannelRun(admit, c, []) == (c, [])
  {
  }

  lemma {:induction false} DataStep(admit: Policy, c: Channel, id: nat, payload: seq<byte>)
    requires id < TWO_32
    ensures var e := OnData(c, payload);
            ChannelStep(admit, Open(c), DataPdu(id, payload)) == (Open(e.channel), e.delivered)
  {
    hide OnData, DataPdu;
    DataPduDecodes(id, payload);
  }

  lemma {:induction false} FirstStep(admit: Policy, c: Channel, id: nat, total: nat, chunk: seq<byte>)
    requires id < TWO_32 && total < TWO_32
    ensures var e := OnDataFirst(c, total, chunk);
            ChannelStep(admit, Open(c), DataFirstPdu(id, total, chunk)) == (Open(e.channel), e.delivered)
  {
    hide OnDataFirst, DataFirstPdu;
    DataFirstDecodes(id, total, chunk);
  }

  /** Where nothing is pending, every fragment is taken for a message. */
  lemma {:induction false} PiecesDelivered(admit: Policy, c: Channel, max: nat, id: nat, data: seq<byte>)
    requires id < TWO_32 && DataHdrSize(id) < max && c.total == 0
    ensures ChannelRun(admit, Open(c), DataChunks(max, id, data)) == (Open(c), Given(c, Pieces(max - DataHdrSize(id), data)))
    decreases |data|
  {
    hide *;
    var room := max - DataHdrSize(id);
    if data == [] {
      NoPieces(max, id);
      ChannelRunNothing(admit, Open(c));
      GivenIs(c, [], []);
    } else {
      var n := if |data| > room then room else |data|;
      PiecesCons(max, id, data);
      DataStep(admit, c, id, data[..n]);
      IdleData(c, data[..n]);
      PiecesDelivered(admit, c, max, id, data[n..]);
      ChannelRunCons(admit, Open(c), DataPdu(id, data[..n]), DataChunks(max, id, data[n..]));
      GivenIs(c, [data[..n]], Pieces(room, data[n..]));
    }
  }

  lemma {:induction false} GivenIs(c: Channel, a: seq<seq<byte>>, b: seq<seq<byte>>)
    ensures Given(c, a + b) == Given(c, a) + Given(c, b) && Given(c, []) == []
  {
  }

  lemma {:induction false} IdleData(c: Channel, payload: seq<byte>)
    requires c.total == 0
    ensures OnData(c, payload) == Effect(c, Given(c, [payload]))
  {
  }

  /** A message in progress takes fragments until it has its length; the others are taken
      for messages. */
  lemma {:induction false} PiecesReceived(admit: Policy, c: Channel, max: nat, id: nat, data: seq<byte>)
    requires id < TWO_32 && DataHdrSize(id) < max && c.total > Uint32(|c.buf|) && c.total <= Uint32(|c.buf| + |data|)
    ensures var ps := Pieces(max - DataHdrSize(id), data);
            && c.total <= |c.buf + data|
            && ChannelRun(admit, Open(c), DataChunks(max, id, data)) ==
                 (Open(Cleared(c)), Given(c, [(c.buf + data)[..c.total]] + ps[Needed(|c.buf|, c.total, ps)..]))
    decreases |data|
  {
    hide *;
    var room := max - DataHdrSize(id);
    UintBelow(|c.buf| + |data|);
    assert data == [] ==> |c.buf| + |data| == |c.buf|;
    var n := if |data| > room then room else |data|;
    PiecesCons(max, id, data);
    var chunk, rest := data[..n], data[n..];
    var ps, ps' := Pieces(room, data), Pieces(room, rest);
    DataStep(admit, c, id, chunk);
    ChannelRunCons(admit, Open(c), DataPdu(id, chunk), DataChunks(max, id, rest));
    NeededStep(|c.buf|, c.total, chunk, ps');
    assert c.buf + data == (c.buf + chunk) + rest && |c.buf + chunk| == |c.buf| + n;
    if Uint32(|c.buf + chunk|) >= c.total {
      DataCompletes(c, chunk);
      PiecesDelivered(admit, Cleared(c), max, id, rest);
      GivenIs(c, [(c.buf + chunk)[..c.total]], ps');
      NeededDone(|c.buf + chunk|, c.total, ps');
      assert (c.buf + data)[..c.total] == (c.buf + chunk)[..c.total];
      assert ps[1..] == ps';
    } else {
      var c' := c.(buf := c.buf + chunk);
      DataGrows(c, chunk);
      PiecesReceived(admit, c', max, id, rest);
      var k := Needed(|c'.buf|, c.total, ps');
      assert ps[1 + k..] == ps'[k..];
      SameHandler(c, c', [(c.buf + data)[..c.total]] + ps'[k..]);
    }
  }

  lemma {:induction false} UintBelow(n: nat)
    ensures Uint32(n) <= n
  {
  }

  lemma {:induction false} NeededStep(have: nat, total: nat, p: seq<byte>, ps: seq<seq<byte>>)
    requires Uint32(have) < total
    ensures Needed(have, total, [p] + ps) == 1 + Needed(have + |p|, total, ps)
  {
    assert ([p] + ps)[1..] == ps;
  }

  lemma {:induction false} NeededDone(have: nat, total: nat, ps: seq<seq<byte>>)
    requires Uint32(have) >= total
    ensures Needed(have, total, ps) == 0
  {
  }

  lemma {:induction false} DataCompletes(c: Channel, chunk: seq<byte>)
    requires 0 < c.total <= Uint32(|c.buf + chunk|)
    ensures c.total <= |c.buf + chunk|
    ensures OnData(c, chunk) == Effect(Cleared(c), Given(c, [(c.buf + chunk)[..c.total]]))
    ensures Cleared(c).total == 0 && forall msgs :: Given(Cleared(c), msgs) == Given(c, msgs)
  {
  }

  lemma {:induction false} DataGrows(c: Channel, chunk: seq<byte>)
    requires 0 < c.total && Uint32(|c.buf + chunk|) < c.total
    ensures OnData(c, chunk) == Effect(c.(buf := c.buf + chunk), [])
  {
  }

  lemma {:induction false} SameHandler(c: Channel, c': Channel, msgs: seq<seq<byte>>)
    requires c' == c.(buf := c'.buf, total := c'.total)
    ensures Given(c', msgs) == Given(c, msgs) && Cleared(c') == Cleared(c) && [] + Given(c, msgs) == Given(c, msgs)
  {
  }

  /** The message does not fit one PDU. */
  predicate Fragmented(max: nat, id: nat, len: nat) { DataHdrSize(id) + len > max }

  /** What an open channel makes of one message, in any state and of any length.  A single
      PDU is a message, or more of the one that is pending.  The first of several fragments
      ends what is pending.  If it announces more than 64 MiB it is dropped, and every later
      fragment is taken for a message; else the fragments are taken until the announced
      length is reached, which is the message's own unless that exceeds 32 bits. */
  function Outcome(c: Channel, max: nat, id: nat, msg: seq<byte>): (e: Effect)
    requires id < TWO_32 && Splittable(max, id, |msg|)
  {
    if !Fragmented(max, id, |msg|) then OnData(c, msg)
    else
      var total := Uint32(|msg|);
      var n := max - FirstHdrSize(id, total);
      var ps := Pieces(max - DataHdrSize(id), msg[n..]);
      Effect(Cleared(c), Given(c, if total > MAX_REASSEMBLY then ps else [msg[..total]] + ps[Needed(n, total, ps)..]))
  }

  /** The fragments of any message, whatever was pending. */
  lemma {:induction false} FragmentsOutcome(admit: Policy, c: Channel, max: nat, id: nat, msg: seq<byte>)
    requires id < TWO_32 && Splittable(max, id, |msg|)
    ensures var e := Outcome(c, max, id, msg);
            ChannelRun(admit, Open(c), Fragments(max, id, msg)) == (Open(e.channel), e.delivered)
  {
    hide *;
    if Fragmented(max, id, |msg|) {
      SeveralOutcome(admit, c, max, id, msg);
    } else {
      OnePdu(c, max, id, msg);
      DataStep(admit, c, id, msg);
      var e := OnData(c, msg);
      ChannelRunCons(admit, Open(c), DataPdu(id, msg), []);
      ChannelRunNothing(admit, Open(e.channel));
      assert [DataPdu(id, msg)] + [] == [DataPdu(id, msg)] && e.delivered + [] == e.delivered;
    }
  }

  lemma {:induction false} OnePdu(c: Channel, max: nat, id: nat, msg: seq<byte>)
    requires id < TWO_32 && Splittable(max, id, |msg|) && !Fragmented(max, id, |msg|)
    ensures Fragments(max, id, msg) == [DataPdu(id, msg)] && Outcome(c, max, id, msg) == OnData(c, msg)
  {
    hide DataPdu, OnData;
  }

  lemma {:induction false} SeveralPdus(c: Channel, max: nat, id: nat, msg: seq<byte>)
    requires id < TWO_32 && Splittable(max, id, |msg|) && Fragmented(max, id, |msg|)
    ensures var total := Uint32(|msg|);
            var n := max - FirstHdrSize(id, total);
            && total <= |msg| && total < TWO_32 && DataHdrSize(id) < max && 0 <= n <= |msg|
            && Fragments(max, id, msg) == [DataFirstPdu(id, total, msg[..n])] + DataChunks(max, id, msg[n..])
            && var ps := Pieces(max - DataHdrSize(id), msg[n..]);
               Outcome(c, max, id, msg) ==
                 Effect(Cleared(c), Given(c, if total > MAX_REASSEMBLY then ps else [msg[..total]] + ps[Needed(n, total, ps)..]))
  {
    hide DataFirstPdu, DataChunks, Pieces, Needed;
  }

  lemma {:induction false} SeveralOutcome(admit: Policy, c: Channel, max: nat, id: nat, msg: seq<byte>)
    requires id < TWO_32 && Splittable(max, id, |msg|) && Fragmented(max, id, |msg|)
    ensures var e := Outcome(c, max, id, msg);
            ChannelRun(admit, Open(c), Fragments(max, id, msg)) == (Open(e.channel), e.delivered)
  {
    hide *;
    SeveralPdus(c, max, id, msg);
    var total := Uint32(|msg|);
    var n := max - FirstHdrSize(id, total);
    var chunk, rest := msg[..n], msg[n..];
    var ps := Pieces(max - DataHdrSize(id), rest);
    FirstStep(admit, c, id, total, chunk);
    FirstEffect(c, total, chunk);
    ChannelRunCons(admit, Open(c), DataFirstPdu(id, total, chunk), DataChunks(max, id, rest));
    if total > MAX_REASSEMBLY {
      PiecesDelivered(admit, Cleared(c), max, id, rest);
      SameHandler(c, Cleared(c), ps);
    } else if Uint32(|chunk|) >= total {
      PiecesDelivered(admit, Cleared(c), max, id, rest);
      UintBelow(|chunk|);
      NeededDone(n, total, ps);
      GivenIs(c, [msg[..total]], ps);
      SameHandler(c, Cleared(c), ps);
      assert chunk[..total] == msg[..total] && ps[0..] == ps;
    } else {
      var c' := c.(buf := chunk, total := total);
      assert chunk + rest == msg;
      PiecesReceived(admit, c', max, id, rest);
      SameHandler(c, c', [msg[..total]] + ps[Needed(n, total, ps)..]);
    }
  }

  lemma {:induction false} FirstEffect(c: Channel, total: nat, chunk: seq<byte>)
    requires Uint32(|chunk|) <= |chunk|
    ensures Cleared(c) == c.(buf := [], total := 0)
    ensures OnDataFirst(c, total, chunk) ==
              if total > MAX_REASSEMBLY then Effect(Cleared(c), [])
              else if Uint32(|chunk|) >= total then Effect(Cleared(c), Given(c, [chunk[..total]]))
              else Effect(c.(buf := chunk, total := total), [])
  {
  }

  // ---------- what arrives ----------

  lemma {:induction false} PiecesLength(room: nat, data: seq<byte>)
    requires room > 0
    ensures Pieces(room, data) == [] <==> data == []
    ensures |data| > room ==> |Pieces(room, data)| > 1
    ensures forall p :: p in Pieces(room, data) ==> |p| <= room
    decreases |data|
  {
    if data != [] {
      PiecesLength(room, data[if |data| > room then room else |data|..]);
    }
  }

  /** All pieces are needed for a length that fits 32 bits. */
  lemma {:induction false} AllNeeded(have: nat, total: nat, room: nat, data: seq<byte>)
    requires room > 0 && have + |data| == total < TWO_32
    ensures Needed(have, total, Pieces(room, data)) == |Pieces(room, data)|
    decreases |data|
  {
    if data != [] {
      var n := if |data| > room then room else |data|;
      AllNeeded(have + n, total, room, data[n..]);
      assert Pieces(room, data)[1..] == Pieces(room, data[n..]);
    }
  }

  /** The last condition: what is pending is due to be as long as the message, and happens
      to continue with it into the message itself. */
  predicate Arrives(c: Channel, max: nat, id: nat, msg: seq<byte>) {
    if Fragmented(max, id, |msg|) then |msg| <= MAX_REASSEMBLY
    else c.total == 0 || (c.total == |msg| <= Uint32(|c.buf| + |msg|) && (c.buf + msg)[..|msg|] == msg)
  }

  lemma {:induction false} OneGiven(c: Channel, msg: seq<byte>)
    requires c.handled
    ensures OnData(c, msg).delivered == [msg] <==>
              c.total == 0 || (c.total == |msg| <= Uint32(|c.buf| + |msg|) && (c.buf + msg)[..|msg|] == msg)
  {
    UintBelow(|c.buf| + |msg|);
    hide Uint32;
    if c.total > 0 && Uint32(|c.buf + msg|) >= c.total {
      var d := (c.buf + msg)[..c.total];
      assert OnData(c, msg).delivered == [d] && |d| == c.total;
      assert [d] == [msg] <==> d == msg;
    }
  }

  lemma {:induction false} SeveralGiven(c: Channel, max: nat, id: nat, msg: seq<byte>)
    requires id < TWO_32 && Splittable(max, id, |msg|) && Fragmented(max, id, |msg|) && c.handled
    ensures Outcome(c, max, id, msg).delivered == [msg] <==> |msg| <= MAX_REASSEMBLY
  {
    hide *;
    SeveralPdus(c, max, id, msg);
    FragmentedIs(max, id, |msg|);
    var total := Uint32(|msg|);
    var n, room := max - FirstHdrSize(id, total), max - DataHdrSize(id);
    var rest := msg[n..];
    var ps := Pieces(room, rest);
    PiecesLength(room, rest);
    AllGiven(c, ps);
    if total > MAX_REASSEMBLY {
      assert ps == [msg] ==> msg in ps;
    } else {
      var k := Needed(n, total, ps);
      AllGiven(c, [msg[..total]] + ps[k..]);
      if total == |msg| {
        AllNeeded(n, total, room, rest);
        assert [msg[..total]] + ps[k..] == [msg] by { assert msg[..total] == msg && ps[k..] == []; }
      } else {
        assert ([msg[..total]] + ps[k..])[0] == msg[..total];
        assert |msg[..total]| != |msg|;
      }
    }
  }

  lemma {:induction false} FragmentedIs(max: nat, id: nat, len: nat)
    ensures Fragmented(max, id, len) <==> DataHdrSize(id) + len > max
    ensures Uint32(len) < TWO_32 && (len < TWO_32 ==> Uint32(len) == len) && MAX_REASSEMBLY < TWO_32
  {
    hide DataHdrSize;
  }

  lemma {:induction false} AllGiven(c: Channel, msgs: seq<seq<byte>>)
    requires c.handled
    ensures Given(c, msgs) == msgs
  {
  }

  /** A message sent is the message received, and the channel is idle again. */
  lemma {:induction false} MessageReceived(admit: Policy, c: Slot, max: nat, id: nat, msg: seq<byte>)
    requires id < TWO_32 && Splittable(max, id, |msg|) && |msg| <= MAX_REASSEMBLY && Idle(c, true)
    ensures var (c', out) := ChannelRun(admit, c, Fragments(max, id, msg));
            Idle(c', true) && out == [msg]
  {
    IdleOutcome(c.c, max, id, msg);
    hide Fragments, Outcome, Splittable;
    FragmentsOutcome(admit, c.c, max, id, msg);
  }

  lemma {:induction false} IdleOutcome(c: Channel, max: nat, id: nat, msg: seq<byte>)
    requires id < TWO_32 && Splittable(max, id, |msg|) && |msg| <= MAX_REASSEMBLY && c.total == 0 && c.handled
    ensures var e := Outcome(c, max, id, msg);
            e.delivered == [msg] && e.channel.total == 0 && e.channel.handled
  {
    if Fragmented(max, id, |msg|) {
      SeveralGiven(c, max, id, msg);
    }
  }

  ghost predicate Idle(c: Slot, handled: bool) { c.Open? && c.c.total == 0 && c.c.handled == handled }

  // ---------- whole runs ----------

  ghost predicate Sendable(max: nat, id: nat, msgs: seq<seq<byte>>) {
    && id < TWO_32
    && forall m :: m in msgs ==> |m| <= MAX_REASSEMBLY && Splittable(max, id, |m|)
  }

  /** The PDU stream of successive messages on one channel. */
  function Stream(max: nat, id: nat, msgs: seq<seq<byte>>): seq<seq<byte>>
    requires id < TWO_32 && forall m :: m in msgs ==> Splittable(max, id, |m|)
  {
    if msgs == [] then [] else Fragments(max, id, msgs[0]) + Stream(max, id, msgs[1..])
  }

  lemma {:induction false} StreamReceived(admit: Policy, c: Slot, max: nat, id: nat, msgs: seq<seq<byte>>)
    requires Sendable(max, id, msgs) && Idle(c, true)
    ensures var (c', out) := ChannelRun(admit, c, Stream(max, id, msgs));
            Idle(c', true) && out == msgs
    decreases msgs
  {
    hide Fragments, Splittable, Idle;
    if msgs != [] {
      MessageReceived(admit, c, max, id, msgs[0]);
      var c1 := ChannelRun(admit, c, Fragments(max, id, msgs[0])).0;
      StreamReceived(admit, c1, max, id, msgs[1..]);
      ChannelRunConcat(admit, c, Fragments(max, id, msgs[0]), Stream(max, id, msgs[1..]));
    }
  }

  /** Every interleaving: a channel that is open and idle, and whose PDUs in the run
      are the fragments of msgs, gets each message once, whole and in order, whatever
      the rest of the run holds. */
  lemma {:induction false} InterleavingDelivers(admit: Policy, chs: Channels, run: seq<seq<byte>>, max: nat, id: nat, msgs: seq<seq<byte>>)
    requires Idle(Lookup(chs, id), true) && Sendable(max, id, msgs)
    requires PdusFor(run, id) == Stream(max, id, msgs)
    ensures var (chs', out) := Run(admit, chs, run);
            On(out, id) == msgs && Idle(Lookup(chs', id), true)
  {
    RunIsLocal(admit, chs, run, id);
    StreamReceived(admit, Lookup(chs, id), max, id, msgs);
  }

  /** In any run in which the PDUs that name an open channel are the fragments of one
      message: what its handler is given, whatever the channel held, however long the
      message is and whatever the rest of the run holds. */
  lemma {:induction false} MessageOutcome(admit: Policy, chs: Channels, run: seq<seq<byte>>, max: nat, id: nat, msg: seq<byte>)
    requires id in chs && id < TWO_32 && Splittable(max, id, |msg|) && PdusFor(run, id) == Fragments(max, id, msg)
    ensures var (chs', out) := Run(admit, chs, run);
            (Lookup(chs', id), On(out, id)) == (Open(Outcome(chs[id], max, id, msg).channel), Outcome(chs[id], max, id, msg).delivered)
  {
    assert Lookup(chs, id) == Open(chs[id]);
    hide *;
    RunIsLocal(admit, chs, run, id);
    FragmentsOutcome(admit, chs[id], max, id, msg);
  }

  /** A handler is given exactly the message if and only if the message is in several
      fragments and has at most 64 MiB, or is in one PDU and either nothing is pending or
      the pending bytes and the message happen to start with the message. */
  lemma {:induction false} ArrivesIff(admit: Policy, chs: Channels, run: seq<seq<byte>>, max: nat, id: nat, msg: seq<byte>)
    requires id in chs && id < TWO_32 && Splittable(max, id, |msg|) && PdusFor(run, id) == Fragments(max, id, msg)
    requires chs[id].handled
    ensures On(Run(admit, chs, run).1, id) == [msg] <==> Arrives(chs[id], max, id, msg)
  {
    MessageOutcome(admit, chs, run, max, id, msg);
    hide Run, Fragments, PdusFor, Splittable, Pieces, Needed, FirstHdrSize, DataHdrSize, OnData;
    if Fragmented(max, id, |msg|) {
      SeveralGiven(chs[id], max, id, msg);
    } else {
      OneGiven(chs[id], msg);
    }
  }
}
