/** What the MPPC decompressor is for: packets carry token lists, and the history
    carries the window from one packet to the next. */
module MppcHistory {
  import opened Bits
  import opened MppcCode
  import opened MppcReplay
  import opened Mppc
  import MppcTokens

  /** Pack a bit string into bytes, filling the last byte with zeros. */
  function Pack(bits: seq<bool>): seq<byte>
    decreases |bits|
  {
    if bits == [] then []
    else if |bits| < 8 then [PackByte(bits + Zeros(8 - |bits|))]
    else [PackByte(bits[..8])] + Pack(bits[8..])
  }

  function PackByte(bits: seq<bool>): byte
    requires |bits| == 8
  {
    assert Pow2(8) == 256;
    Value(bits)
  }

  function PadOf(n: nat): seq<bool> { Zeros((8 - n % 8) % 8) }

  lemma {:induction false} BitsOfOne(b: byte)
    ensures BitString([b]) == Numeral(b, 8)
  {
    assert [b][1..] == [];
    assert BitString([]) == [];
  }

  lemma {:induction false} BitsOfCons(b: byte, data: seq<byte>)
    ensures BitString([b] + data) == Numeral(b, 8) + BitString(data)
  {
    assert ([b] + data)[1..] == data;
  }

  /** A packet's bits are those of its bytes, the highest first. */
  lemma {:induction false} BitsAt(data: seq<byte>, k: nat, j: nat)
    requires k < |data| && j < 8
    ensures 8 * k + j < |BitString(data)| && (BitString(data)[8 * k + j] <==> data[k] / Pow2(7 - j) % 2 == 1)
    decreases data
  {
    hide *;
    BitsOfCons(data[0], data[1..]);
    assert [data[0]] + data[1..] == data;
    if k == 0 {
      MppcTokens.NumeralAt(data[0], 8, j);
    } else {
      BitsAt(data[1..], k - 1, j);
      assert BitString(data)[8 * k + j] == BitString(data[1..])[8 * (k - 1) + j];
    }
  }

  /** Any bit string can be sent. */
  lemma {:induction false} PackedBits(bits: seq<bool>)
    ensures BitString(Pack(bits)) == bits + PadOf(|bits|) && Padding(PadOf(|bits|))
    decreases |bits|
  {
    hide Value, Numeral, BitString, Pow2;
    if bits == [] {
      BitsOfNil();
    } else if |bits| < 8 {
      NumeralValue(bits + Zeros(8 - |bits|));
      BitsOfOne(PackByte(bits + Zeros(8 - |bits|)));
    } else {
      PackedBits(bits[8..]);
      PackedCons(bits);
    }
  }

  lemma {:induction false} PackedCons(bits: seq<bool>)
    requires |bits| >= 8 && BitString(Pack(bits[8..])) == bits[8..] + PadOf(|bits| - 8)
    ensures BitString(Pack(bits)) == bits + PadOf(|bits|)
  {
    hide Value, Numeral, BitString, Pow2, Zeros;
    NumeralValue(bits[..8]);
    BitsOfCons(PackByte(bits[..8]), Pack(bits[8..]));
    assert bits == bits[..8] + bits[8..];
  }

  lemma {:induction false} BitsOfNil()
    ensures BitString([]) == []
  {
  }

  /** The packet's bits are the tokens' code with fewer than eight zero bits after it. */
  ghost predicate Carries(data: seq<byte>, big: bool, ts: seq<Token>) {
    exists pad :: Padding(pad) && BitString(data) == Codes(big, ts) + pad
  }

  /** The window: the history below the write position. */
  function Window(s: State): seq<byte>
    requires WellFormed(s)
  {
    s.hist[..s.off]
  }

  /** The packet starts again at the front of the history: its reset or its flush flag is
      set. */
  predicate Rewinds(ctype: byte) { ctype / 0x40 % 2 == 1 || ctype / 0x80 % 2 == 1 }

  /** The window that a packet continues. */
  function Base(s: State, ctype: byte): (w: seq<byte>)
    requires WellFormed(s)
    ensures |w| <= DICT_SIZE
  {
    if Rewinds(ctype) then [] else Window(s)
  }

  /** What the flags do: bit 5 compresses, bit 0 selects the 64K code, bits 6 and 7 rewind,
      and bit 7 also clears the history. */
  lemma {:induction false} FlagsMean(s: State, ctype: byte)
    requires WellFormed(s)
    ensures Compressed(ctype) == (ctype / 0x20 % 2 == 1) && Big(ctype) == (ctype % 2 == 1)
    ensures var s0 := Reset(s, ctype);
            && WellFormed(s0) && s0.off == |Base(s, ctype)| && Window(s0) == Base(s, ctype)
            && forall k :: 0 <= k < DICT_SIZE ==> s0.hist[k] == if ctype / 0x80 % 2 == 1 then 0 else s.hist[k]
  {
    assert ctype / 1 == ctype;
  }

  /** One compressed packet: the window, emptied first by a reset or a flush, grows by the
      output and becomes the replay; behind it the history is as it was, or zero after a
      flush. */
  lemma {:induction false} PacketReplays(s: State, data: seq<byte>, ctype: byte, ts: seq<Token>)
    requires WellFormed(s) && ctype / 0x20 % 2 == 1
    requires ValidTokens(ctype % 2 == 1, |Base(s, ctype)|, ts) && Carries(data, ctype % 2 == 1, ts)
    ensures var (s', out) := Step(s, data, ctype);
            && out.Output? && Window(s') == Base(s, ctype) + out.bytes == Replay(Base(s, ctype), ts)
            && forall k :: s'.off <= k < DICT_SIZE ==> s'.hist[k] == if ctype / 0x80 % 2 == 1 then 0 else s.hist[k]
  {
    hide *;
    FlagsMean(s, ctype);
    var s0 := Reset(s, ctype);
    var pad := PadFor(data, ctype % 2 == 1, ts);
    HistorySize(s0);
    ExpandReplays(ctype % 2 == 1, s0.hist, s0.off, ts, pad);
    StepIs(s, data, ctype);
    var r := Expand(ctype % 2 == 1, s0.hist, s0.off, BitString(data));
    ReplayedIs(r, s0.hist, s0.off, ts);
    PastKept(s, data, ctype);
    WindowIs(s0);
    var s' := Step(s, data, ctype).0;
    WindowIs(s');
    forall k | s'.off <= k < DICT_SIZE ensures s'.hist[k] == s0.hist[k] {
      assert s'.hist[k] == r.hist[r.off..][k - r.off];
    }
  }

  lemma {:induction false} PadFor(data: seq<byte>, big: bool, ts: seq<Token>) returns (pad: seq<bool>)
    requires Carries(data, big, ts)
    ensures Padding(pad) && BitString(data) == Codes(big, ts) + pad
  {
    pad :| Padding(pad) && BitString(data) == Codes(big, ts) + pad;
  }

  lemma {:induction false} HistorySize(s: State)
    requires WellFormed(s)
    ensures |s.hist| == DICT_SIZE && s.off <= DICT_SIZE
  {
  }

  lemma {:induction false} WindowIs(s: State)
    requires WellFormed(s)
    ensures s.off <= |s.hist| == DICT_SIZE && Window(s) == s.hist[..s.off]
  {
  }

  lemma {:induction false} ReplayedIs(r: Run, hist: seq<byte>, off: nat, ts: seq<Token>)
    requires off <= |hist| && Replayed(r, hist, off, ts)
    ensures r.Done? && off <= r.off <= |r.hist| == |hist| && r.hist[..r.off] == Replay(hist[..off], ts) && r.hist[r.off..] == hist[r.off..]
  {
  }

  lemma {:induction false} StepIs(s: State, data: seq<byte>, ctype: byte)
    requires WellFormed(s)
    ensures var s0 := Reset(s, ctype);
            && |s0.hist| == DICT_SIZE && s0.off <= DICT_SIZE
            && (!Compressed(ctype) ==> Step(s, data, ctype) == (s0, Output(data)))
            && (Compressed(ctype) ==>
                  var r := Expand(Big(ctype), s0.hist, s0.off, BitString(data));
                  && Step(s, data, ctype).0 == State(r.hist, if r.Done? then r.off else s0.off)
                  && (Step(s, data, ctype).1.Output? <==> r.Done?)
                  && (r.Done? ==> Step(s, data, ctype).1 == Output(r.hist[s0.off..r.off])))
  {
    hide Expand, BitString, Flag, Cleared;
  }

  /** Whatever the packet holds: the bytes of the window it continues stay, a success
      returns exactly the bytes behind them, and a failure leaves the position there. */
  lemma {:induction false} PastKept(s: State, data: seq<byte>, ctype: byte)
    requires WellFormed(s)
    ensures var (s', out) := Step(s, data, ctype);
            var n := |Base(s, ctype)|;
            && s'.hist[..n] == Base(s, ctype)
            && (out.Output? && ctype / 0x20 % 2 == 1 ==> s'.off >= n && Window(s') == Base(s, ctype) + out.bytes)
            && (out.Output? || s'.off == n)
  {
    hide *;
    FlagsMean(s, ctype);
    StepIs(s, data, ctype);
    var s0 := Reset(s, ctype);
    WindowIs(s0);
    WindowIs(Step(s, data, ctype).0);
    ExpandKeepsPast(Big(ctype), s0.hist, s0.off, BitString(data));
    var r := Expand(Big(ctype), s0.hist, s0.off, BitString(data));
    if r.Done? { assert r.hist[..r.off] == r.hist[..s0.off] + r.hist[s0.off..r.off]; }
  }

  /** A compressed packet fails, behind valid tokens, on bits that are no token and no end
      and on a token that would fill the history; a match that would be read over its end
      stops the program. */
  lemma {:induction false} PacketFails(s: State, data: seq<byte>, ctype: byte, ts: seq<Token>, rest: seq<bool>, t: Token, later: seq<bool>)
    requires WellFormed(s) && ctype / 0x20 % 2 == 1
    requires ValidTokens(ctype % 2 == 1, |Base(s, ctype)|, ts) && BitString(data) == Codes(ctype % 2 == 1, ts) + rest
    ensures var big, out, n := ctype % 2 == 1, Step(s, data, ctype).1, |Replay(Base(s, ctype), ts)|;
            && ((forall u, more :: MppcTokens.Expressible(big, u) ==> rest != Code(big, u) + more) && !Padding(rest) ==> out == DecompressionError)
            && (MppcTokens.Expressible(big, t) && rest == Code(big, t) + later ==>
                  && (t.Literal? && n == 65536 ==> out == DecompressionError)
                  && (t.Match? && n + t.len >= 65536 ==> out == DecompressionError)
                  && (t.Match? && n + t.len < 65536 < (n - t.dist) % (if big then 65536 else 8192) + t.len ==> out == IndexPanic))
  {
    hide *;
    FlagsMean(s, ctype);
    var s0 := Reset(s, ctype);
    WindowIs(s0);
    FailureIs(s, data, ctype);
    MppcTokens.RunFails(ctype % 2 == 1, s0.hist, s0.off, ts, rest, t, later);
  }

  lemma {:induction false} FailureIs(s: State, data: seq<byte>, ctype: byte)
    requires WellFormed(s) && Compressed(ctype)
    ensures var s0 := Reset(s, ctype);
            && |s0.hist| == DICT_SIZE && s0.off <= DICT_SIZE
            && var r := Expand(Big(ctype), s0.hist, s0.off, BitString(data));
               (r.Failed? ==> Step(s, data, ctype).1 == DecompressionError) && (r.Trapped? ==> Step(s, data, ctype).1 == IndexPanic)
  {
    hide Expand, BitString, Flag, Cleared;
  }

  /** An uncompressed packet is delivered as it is and only its flags touch the history. */
  lemma {:induction false} PlainPacket(s: State, data: seq<byte>, ctype: byte)
    requires WellFormed(s) && ctype / 0x20 % 2 == 0
    ensures var (s', out) := Step(s, data, ctype);
            && out == Output(data) && Window(s') == Base(s, ctype)
            && forall k :: 0 <= k < DICT_SIZE ==> s'.hist[k] == if ctype / 0x80 % 2 == 1 then 0 else s.hist[k]
  {
    hide *;
    FlagsMean(s, ctype);
    StepIs(s, data, ctype);
    WindowIs(Reset(s, ctype));
  }

  // ---------- runs of packets ----------

  datatype Packet = Packet(ctype: byte, data: seq<byte>, ts: seq<Token>)

  /** The packet carries its tokens, valid behind a window of w bytes; an uncompressed one
      carries none. */
  ghost predicate Sendable(p: Packet, w: nat) {
    if p.ctype / 0x20 % 2 == 1 then ValidTokens(p.ctype % 2 == 1, w, p.ts) && Carries(p.data, p.ctype % 2 == 1, p.ts)
    else p.ts == []
  }

  function TotalSize(ts: seq<Token>): nat {
    if ts == [] then 0 else Size(ts[0]) + TotalSize(ts[1..])
  }

  ghost predicate SendableRun(ps: seq<Packet>, w: nat)
    decreases ps
  {
    ps == [] || (Sendable(ps[0], w) && SendableRun(ps[1..], w + TotalSize(ps[0].ts)))
  }

  function AllTokens(ps: seq<Packet>): seq<Token> {
    if ps == [] then [] else ps[0].ts + AllTokens(ps[1..])
  }

  function Feed(s: State, ps: seq<Packet>): (r: (State, seq<Outcome>))
    requires WellFormed(s)
    ensures WellFormed(r.0) && |r.1| == |ps|
    decreases ps
  {
    if ps == [] then (s, [])
    else
      var (s1, out) := Step(s, ps[0].data, ps[0].ctype);
      var (s2, outs) := Feed(s1, ps[1..]);
      (s2, [out] + outs)
  }

  function Yield(ctype: byte, out: Outcome): seq<byte> {
    if ctype / 0x20 % 2 == 1 && out.Output? then out.bytes else []
  }

  /** The outputs of the compressed packets, end to end; an uncompressed packet is
      delivered as it is and stays out of the history. */
  function Expanded(ps: seq<Packet>, outs: seq<Outcome>): seq<byte>
    requires |ps| == |outs|
  {
    if ps == [] then []
    else
      Yield(ps[0].ctype, outs[0]) + Expanded(ps[1..], outs[1..])
  }

  lemma {:induction false} ReplaySize(big: bool, w: seq<byte>, ts: seq<Token>)
    requires ValidTokens(big, |w|, ts)
    ensures |Replay(w, ts)| == |w| + TotalSize(ts)
    decreases ts
  {
    if ts != [] {
      ReplaySize(big, w + Appended(w, ts[0]), ts[1..]);
    }
  }

  /** No packet of the list rewinds. */
  ghost predicate Onward(ps: seq<Packet>) { forall i :: 0 <= i < |ps| ==> !Rewinds(ps[i].ctype) }

  /** Every packet was expanded or, if uncompressed, delivered as it is. */
  ghost predicate AllDelivered(ps: seq<Packet>, outs: seq<Outcome>)
    requires |ps| == |outs|
  {
    forall i :: 0 <= i < |ps| ==> outs[i].Output? && (ps[i].ctype / 0x20 % 2 == 0 ==> outs[i].bytes == ps[i].data)
  }

  /** From the window w on: one replay of all the tokens, split into the outputs. */
  ghost predicate Continues(s: State, w: seq<byte>, ps: seq<Packet>)
    requires WellFormed(s)
  {
    var (s', outs) := Feed(s, ps);
    Window(s') == Replay(w, AllTokens(ps)) == w + Expanded(ps, outs) && AllDelivered(ps, outs)
  }

  /** A run that rewinds at most with its first packet is one replay. */
  lemma {:induction false} StretchReplays(s: State, ps: seq<Packet>)
    requires WellFormed(s) && ps != [] && Onward(ps[1..]) && SendableRun(ps, |Base(s, ps[0].ctype)|)
    ensures Continues(s, Base(s, ps[0].ctype), ps)
    decreases ps
  {
    hide *;
    var p := ps[0];
    var (s1, out) := Step(s, p.data, p.ctype);
    FirstSendable(ps, |Base(s, p.ctype)|);
    FirstReplays(s, p);
    if ps[1..] == [] {
      ContinuesNil(s1);
      assert ps == [p] + ps[1..];
    } else {
      OnwardHead(s1, ps[1..]);
      StretchReplays(s1, ps[1..]);
    }
    StretchCons(s, ps);
  }

  lemma {:induction false} FirstSendable(ps: seq<Packet>, w: nat)
    requires ps != [] && SendableRun(ps, w)
    ensures Sendable(ps[0], w) && SendableRun(ps[1..], w + TotalSize(ps[0].ts))
  {
    hide Sendable;
  }

  lemma {:induction false} OnwardHead(s: State, ps: seq<Packet>)
    requires WellFormed(s) && ps != [] && Onward(ps)
    ensures Base(s, ps[0].ctype) == Window(s) && Onward(ps[1..])
  {
    hide Rewinds;
    assert !Rewinds(ps[0].ctype);
  }

  lemma {:induction false} ContinuesNil(s: State)
    requires WellFormed(s)
    ensures Continues(s, Window(s), [])
  {
    assert Window(s) + [] == Window(s);
  }

  lemma {:induction false} FirstReplays(s: State, p: Packet)
    requires WellFormed(s) && Sendable(p, |Base(s, p.ctype)|)
    ensures var (s1, out) := Step(s, p.data, p.ctype);
            var w := Base(s, p.ctype);
            && out.Output? && |Window(s1)| == |w| + TotalSize(p.ts)
            && Window(s1) == Replay(w, p.ts) == w + Yield(p.ctype, out)
            && (p.ctype / 0x20 % 2 == 0 ==> out.bytes == p.data)
  {
    var w := Base(s, p.ctype);
    hide Step, Base, Carries, ValidTokens;
    if p.ctype / 0x20 % 2 == 1 {
      PacketReplays(s, p.data, p.ctype, p.ts);
      ReplaySize(p.ctype % 2 == 1, w, p.ts);
    } else {
      PlainPacket(s, p.data, p.ctype);
      assert w + [] == w;
    }
  }

  lemma {:induction false} StretchCons(s: State, ps: seq<Packet>)
    requires WellFormed(s) && ps != [] && Sendable(ps[0], |Base(s, ps[0].ctype)|)
    requires var s1 := Step(s, ps[0].data, ps[0].ctype).0; Continues(s1, Window(s1), ps[1..])
    ensures Continues(s, Base(s, ps[0].ctype), ps)
  {
    hide *;
    var w := Base(s, ps[0].ctype);
    var (s1, out) := Step(s, ps[0].data, ps[0].ctype);
    var (s2, outs) := Feed(s1, ps[1..]);
    FirstReplays(s, ps[0]);
    TokensSplit(w, ps);
    FeedCons(s, ps);
    ContinuesIs(s1, Window(s1), ps[1..]);
    ContinuesIs(s, w, ps);
    Associate(w, Yield(ps[0].ctype, out), Expanded(ps[1..], outs));
    DeliveredCons(ps, out, outs);
  }

  lemma {:induction false} ContinuesIs(s: State, w: seq<byte>, ps: seq<Packet>)
    requires WellFormed(s)
    ensures Continues(s, w, ps) <==>
              var (s', outs) := Feed(s, ps);
              Window(s') == Replay(w, AllTokens(ps)) == w + Expanded(ps, outs) && AllDelivered(ps, outs)
  {
    hide Feed, Replay, AllTokens, Expanded, AllDelivered;
  }

  lemma {:induction false} DeliveredCons(ps: seq<Packet>, out: Outcome, outs: seq<Outcome>)
    requires ps != [] && |outs| == |ps| - 1 && AllDelivered(ps[1..], outs)
    requires out.Output? && (ps[0].ctype / 0x20 % 2 == 0 ==> out.bytes == ps[0].data)
    ensures AllDelivered(ps, [out] + outs)
  {
    var all := [out] + outs;
    forall i | 0 <= i < |ps| ensures all[i].Output? && (ps[i].ctype / 0x20 % 2 == 0 ==> all[i].bytes == ps[i].data) {
      assert i > 0 ==> ps[i] == ps[1..][i - 1] && all[i] == outs[i - 1];
    }
  }

  lemma {:induction false} Associate(a: seq<byte>, b: seq<byte>, c: seq<byte>)
    ensures (a + b) + c == a + (b + c)
  {
  }

  lemma {:induction false} FeedCons(s: State, ps: seq<Packet>)
    requires WellFormed(s) && ps != []
    ensures var (s1, out) := Step(s, ps[0].data, ps[0].ctype);
            var (s2, outs) := Feed(s1, ps[1..]);
            && Feed(s, ps) == (s2, [out] + outs)
            && Expanded(ps, [out] + outs) == Yield(ps[0].ctype, out) + Expanded(ps[1..], outs)
  {
    hide Step, Yield;
    var (s1, out) := Step(s, ps[0].data, ps[0].ctype);
    var (s2, outs) := Feed(s1, ps[1..]);
    assert ([out] + outs)[1..] == outs;
  }

  lemma {:induction false} TokensSplit(w: seq<byte>, ps: seq<Packet>)
    requires ps != [] && Sendable(ps[0], |w|)
    ensures Replay(w, AllTokens(ps)) == Replay(Replay(w, ps[0].ts), AllTokens(ps[1..]))
  {
    if ps[0].ctype / 0x20 % 2 == 1 {
      ReplayConcat(w, ps[0].ts, AllTokens(ps[1..]), ps[0].ctype % 2 == 1);
    } else {
      assert [] + AllTokens(ps[1..]) == AllTokens(ps[1..]);
    }
  }

  lemma {:induction false} FeedConcat(s: State, a: seq<Packet>, b: seq<Packet>)
    requires WellFormed(s)
    ensures var (s1, outs1) := Feed(s, a);
            var (s2, outs2) := Feed(s1, b);
            Feed(s, a + b) == (s2, outs1 + outs2)
    decreases a
  {
    hide *;
    var (s1, outs1) := Feed(s, a);
    var outs2 := Feed(s1, b).1;
    if a == [] {
      FeedNil(s);
      assert a + b == b && [] + outs2 == outs2;
    } else {
      FeedCons(s, a);
      FeedCons(s, a + b);
      assert (a + b)[1..] == a[1..] + b;
      FeedConcat(Step(s, a[0].data, a[0].ctype).0, a[1..], b);
      var out := Step(s, a[0].data, a[0].ctype).1;
      var rest := Feed(Step(s, a[0].data, a[0].ctype).0, a[1..]).1;
      assert ([out] + rest) + outs2 == [out] + (rest + outs2);
    }
  }

  lemma {:induction false} FeedNil(s: State)
    requires WellFormed(s)
    ensures Feed(s, []) == (s, [])
  {
  }

  /** History across packets.  Somewhere in any run, malformed packets included, stand
      packets of which the first may rewind and the others do not: what they deliver is one
      replay of all their tokens, from the empty window if the first one rewinds and else
      from the window that it finds. */
  lemma {:induction false} RunReplays(s: State, before: seq<Packet>, ps: seq<Packet>, later: seq<Packet>)
    requires WellFormed(s) && ps != [] && Onward(ps[1..])
    requires SendableRun(ps, if Rewinds(ps[0].ctype) then 0 else |Window(Feed(s, before).0)|)
    ensures var w := if Rewinds(ps[0].ctype) then [] else Window(Feed(s, before).0);
            var outs := Feed(s, before + ps + later).1[|before|..|before| + |ps|];
            && Window(Feed(s, before + ps).0) == Replay(w, AllTokens(ps)) == w + Expanded(ps, outs)
            && AllDelivered(ps, outs)
  {
    hide *;
    var s1 := Feed(s, before).0;
    BaseIs(s1, ps[0].ctype);
    StretchReplays(s1, ps);
    ContinuesIs(s1, Base(s1, ps[0].ctype), ps);
    FeedConcat(s, before, ps);
    FeedConcat(s, before + ps, later);
    var outs := Feed(s1, ps).1;
    assert Feed(s, before + ps + later).1[|before|..|before| + |ps|] == outs;
  }

  lemma {:induction false} BaseIs(s: State, ctype: byte)
    requires WellFormed(s)
    ensures Base(s, ctype) == if Rewinds(ctype) then [] else Window(s)
  {
  }
}
