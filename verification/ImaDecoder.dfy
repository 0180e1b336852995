/** The audio-output decoder's block loops, and what they make of the encoder's blocks. */
module ImaDecoder {
  import opened Bits
  import opened Wire
  import opened Pcm
  import opened Ima
  import opened ImaBlocks

  // ---------- mono ----------

  function MonoDecoded(blk: seq<byte>, spb: nat): seq<sample>
    requires spb > 0
  {
    if |blk| < 4 then []
    else
      var c := ReadHeader(blk);
      [c.pred] + Decoded(c, Upto(Unpack(blk[4..]), spb - 1))
  }

  method DecodeMonoBlock(blk: seq<byte>, samplesPerBlock: nat) returns (dst: seq<sample>)
    requires samplesPerBlock > 0
    ensures dst == MonoDecoded(blk, samplesPerBlock)
  {
    dst := [];
    if |blk| < 4 {
      return;
    }
    ghost var c := ReadHeader(blk);
    var predictor := Int16(GetLe16(blk));
    var stepIndex: index := if blk[2] > 88 then 88 else blk[2];
    var rest := DecodeNibbles(blk[4..], samplesPerBlock - 1, predictor, stepIndex);
    dst := [predictor] + rest;
  }

  method DecodeNibbles(dataBytes: seq<byte>, limit: nat, pred: sample, si: index) returns (dst: seq<sample>)
    ensures dst == Decoded(Channel(pred, si), Upto(Unpack(dataBytes), limit))
  {
    ghost var c := Channel(pred, si);
    var predictor, stepIndex, i := pred, si, 0;
    dst := [];
    NothingRead(c, dataBytes);
    hide *;
    while i < |dataBytes| && |dst| < limit
      invariant i <= |dataBytes| && |dst| == if 2 * i < limit then 2 * i else limit
      invariant At(c, dataBytes, |dst|, dst, predictor, stepIndex)
    {
      var b := dataBytes[i];
      UnpackAt(dataBytes, i);
      dst, predictor, stepIndex := ReadNibble(c, dataBytes, b % 16, dst, predictor, stepIndex);
      if |dst| < limit {
        dst, predictor, stepIndex := ReadNibble(c, dataBytes, b / 16, dst, predictor, stepIndex);
      }
      i := i + 1;
    }
    ReadAll(c, dataBytes, limit, dst, predictor, stepIndex);
  }

  method ReadNibble(ghost c: Channel, ghost data: seq<byte>, nib: nibble, dst: seq<sample>, pred: sample, si: index)
    returns (dst': seq<sample>, pred': sample, si': index)
    requires |dst| < 2 * |data| && nib == Unpack(data)[|dst|] && At(c, data, |dst|, dst, pred, si)
    ensures |dst'| == |dst| + 1 && At(c, data, |dst'|, dst', pred', si')
  {
    hide Unpack, At, Decode;
    pred', si' := DecodeNibble(nib, pred, si);
    ReadOne(c, data, |dst|, dst, Channel(pred, si), pred', si');
    dst' := dst + [pred'];
  }

  /** After n nibbles of the data: the samples put out and the channel. */
  ghost predicate At(c: Channel, data: seq<byte>, n: nat, out: seq<sample>, pred: sample, si: index) {
    && n <= 2 * |data|
    && out == Decoded(c, Unpack(data)[..n]) && Channel(pred, si) == After(c, Unpack(data)[..n])
  }

  lemma {:induction false} NothingRead(c: Channel, data: seq<byte>)
    ensures At(c, data, 0, [], c.pred, c.index)
  {
    hide Unpack;
    assert Unpack(data)[..0] == [];
  }

  lemma {:induction false} ReadOne(c: Channel, data: seq<byte>, n: nat, out: seq<sample>, at: Channel, pred: sample, si: index)
    requires n < 2 * |data| && At(c, data, n, out, at.pred, at.index)
    requires Channel(pred, si) == Decode(at, Unpack(data)[n])
    ensures At(c, data, n + 1, out + [pred], pred, si)
  {
    hide Unpack, Decode, After, Decoded;
    var nibs := Unpack(data);
    assert nibs[..n + 1] == nibs[..n] + [nibs[n]];
    AfterSnoc(c, nibs[..n], nibs[n]);
  }

  lemma {:induction false} ReadAll(c: Channel, data: seq<byte>, limit: nat, out: seq<sample>, pred: sample, si: index)
    requires At(c, data, if 2 * |data| < limit then 2 * |data| else limit, out, pred, si)
    ensures out == Decoded(c, Upto(Unpack(data), limit))
  {
  }

  lemma {:induction false} UnpackAt(data: seq<byte>, k: nat)
    requires k < |data|
    ensures Unpack(data)[2 * k] == data[k] % 16 && Unpack(data)[2 * k + 1] == data[k] / 16
    decreases data
  {
    if k > 0 {
      UnpackAt(data[1..], k - 1);
    }
  }

  /** The decoder gives the block's first sample, then what the nibbles stand for. */
  lemma {:induction false} MonoRoundTrip(samples: seq<sample>, spb: nat, index: index)
    requires spb > 0
    ensures var c, ss := First(samples, 1, 0, index), Plane(samples, 1, 0, spb - 1);
            MonoDecoded(MonoBlock(samples, spb, index), spb) == [c.pred] + Output(c, ss)
  {
    var c, ss := First(samples, 1, 0, index), Plane(samples, 1, 0, spb - 1);
    var block := MonoBlock(samples, spb, index);
    assert block == Header(c) + Pack(Nibbles(c, ss));
    hide MonoBlock, First, Plane, Header, Pack, Nibbles, Unpack, Decoded;
    HeaderRoundTrip(c, Pack(Nibbles(c, ss)));
    assert block[4..] == Pack(Nibbles(c, ss));
    UnpackPack(Nibbles(c, ss));
    assert Upto(Unpack(block[4..]), spb - 1) == Nibbles(c, ss);
  }

  // ---------- stereo ----------

  /** What one pass of the decoding loop takes for a channel: up to four bytes. */
  function Quad(data: seq<byte>): (q: seq<byte>)
    ensures |q| == Least(|data|, 4)
  {
    Upto(data, 4)
  }

  function Interleave(l: seq<sample>, r: seq<sample>): (s: seq<sample>)
    requires |l| == |r|
    ensures |s| == 2 * |l|
  {
    if l == [] then [] else [l[0], r[0]] + Interleave(l[1..], r[1..])
  }

  datatype Option<T> = None | Some(value: T)

  function Prefixed(a: seq<sample>, rest: Option<seq<sample>>): Option<seq<sample>> {
    if rest.None? then None else Some(a + rest.value)
  }

  function QuadL(data: seq<byte>): (q: seq<byte>)
    ensures |q| == Least(|data|, 4)
  {
    Quad(data)
  }

  function QuadR(data: seq<byte>): (q: seq<byte>)
    ensures |q| == Least(|data| - Least(|data|, 4), 4)
  {
    Quad(data[|QuadL(data)|..])
  }

  function PassCount(data: seq<byte>, want: nat): nat {
    Least(Least(2 * |QuadL(data)|, 2 * |QuadR(data)|), want)
  }

  function PassOut(c0: Channel, c1: Channel, data: seq<byte>, want: nat): seq<sample> {
    var n := PassCount(data, want);
    Interleave(Decoded(c0, Unpack(QuadL(data)))[..n], Decoded(c1, Unpack(QuadR(data)))[..n])
  }

  /** The samples still wanted, or None when a pass adds none: the loop then never ends. */
  function StereoRest(c0: Channel, c1: Channel, data: seq<byte>, want: nat): Option<seq<sample>>
    decreases want
  {
    if want == 0 then Some([])
    else
      var n, l, r := PassCount(data, want), QuadL(data), QuadR(data);
      if n == 0 then None
      else
        Prefixed(PassOut(c0, c1, data, want), StereoRest(After(c0, Unpack(l)), After(c1, Unpack(r)), data[|l| + |r|..], want - n))
  }

  function StereoDecoded(blk: seq<byte>, spb: nat): Option<seq<sample>> {
    if |blk| < 8 || spb == 0 then Some([])
    else
      var c0, c1 := ReadHeader(blk), ReadHeader(blk[4..]);
      Prefixed([c0.pred, c1.pred], StereoRest(c0, c1, blk[8..], spb - 1))
  }

  /** Samples per channel that n data bytes hold. */
  function Available(n: nat): nat { n / 8 * 8 + (if n % 8 > 4 then 2 * (n % 8 - 4) else 0) }

  /** The loop ends exactly when the data holds the samples asked for. */
  lemma {:induction false} StereoEndsIff(c0: Channel, c1: Channel, data: seq<byte>, want: nat)
    ensures StereoRest(c0, c1, data, want).Some? <==> want <= Available(|data|)
    decreases want
  {
    hide After, Unpack, PassOut;
    if want > 0 {
      var n, l, r := PassCount(data, want), QuadL(data), QuadR(data);
      PassSizes(data, want);
      hide QuadL, QuadR, PassCount, Available;
      if n > 0 {
        StereoEndsIff(After(c0, Unpack(l)), After(c1, Unpack(r)), data[|l| + |r|..], want - n);
      }
    }
  }

  /** A pass takes what it can of what is available. */
  lemma {:induction false} PassSizes(data: seq<byte>, want: nat)
    ensures var n, taken := PassCount(data, want), |QuadL(data)| + |QuadR(data)|;
            && taken <= |data| && n <= want && n <= Available(|data|)
            && (n == 0 ==> want == 0 || Available(|data|) == 0)
            && (n > 0 ==> n == want || Available(|data| - taken) == Available(|data|) - n)
  {
    AvailableRest(|data|);
    hide Available;
  }

  lemma {:induction false} AvailableRest(n: nat)
    ensures n >= 8 ==> Available(n) == 8 + Available(n - 8)
    ensures n < 8 ==> Available(n) == (if n > 4 then 2 * (n - 4) else 0)
    ensures Available(0) == 0
  {
    if n >= 8 {
      assert (n - 8) / 8 == n / 8 - 1 && (n - 8) % 8 == n % 8;
    }
  }

  /** Up to four bytes of one channel. */
  method DecodeFour(data: seq<byte>, byteOff: nat, pred: sample, si: index)
    returns (chSamples: seq<sample>, byteOff': nat, pred': sample, si': index)
    requires byteOff <= |data|
    ensures var q := Quad(data[byteOff..]);
            && byteOff' == byteOff + |q|
            && chSamples == Decoded(Channel(pred, si), Unpack(q)) && Channel(pred', si') == After(Channel(pred, si), Unpack(q))
  {
    ghost var c, q := Channel(pred, si), Quad(data[byteOff..]);
    chSamples, byteOff', pred', si' := [], byteOff, pred, si;
    NothingRead(c, q);
    hide Decode, Unpack, At;
    var j := 0;
    while j < 4 && byteOff' < |data|
      invariant j <= |q| && byteOff' == byteOff + j && |chSamples| == 2 * j && At(c, q, 2 * j, chSamples, pred', si')
    {
      var b := data[byteOff'];
      byteOff' := byteOff' + 1;
      assert b == q[j];
      UnpackAt(q, j);
      chSamples, pred', si' := ReadNibble(c, q, b % 16, chSamples, pred', si');
      chSamples, pred', si' := ReadNibble(c, q, b / 16, chSamples, pred', si');
      j := j + 1;
    }
    ReadWhole(c, q, chSamples, pred', si');
  }

  lemma {:induction false} ReadWhole(c: Channel, data: seq<byte>, out: seq<sample>, pred: sample, si: index)
    requires At(c, data, 2 * |data|, out, pred, si)
    ensures out == Decoded(c, Unpack(data)) && Channel(pred, si) == After(c, Unpack(data))
  {
    hide Unpack, Decoded, After;
    assert Unpack(data)[..2 * |data|] == Unpack(data);
  }

  /** None stands for a call that does not return. */
  method DecodeStereoBlock(blk: seq<byte>, samplesPerBlock: nat) returns (dst: Option<seq<sample>>)
    ensures dst == StereoDecoded(blk, samplesPerBlock)
  {
    hide *;
    StereoDecodedIs(blk, samplesPerBlock);
    if |blk| < 8 || samplesPerBlock == 0 {
      return Some([]);
    }
    var pred0, pred1 := Int16(GetLe16(blk)), Int16(GetLe16(blk[4..]));
    var si0: index := if blk[2] > 88 then 88 else blk[2];
    var si1: index := if blk[6] > 88 then 88 else blk[6];
    HeaderReads(blk, pred0, si0);
    HeaderReads(blk[4..], pred1, si1);
    var rest := DecodeChunks(blk[8..], samplesPerBlock - 1, pred0, si0, pred1, si1);
    if rest.None? {
      return None;
    }
    dst := Some([pred0, pred1] + rest.value);
  }

  lemma {:induction false} StereoDecodedIs(blk: seq<byte>, spb: nat)
    ensures |blk| < 8 || spb == 0 ==> StereoDecoded(blk, spb) == Some([])
    ensures |blk| >= 8 && spb > 0 ==>
              var c0, c1 := ReadHeader(blk), ReadHeader(blk[4..]);
              var rest := StereoRest(c0, c1, blk[8..], spb - 1);
              StereoDecoded(blk, spb) == if rest.None? then None else Some([c0.pred, c1.pred] + rest.value)
  {
    hide StereoRest, ReadHeader;
  }

  lemma {:induction false} HeaderReads(h: seq<byte>, pred: sample, si: index)
    requires |h| >= 4 && pred == Int16(GetLe16(h)) && si == if h[2] > 88 then 88 else h[2]
    ensures ReadHeader(h) == Channel(pred, si)
  {
  }

  method DecodeChunks(dataBytes: seq<byte>, want: nat, p0: sample, s0: index, p1: sample, s1: index) returns (dst: Option<seq<sample>>)
    ensures dst == StereoRest(Channel(p0, s0), Channel(p1, s1), dataBytes, want)
  {
    hide *;
    ghost var goal := StereoRest(Channel(p0, s0), Channel(p1, s1), dataBytes, want);
    var pred0, si0, pred1, si1 := p0, s0, p1, s1;
    var out: seq<sample> := [];
    var byteOff: nat, left: nat := 0, want;
    assert dataBytes[0..] == dataBytes;
    PrefixedNothing(goal);
    while left > 0
      invariant byteOff <= |dataBytes|
      invariant Prefixed(out, StereoRest(Channel(pred0, si0), Channel(pred1, si1), dataBytes[byteOff..], left)) == goal
    {
      ghost var c0, c1, data := Channel(pred0, si0), Channel(pred1, si1), dataBytes[byteOff..];
      RestUnfolds(c0, c1, data, left, out);
      var mixed, n;
      mixed, n, byteOff, pred0, si0, pred1, si1 := DecodePass(dataBytes, byteOff, left, pred0, si0, pred1, si1);
      assert dataBytes[byteOff..] == data[|QuadL(data)| + |QuadR(data)|..];
      if n == 0 {
        return None;
      }
      out := out + mixed;
      left := left - n;
    }
    RestOfNothing(Channel(pred0, si0), Channel(pred1, si1), dataBytes[byteOff..], out);
    dst := Some(out);
  }

  /** One pass of the loop: up to four bytes of each channel, and as many samples of
      both as are there and wanted. */
  method DecodePass(data: seq<byte>, byteOff: nat, want: nat, p0: sample, s0: index, p1: sample, s1: index)
    returns (mixed: seq<sample>, n: nat, byteOff': nat, p0': sample, s0': index, p1': sample, s1': index)
    requires byteOff <= |data|
    ensures byteOff' <= |data| && byteOff' == byteOff + |QuadL(data[byteOff..])| + |QuadR(data[byteOff..])|
    ensures Channel(p0', s0') == After(Channel(p0, s0), Unpack(QuadL(data[byteOff..])))
    ensures Channel(p1', s1') == After(Channel(p1, s1), Unpack(QuadR(data[byteOff..])))
    ensures n == PassCount(data[byteOff..], want) && mixed == PassOut(Channel(p0, s0), Channel(p1, s1), data[byteOff..], want)
  {
    hide Unpack, After, Decoded, Interleave;
    var left, right, off;
    left, off, p0', s0' := DecodeFour(data, byteOff, p0, s0);
    assert data[off..] == data[byteOff..][|QuadL(data[byteOff..])|..];
    right, byteOff', p1', s1' := DecodeFour(data, off, p1, s1);
    n := if |right| < |left| then |right| else |left|;
    if n > want {
      n := want;
    }
    mixed := Interleaved(left[..n], right[..n]);
  }

  lemma {:induction false} PrefixedNothing(rest: Option<seq<sample>>)
    ensures Prefixed([], rest) == rest
  {
    if rest.Some? {
      assert [] + rest.value == rest.value;
    }
  }

  lemma {:induction false} RestOfNothing(c0: Channel, c1: Channel, data: seq<byte>, out: seq<sample>)
    ensures Prefixed(out, StereoRest(c0, c1, data, 0)) == Some(out)
  {
    assert out + [] == out;
  }

  /** A pass that adds nothing repeats for ever; any other is followed by the rest. */
  lemma {:induction false} RestUnfolds(c0: Channel, c1: Channel, data: seq<byte>, want: nat, out: seq<sample>)
    requires want > 0
    ensures var n, l, r := PassCount(data, want), QuadL(data), QuadR(data);
            && |l| + |r| <= |data| && n <= want
            && Prefixed(out, StereoRest(c0, c1, data, want)) ==
                 if n == 0 then None
                 else Prefixed(out + PassOut(c0, c1, data, want), StereoRest(After(c0, Unpack(l)), After(c1, Unpack(r)), data[|l| + |r|..], want - n))
  {
    hide PassOut, After, Unpack;
    var n, l, r := PassCount(data, want), QuadL(data), QuadR(data);
    if n > 0 {
      var rest := StereoRest(After(c0, Unpack(l)), After(c1, Unpack(r)), data[|l| + |r|..], want - n);
      if rest.Some? {
        assert out + (PassOut(c0, c1, data, want) + rest.value) == out + PassOut(c0, c1, data, want) + rest.value;
      }
    }
  }

  method Interleaved(l: seq<sample>, r: seq<sample>) returns (s: seq<sample>)
    requires |l| == |r|
    ensures s == Interleave(l, r)
  {
    s := [];
    assert l[0..] == l && r[0..] == r;
    for i := 0 to |l|
      invariant s + Interleave(l[i..], r[i..]) == Interleave(l, r)
    {
      s := s + [l[i], r[i]];
    }
  }

  // ---------- stereo round trip ----------

  lemma {:induction false} DecodedConcat(c: Channel, a: seq<nibble>, b: seq<nibble>)
    ensures Decoded(c, a + b) == Decoded(c, a) + Decoded(After(c, a), b)
    decreases a
  {
    hide Decode;
    if a == [] {
      assert a + b == b;
    } else {
      assert (a + b)[1..] == a[1..] + b;
      DecodedConcat(Decode(c, a[0]), a[1..], b);
    }
  }

  lemma {:induction false} NibblesConcat(c: Channel, a: seq<sample>, b: seq<sample>)
    ensures Nibbles(c, a + b) == Nibbles(c, a) + Nibbles(After(c, Nibbles(c, a)), b)
    decreases a
  {
    hide Decode, Encode;
    if a == [] {
      assert a + b == b;
    } else {
      assert (a + b)[1..] == a[1..] + b;
      var c' := Decode(c, Encode(c, a[0]));
      NibblesConcat(c', a[1..], b);
      assert Nibbles(c, a)[1..] == Nibbles(c', a[1..]);
    }
  }

  /** The decoder's output for a channel's samples. */
  function Output(c: Channel, ss: seq<sample>): (out: seq<sample>)
    ensures |out| == |ss|
  {
    Decoded(c, Nibbles(c, ss))
  }

  /** Later samples do not change earlier output. */
  lemma {:induction false} OutputPrefix(c: Channel, ss: seq<sample>, n: nat)
    requires n <= |ss|
    ensures Output(c, ss)[..n] == Output(c, ss[..n])
  {
    hide Nibbles, Decoded, After;
    assert ss == ss[..n] + ss[n..];
    NibblesConcat(c, ss[..n], ss[n..]);
    DecodedConcat(c, Nibbles(c, ss[..n]), Nibbles(After(c, Nibbles(c, ss[..n])), ss[n..]));
  }

  lemma {:induction false} InterleaveConcat(a: seq<sample>, b: seq<sample>, a': seq<sample>, b': seq<sample>)
    requires |a| == |b| && |a'| == |b'|
    ensures Interleave(a + a', b + b') == Interleave(a, b) + Interleave(a', b')
  {
    if a == [] {
      assert a + a' == a' && b + b' == b';
    } else {
      assert (a + a')[1..] == a[1..] + a' && (b + b')[1..] == b[1..] + b';
      InterleaveConcat(a[1..], b[1..], a', b');
    }
  }

  ghost predicate WholeChunks(nl: seq<nibble>, nr: seq<nibble>, k: nat) { |nl| == 8 * k && |nr| == 8 * k }

  function Woven(nl: seq<nibble>, nr: seq<nibble>, k: nat): (w: seq<byte>)
    requires WholeChunks(nl, nr, k)
    ensures |w| == 8 * k
  {
    assert (8 * k + 1) / 2 == 4 * k;
    Weave(Pack(nl), Pack(nr))
  }

  /** A pass takes the first eight nibbles of each side. */
  lemma {:induction false} WovenFront(nl: seq<nibble>, nr: seq<nibble>, k: nat)
    requires WholeChunks(nl, nr, k) && k > 0
    ensures var w := Woven(nl, nr, k);
            && Unpack(QuadL(w)) == nl[..8] && Unpack(QuadR(w)) == nr[..8]
            && w[8..] == Woven(nl[8..], nr[8..], k - 1)
  {
    hide Weave, Unpack, Pack;
    var w := Woven(nl, nr, k);
    FrontBytes(nl, k);
    FrontBytes(nr, k);
    WeaveFront(Pack(nl), Pack(nr));
    assert QuadL(w) == w[..4] && QuadR(w) == w[4..8];
    UnpackPack(nl[..8]);
    UnpackPack(nr[..8]);
  }

  lemma {:induction false} FrontBytes(nibs: seq<nibble>, k: nat)
    requires |nibs| == 8 * k && k > 0
    ensures |Pack(nibs)| == 4 * k && Pack(nibs)[..4] == Pack(nibs[..8]) && Pack(nibs)[4..] == Pack(nibs[8..])
  {
    hide Pack;
    assert nibs == nibs[..8] + nibs[8..];
    PackConcat(nibs[..8], nibs[8..]);
  }

  lemma {:induction false} StereoChunks(c0: Channel, c1: Channel, nl: seq<nibble>, nr: seq<nibble>, k: nat, want: nat)
    requires WholeChunks(nl, nr, k) && want <= 8 * k && (k > 0 ==> want > 8 * (k - 1))
    ensures StereoRest(c0, c1, Woven(nl, nr, k), want) == Some(Interleave(Decoded(c0, nl)[..want], Decoded(c1, nr)[..want]))
    decreases k
  {
    hide Decoded, After, Unpack, Woven, Interleave;
    if k == 0 {
      InterleaveNone();
    } else {
      var w := Woven(nl, nr, k);
      WovenFront(nl, nr, k);
      var n := Least(8, want);
      assert PassCount(w, want) == n;
      StereoChunks(After(c0, nl[..8]), After(c1, nr[..8]), nl[8..], nr[8..], k - 1, want - n);
      Reassemble(c0, c1, nl, nr, n, want);
    }
  }

  lemma {:induction false} InterleaveNone()
    ensures Interleave([], []) == []
  {
  }

  lemma {:induction false} Reassemble(c0: Channel, c1: Channel, nl: seq<nibble>, nr: seq<nibble>, n: nat, want: nat)
    requires |nl| == |nr| >= 8 && want <= |nl| && n == Least(8, want)
    ensures Interleave(Decoded(c0, nl[..8])[..n], Decoded(c1, nr[..8])[..n])
          + Interleave(Decoded(After(c0, nl[..8]), nl[8..])[..want - n], Decoded(After(c1, nr[..8]), nr[8..])[..want - n])
         == Interleave(Decoded(c0, nl)[..want], Decoded(c1, nr)[..want])
  {
    hide Decoded, After, Interleave;
    SplitAtEight(c0, nl, n, want);
    SplitAtEight(c1, nr, n, want);
    InterleaveConcat(Decoded(c0, nl[..8])[..n], Decoded(c1, nr[..8])[..n],
      Decoded(After(c0, nl[..8]), nl[8..])[..want - n], Decoded(After(c1, nr[..8]), nr[8..])[..want - n]);
  }

  lemma {:induction false} SplitAtEight(c: Channel, nibs: seq<nibble>, n: nat, want: nat)
    requires |nibs| >= 8 && want <= |nibs| && n == Least(8, want)
    ensures Decoded(c, nibs)[..want] == Decoded(c, nibs[..8])[..n] + Decoded(After(c, nibs[..8]), nibs[8..])[..want - n]
  {
    hide Decoded, After;
    assert nibs == nibs[..8] + nibs[8..];
    DecodedConcat(c, nibs[..8], nibs[8..]);
  }

  /** The decoder gives the block's first samples, then per channel what the encoder's
      nibbles stand for: the padding samples are not heard. */
  lemma {:induction false} StereoRoundTrip(samples: seq<sample>, spb: nat, left: index, right: index)
    requires spb > 0
    ensures var c0, c1 := First(samples, 2, 0, left), First(samples, 2, 1, right);
            StereoDecoded(StereoBlock(samples, spb, left, right), spb) ==
              Some([c0.pred, c1.pred] + Interleave(Output(c0, Plane(samples, 2, 0, spb - 1)), Output(c1, Plane(samples, 2, 1, spb - 1))))
  {
    var c0, c1, k := First(samples, 2, 0, left), First(samples, 2, 1, right), Chunks(spb);
    var nl, nr := Nibbles(c0, Plane(samples, 2, 0, 8 * k)), Nibbles(c1, Plane(samples, 2, 1, 8 * k));
    StereoBlockIs(samples, spb, left, right, nl, nr);
    var w := Woven(nl, nr, k);
    hide First, Plane, Header, Pack, Nibbles, Unpack, Decoded, Woven, StereoBlock, StereoRest, Interleave;
    StereoHeadersRead(c0, c1, w);
    StereoChunks(c0, c1, nl, nr, k, spb - 1);
    PaddingUnheard(samples, 0, c0, k, spb - 1);
    PaddingUnheard(samples, 1, c1, k, spb - 1);
  }

  lemma {:induction false} StereoHeadersRead(c0: Channel, c1: Channel, w: seq<byte>)
    ensures var block := Header(c0) + Header(c1) + w;
            ReadHeader(block) == c0 && ReadHeader(block[4..]) == c1 && block[8..] == w
  {
    hide Header;
    var block := Header(c0) + Header(c1) + w;
    assert block == Header(c0) + (Header(c1) + w);
    HeaderRoundTrip(c0, Header(c1) + w);
    HeaderRoundTrip(c1, w);
    assert block[4..] == Header(c1) + w;
  }

  lemma {:induction false} StereoBlockIs(samples: seq<sample>, spb: nat, left: index, right: index, nl: seq<nibble>, nr: seq<nibble>)
    requires var c0, c1, k := First(samples, 2, 0, left), First(samples, 2, 1, right), Chunks(spb);
             nl == Nibbles(c0, Plane(samples, 2, 0, 8 * k)) && nr == Nibbles(c1, Plane(samples, 2, 1, 8 * k))
    ensures var c0, c1 := First(samples, 2, 0, left), First(samples, 2, 1, right);
            && WholeChunks(nl, nr, Chunks(spb))
            && StereoBlock(samples, spb, left, right) == Header(c0) + Header(c1) + Woven(nl, nr, Chunks(spb))
  {
    hide Nibbles, Plane, First, Header, Pack, Weave;
  }

  lemma {:induction false} PaddingUnheard(samples: seq<sample>, ch: nat, c: Channel, k: nat, n: nat)
    requires ch < 2 && n <= 8 * k
    ensures Decoded(c, Nibbles(c, Plane(samples, 2, ch, 8 * k)))[..n] == Output(c, Plane(samples, 2, ch, n))
  {
    hide Nibbles, Decoded;
    assert Plane(samples, 2, ch, 8 * k)[..n] == Plane(samples, 2, ch, n);
    OutputPrefix(c, Plane(samples, 2, ch, 8 * k), n);
  }
}
