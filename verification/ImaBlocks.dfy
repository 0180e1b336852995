/** IMA ADPCM blocks: what the audio-input encoder writes, the audio-output decoder
    reads back. */
module ImaBlocks {
  import opened Bits
  import opened Wire
  import opened Pcm
  import opened Ima

  function Header(c: Channel): (h: seq<byte>)
    ensures |h| == 4
  {
    PutLe16(Word(c.pred)) + [c.index, 0]
  }

  function ReadHeader(h: seq<byte>): Channel
    requires |h| >= 4
  {
    Channel(Int16(GetLe16(h)), if h[2] > 88 then 88 else h[2])
  }

  lemma {:induction false} HeaderRoundTrip(c: Channel, rest: seq<byte>)
    ensures ReadHeader(Header(c) + rest) == c
  {
    var h := Header(c) + rest;
    assert GetLe16(h) == GetLe16(PutLe16(Word(c.pred)));
  }

  /** The samples of one channel that a block carries in nibbles. */
  function Plane(samples: seq<sample>, channels: nat, ch: nat, n: nat): (p: seq<sample>)
    requires ch < channels
    ensures |p| == n
  {
    seq(n, k requires 0 <= k < n => SampleAt(samples, channels, ch, 1 + k))
  }

  function First(samples: seq<sample>, channels: nat, ch: nat, index: index): Channel
    requires ch < channels
  {
    Channel(SampleAt(samples, channels, ch, 0), index)
  }

  function Pred(n: nat): nat { if n == 0 then 0 else n - 1 }

  /** The packed nibbles of the first n samples after the header's. */
  function Packed(c: Channel, samples: seq<sample>, channels: nat, ch: nat, n: nat): (bytes: seq<byte>)
    requires ch < channels
    ensures |bytes| == (n + 1) / 2
  {
    Pack(Nibbles(c, Plane(samples, channels, ch, n)))
  }

  // ---------- encoding one channel ----------

  lemma {:induction false} PlaneSnoc(samples: seq<sample>, channels: nat, ch: nat, n: nat)
    requires ch < channels
    ensures Plane(samples, channels, ch, n + 1) == Plane(samples, channels, ch, n) + [SampleAt(samples, channels, ch, 1 + n)]
  {
  }

  /** One more sample encoded. */
  lemma {:induction false} Extend(c: Channel, ss: seq<sample>, s: sample, nib: nibble)
    requires nib == Encode(After(c, Nibbles(c, ss)), s)
    ensures Nibbles(c, ss + [s]) == Nibbles(c, ss) + [nib]
    ensures After(c, Nibbles(c, ss + [s])) == Decode(After(c, Nibbles(c, ss)), nib)
  {
    hide *;
    NibblesSnoc(c, ss, s);
    AfterSnoc(c, Nibbles(c, ss), nib);
  }

  lemma {:induction false} PackPair(nibs: seq<nibble>, a: nibble, b: nibble)
    requires |nibs| % 2 == 0
    ensures Pack(nibs + [a] + [b]) == Pack(nibs) + [Byte(a, b)]
  {
    assert nibs + [a] + [b] == nibs + [a, b];
    assert [a, b][2..] == [];
    PackConcat(nibs, [a, b]);
  }

  /** n nibbles written, the channel after them, and the bytes that hold them. */
  ghost predicate Progress(c: Channel, samples: seq<sample>, channels: nat, ch: nat, n: nat, pred: sample, si: index)
    requires ch < channels
  {
    Channel(pred, si) == After(c, Nibbles(c, Plane(samples, channels, ch, n)))
  }

  /** One nibble of the encoding loop. */
  method NextNibble(ghost c: Channel, samples: seq<sample>, channels: nat, ch: nat, i: nat, pred: sample, si: index)
    returns (nib: nibble, pred': sample, si': index)
    requires ch < channels && i >= 1 && Progress(c, samples, channels, ch, i - 1, pred, si)
    ensures Progress(c, samples, channels, ch, i, pred', si')
    ensures Nibbles(c, Plane(samples, channels, ch, i)) == Nibbles(c, Plane(samples, channels, ch, i - 1)) + [nib]
  {
    hide Encode, Decode, Nibbles, After, Plane;
    var s: sample := 0;
    if i < |samples| / channels {
      InterleavedIndex(|samples|, channels, ch, i);
      s := samples[i * channels + ch];
    }
    nib, pred', si' := EncodeNibble(s, pred, si);
    PlaneSnoc(samples, channels, ch, i - 1);
    Extend(c, Plane(samples, channels, ch, i - 1), s, nib);
  }

  /** One byte of the encoding loop: two samples, low nibble first. */
  method EncodePair(ghost c: Channel, samples: seq<sample>, channels: nat, ch: nat, i: nat, pred: sample, si: index)
    returns (b: byte, pred': sample, si': index)
    requires ch < channels && i % 2 == 1 && Progress(c, samples, channels, ch, i - 1, pred, si)
    ensures Progress(c, samples, channels, ch, i + 1, pred', si')
    ensures Packed(c, samples, channels, ch, i + 1) == Packed(c, samples, channels, ch, i - 1) + [b]
  {
    hide Nibbles, After, Plane, Pack;
    var nib0, nib1;
    nib0, pred', si' := NextNibble(c, samples, channels, ch, i, pred, si);
    nib1, pred', si' := NextNibble(c, samples, channels, ch, i + 1, pred', si');
    PackPair(Nibbles(c, Plane(samples, channels, ch, i - 1)), nib0, nib1);
    b := Byte(nib0, nib1);
  }

  /** The last byte of a block with an even number of samples. */
  method EncodeLast(ghost c: Channel, samples: seq<sample>, channels: nat, ch: nat, i: nat, pred: sample, si: index)
    returns (b: byte, pred': sample, si': index)
    requires ch < channels && i % 2 == 1 && Progress(c, samples, channels, ch, i - 1, pred, si)
    ensures Progress(c, samples, channels, ch, i, pred', si')
    ensures Packed(c, samples, channels, ch, i) == Packed(c, samples, channels, ch, i - 1) + [b]
  {
    hide Nibbles, After, Plane, Pack;
    b, pred', si' := NextNibble(c, samples, channels, ch, i, pred, si);
    PackLast(Nibbles(c, Plane(samples, channels, ch, i - 1)), b);
  }

  // ---------- mono blocks ----------

  function MonoBlock(samples: seq<sample>, spb: nat, index: index): (block: seq<byte>)
    ensures |block| == 4 + spb / 2
  {
    var c := First(samples, 1, 0, index);
    Header(c) + Packed(c, samples, 1, 0, Pred(spb))
  }

  /** The channel at the end of the block: its index starts the next block. */
  function Last(samples: seq<sample>, channels: nat, ch: nat, n: nat, index: index): Channel
    requires ch < channels
  {
    var c := First(samples, channels, ch, index);
    After(c, Nibbles(c, Plane(samples, channels, ch, n)))
  }

  /** The cursor ends at the end of the block. */
  method EncodeMono(samples: seq<sample>, samplesPerBlock: nat, stepIndex: index, dst: array<byte>) returns (si: index)
    requires dst.Length == 4 + samplesPerBlock / 2
    modifies dst
    ensures dst[..] == MonoBlock(samples, samplesPerBlock, stepIndex)
    ensures si == Last(samples, 1, 0, Pred(samplesPerBlock), stepIndex).index
  {
    hide *;
    var pred: sample := if |samples| > 0 then samples[0] else 0;
    ghost var c := Channel(pred, stepIndex);
    FirstMono(samples, stepIndex);
    si := stepIndex;
    Start(c, samples, 1, 0);
    HeaderIs(c);
    var off: nat := Put(dst, 0, PutLe16(Word(pred)) + [si, 0]);
    Opened(dst[..off], c, samples);
    var i := 1;
    DoneIs(i, samplesPerBlock);
    while i < samplesPerBlock
      invariant 1 <= i <= samplesPerBlock + 1 && (i <= samplesPerBlock ==> i % 2 == 1)
      invariant Progress(c, samples, 1, 0, Done(i, samplesPerBlock), pred, si)
      invariant off <= dst.Length && Written(dst[..off], c, samples, Done(i, samplesPerBlock))
    {
      DoneIs(i, samplesPerBlock);
      DoneIs(i + 2, samplesPerBlock);
      RoomLeft(dst[..off], c, samples, i, samplesPerBlock);
      var b;
      if i + 1 < samplesPerBlock {
        b, pred, si := EncodePair(c, samples, 1, 0, i, pred, si);
      } else {
        b, pred, si := EncodeLast(c, samples, 1, 0, i, pred, si);
      }
      WrittenStep(dst[..off], c, samples, Done(i, samplesPerBlock), Done(i + 2, samplesPerBlock), b);
      off := Put(dst, off, [b]);
      i := i + 2;
    }
    DoneIs(i, samplesPerBlock);
    MonoBlockIs(dst[..off], samples, samplesPerBlock, stepIndex, pred, si);
    assert dst[..off] == dst[..];
  }

  /** The header and the bytes of n samples. */
  ghost predicate Written(d: seq<byte>, c: Channel, samples: seq<sample>, n: nat) { d == Header(c) + Packed(c, samples, 1, 0, n) }

  lemma {:induction false} FirstMono(samples: seq<sample>, i: index)
    ensures First(samples, 1, 0, i) == Channel(if |samples| > 0 then samples[0] else 0, i)
  {
  }

  lemma {:induction false} Opened(d: seq<byte>, c: Channel, samples: seq<sample>)
    requires d == Header(c) && Packed(c, samples, 1, 0, 0) == []
    ensures Written(d, c, samples, 0)
  {
    hide Header, Packed;
    assert d + [] == d;
  }

  lemma {:induction false} DoneIs(i: nat, spb: nat)
    requires i >= 1
    ensures Done(i, spb) == if i <= spb then i - 1 else Pred(spb)
    ensures Pred(spb) == if spb == 0 then 0 else spb - 1
  {
  }

  lemma {:induction false} RoomLeft(d: seq<byte>, c: Channel, samples: seq<sample>, i: nat, spb: nat)
    requires i % 2 == 1 && i < spb && Written(d, c, samples, i - 1)
    ensures |d| < 4 + spb / 2
  {
    hide Header, Packed;
  }

  lemma {:induction false} WrittenStep(d: seq<byte>, c: Channel, samples: seq<sample>, n: nat, n': nat, b: byte)
    requires Written(d, c, samples, n) && Packed(c, samples, 1, 0, n') == Packed(c, samples, 1, 0, n) + [b]
    ensures Written(d + [b], c, samples, n')
  {
    hide Header, Packed;
  }

  lemma {:induction false} MonoBlockIs(d: seq<byte>, samples: seq<sample>, spb: nat, i: index, pred: sample, si: index)
    requires var c := First(samples, 1, 0, i);
             Written(d, c, samples, Pred(spb)) && Progress(c, samples, 1, 0, Pred(spb), pred, si)
    ensures d == MonoBlock(samples, spb, i) && si == Last(samples, 1, 0, Pred(spb), i).index
  {
    hide Header, Packed, First, Nibbles, Ima.After, Plane;
  }

  /** How many samples are in nibbles when the loop stands at i. */
  function Done(i: nat, spb: nat): nat { if i <= spb then Pred(i) else Pred(spb) }

  lemma {:induction false} HeaderIs(c: Channel)
    ensures Header(c) == PutLe16(Word(c.pred)) + [c.index, 0]
  {
  }

  lemma {:induction false} Start(c: Channel, samples: seq<sample>, channels: nat, ch: nat)
    requires ch < channels
    ensures Progress(c, samples, channels, ch, 0, c.pred, c.index)
    ensures Packed(c, samples, channels, ch, 0) == []
  {
  }

  lemma {:induction false} PackLast(nibs: seq<nibble>, a: nibble)
    requires |nibs| % 2 == 0
    ensures Pack(nibs + [a]) == Pack(nibs) + [a]
  {
    PackConcat(nibs, [a]);
  }

  // ---------- stereo blocks ----------

  /** Groups of four bytes, taken from each side in turn. */
  function Weave(l: seq<byte>, r: seq<byte>): (w: seq<byte>)
    requires |l| == |r| && |l| % 4 == 0
    ensures |w| == 2 * |l|
  {
    seq(2 * |l|, i requires 0 <= i < 2 * |l| => if i % 8 < 4 then l[i / 8 * 4 + i % 8] else r[i / 8 * 4 + i % 8 - 4])
  }

  lemma {:induction false} WeaveSnoc(l: seq<byte>, r: seq<byte>, a: seq<byte>, b: seq<byte>)
    requires |l| == |r| && |l| % 4 == 0 && |a| == 4 && |b| == 4
    ensures Weave(l + a, r + b) == Weave(l, r) + a + b
  {
    var w, w' := Weave(l, r), Weave(l + a, r + b);
    assert |w'| == |w| + 8;
    forall i | 0 <= i < |w'| ensures w'[i] == (w + a + b)[i] {
      if i >= |w| {
        assert i / 8 == |w| / 8;
      }
    }
  }

  lemma {:induction false} WeaveFront(l: seq<byte>, r: seq<byte>)
    requires |l| == |r| && |l| % 4 == 0 && |l| > 0
    ensures Weave(l, r)[..4] == l[..4] && Weave(l, r)[4..8] == r[..4] && Weave(l, r)[8..] == Weave(l[4..], r[4..])
  {
    hide *;
    var w, w' := Weave(l, r), Weave(l[4..], r[4..]);
    forall i | 0 <= i < 4 ensures w[i] == l[i] && w[4 + i] == r[i] {
      WeaveAt(l, r, 0, i);
    }
    assert w[4..8] == r[..4];
    forall i | 0 <= i < |w'| ensures w[8 + i] == w'[i] {
      var j, k := i / 8, i % 8;
      WeaveAt(l, r, j + 1, k % 4);
      WeaveAt(l[4..], r[4..], j, k % 4);
      assert l[4..][4 * j + k % 4] == l[4 * (j + 1) + k % 4] && r[4..][4 * j + k % 4] == r[4 * (j + 1) + k % 4];
    }
    assert w[8..] == w';
  }

  /** Byte k of chunk j of each side. */
  lemma {:induction false} WeaveAt(l: seq<byte>, r: seq<byte>, j: nat, k: nat)
    requires |l| == |r| && |l| % 4 == 0 && 4 * j < |l| && k < 4
    ensures Weave(l, r)[8 * j + k] == l[4 * j + k] && Weave(l, r)[8 * j + 4 + k] == r[4 * j + k]
  {
    assert (8 * j + k) / 8 == j && (8 * j + 4 + k) / 8 == j;
  }

  /** Chunks of eight samples that a stereo block carries in nibbles. */
  function Chunks(spb: nat): nat { (Pred(spb) + 7) / 8 }

  /** The nibbles of k chunks of one channel. */
  function Quads(c: Channel, samples: seq<sample>, ch: nat, k: nat): (bytes: seq<byte>)
    requires ch < 2
    ensures |bytes| == 4 * k
  {
    assert (8 * k + 1) / 2 == 4 * k;
    Packed(c, samples, 2, ch, 8 * k)
  }

  function StereoBlock(samples: seq<sample>, spb: nat, left: index, right: index): (block: seq<byte>)
    ensures |block| == 8 + 8 * Chunks(spb)
  {
    var c0, c1, k := First(samples, 2, 0, left), First(samples, 2, 1, right), Chunks(spb);
    Header(c0) + Header(c1) + Chunked(c0, c1, samples, k)
  }

  /** k chunks, each four bytes of the left channel and four of the right. */
  function Chunked(c0: Channel, c1: Channel, samples: seq<sample>, k: nat): (bytes: seq<byte>)
    ensures |bytes| == 8 * k
  {
    hide *;
    Weave(Quads(c0, samples, 0, k), Quads(c1, samples, 1, k))
  }

  /** Both channels after k chunks. */
  ghost predicate Both(c0: Channel, c1: Channel, samples: seq<sample>, k: nat, pred0: sample, si0: index, pred1: sample, si1: index) {
    Progress(c0, samples, 2, 0, 8 * k, pred0, si0) && Progress(c1, samples, 2, 1, 8 * k, pred1, si1)
  }

  /** A block's bytes up to the cursor: the headers and k chunks. */
  ghost predicate Filled(dst: seq<byte>, off: nat, h: seq<byte>, c0: Channel, c1: Channel, samples: seq<sample>, k: nat) {
    off <= |dst| && dst[..off] == h + Chunked(c0, c1, samples, k)
  }

  /** Four bytes of one channel: eight samples. */
  method EncodeFour(ghost c: Channel, samples: seq<sample>, ch: nat, ghost k: nat, sampleIdx: nat, pred: sample, si: index, dst: array<byte>, off: nat)
    returns (pred': sample, si': index)
    requires ch < 2 && sampleIdx == 1 + 8 * k && Progress(c, samples, 2, ch, 8 * k, pred, si)
    requires off + 4 <= dst.Length
    modifies dst
    ensures Progress(c, samples, 2, ch, 8 * (k + 1), pred', si')
    ensures dst[..off] == old(dst[..off])
    ensures Quads(c, samples, ch, k + 1) == Quads(c, samples, ch, k) + dst[off..off + 4]
  {
    hide *;
    pred', si' := pred, si;
    assert dst[off..off] == [];
    for j := 0 to 4
      invariant dst[..off] == old(dst[..off])
      invariant Progress(c, samples, 2, ch, 8 * k + 2 * j, pred', si')
      invariant Packed(c, samples, 2, ch, 8 * k + 2 * j) == Packed(c, samples, 2, ch, 8 * k) + dst[off..off + j]
    {
      var b;
      b, pred', si' := EncodePair(c, samples, 2, ch, sampleIdx + 2 * j, pred', si');
      dst[off + j] := b;
      assert dst[off..off + (j + 1)] == dst[off..off + j] + [b];
    }
    QuadsAre(c, samples, ch, k);
    QuadsAre(c, samples, ch, k + 1);
  }

  lemma {:induction false} QuadsAre(c: Channel, samples: seq<sample>, ch: nat, k: nat)
    requires ch < 2
    ensures Quads(c, samples, ch, k) == Packed(c, samples, 2, ch, 8 * k)
  {
    hide Packed;
  }

  method EncodeStereo(samples: seq<sample>, samplesPerBlock: nat, left: index, right: index, dst: array<byte>)
    returns (si0: index, si1: index)
    requires dst.Length == 8 + 8 * Chunks(samplesPerBlock)
    modifies dst
    ensures dst[..] == StereoBlock(samples, samplesPerBlock, left, right)
    ensures si0 == Last(samples, 2, 0, 8 * Chunks(samplesPerBlock), left).index
    ensures si1 == Last(samples, 2, 1, 8 * Chunks(samplesPerBlock), right).index
  {
    hide *;
    ghost var c0, c1 := First(samples, 2, 0, left), First(samples, 2, 1, right);
    ghost var h := Header(c0) + Header(c1);
    var pred0, pred1, off := StereoHeaders(samples, left, right, dst);
    StartStereo(c0, c1, samples);
    assert h + [] == h && dst[..][..8] == dst[..8];
    FilledIs(dst[..], 8, h, c0, c1, samples, 0);
    pred0, si0, pred1, si1 := EncodeChunks(c0, c1, samples, samplesPerBlock, pred0, left, pred1, right, dst, h);
    FilledIs(dst[..], dst.Length, h, c0, c1, samples, Chunks(samplesPerBlock));
    assert dst[..][..dst.Length] == dst[..];
    StereoEnds(samples, samplesPerBlock, left, right, pred0, si0, pred1, si1);
  }

  lemma {:induction false} StereoEnds(samples: seq<sample>, spb: nat, left: index, right: index, pred0: sample, si0: index, pred1: sample, si1: index)
    requires Both(First(samples, 2, 0, left), First(samples, 2, 1, right), samples, Chunks(spb), pred0, si0, pred1, si1)
    ensures var c0, c1, k := First(samples, 2, 0, left), First(samples, 2, 1, right), Chunks(spb);
            && StereoBlock(samples, spb, left, right) == Header(c0) + Header(c1) + Chunked(c0, c1, samples, k)
            && si0 == Last(samples, 2, 0, 8 * k, left).index && si1 == Last(samples, 2, 1, 8 * k, right).index
  {
    hide Header, Chunked, Nibbles, Plane, Ima.After, First;
  }

  /** The chunks after the headers. */
  method EncodeChunks(ghost c0: Channel, ghost c1: Channel, samples: seq<sample>, samplesPerBlock: nat,
                      p0: sample, left: index, p1: sample, right: index, dst: array<byte>, ghost h: seq<byte>)
    returns (pred0: sample, si0: index, pred1: sample, si1: index)
    requires dst.Length == 8 + 8 * Chunks(samplesPerBlock)
    requires Both(c0, c1, samples, 0, p0, left, p1, right) && Filled(dst[..], 8, h, c0, c1, samples, 0)
    modifies dst
    ensures Both(c0, c1, samples, Chunks(samplesPerBlock), pred0, si0, pred1, si1)
    ensures Filled(dst[..], dst.Length, h, c0, c1, samples, Chunks(samplesPerBlock))
  {
    hide *;
    var off: nat := 8;
    pred0, si0, pred1, si1 := p0, left, p1, right;
    var sampleIdx: nat := 1;
    ghost var k: nat := 0;
    while sampleIdx < samplesPerBlock
      invariant sampleIdx == 1 + 8 * k && off == 8 + 8 * k && k <= Chunks(samplesPerBlock)
      invariant Both(c0, c1, samples, k, pred0, si0, pred1, si1) && Filled(dst[..], off, h, c0, c1, samples, k)
    {
      ChunkToCome(k, samplesPerBlock);
      pred0, si0, pred1, si1 := EncodeChunk(c0, c1, samples, k, sampleIdx, pred0, si0, pred1, si1, dst, off, h);
      off := off + 8;
      sampleIdx := sampleIdx + 8;
      k := k + 1;
    }
    ChunkToCome(k, samplesPerBlock);
  }

  /** There is another chunk exactly while there are samples. */
  lemma {:induction false} ChunkToCome(k: nat, spb: nat)
    requires k <= Chunks(spb)
    ensures 1 + 8 * k < spb <==> k < Chunks(spb)
  {
  }

  method StereoHeaders(samples: seq<sample>, left: index, right: index, dst: array<byte>)
    returns (pred0: sample, pred1: sample, off: nat)
    requires dst.Length >= 8
    modifies dst
    ensures First(samples, 2, 0, left) == Channel(pred0, left) && First(samples, 2, 1, right) == Channel(pred1, right)
    ensures off == 8 && dst[..off] == Header(First(samples, 2, 0, left)) + Header(First(samples, 2, 1, right))
  {
    var n := |samples| / 2;
    pred0 := if n > 0 then samples[0] else 0;
    pred1 := if n > 0 then samples[1] else 0;
    hide Header;
    off := Put(dst, 0, PutLe16(Word(pred0)) + [left, 0]);
    off := Put(dst, off, PutLe16(Word(pred1)) + [right, 0]);
    HeaderIs(Channel(pred0, left));
    HeaderIs(Channel(pred1, right));
  }

  lemma {:induction false} StartStereo(c0: Channel, c1: Channel, samples: seq<sample>)
    ensures Both(c0, c1, samples, 0, c0.pred, c0.index, c1.pred, c1.index)
    ensures Chunked(c0, c1, samples, 0) == []
  {
    hide Nibbles, After, Plane, Pack, Packed;
    Start(c0, samples, 2, 0);
    Start(c1, samples, 2, 1);
  }

  /** Eight samples of the left channel, eight of the right. */
  method EncodeChunk(ghost c0: Channel, ghost c1: Channel, samples: seq<sample>, ghost k: nat, sampleIdx: nat,
                     pred0: sample, si0: index, pred1: sample, si1: index, dst: array<byte>, off: nat, ghost h: seq<byte>)
    returns (pred0': sample, si0': index, pred1': sample, si1': index)
    requires sampleIdx == 1 + 8 * k && off + 8 <= dst.Length
    requires Both(c0, c1, samples, k, pred0, si0, pred1, si1) && Filled(dst[..], off, h, c0, c1, samples, k)
    modifies dst
    ensures Both(c0, c1, samples, k + 1, pred0', si0', pred1', si1')
    ensures Filled(dst[..], off + 8, h, c0, c1, samples, k + 1)
  {
    hide *;
    BothAre(c0, c1, samples, k, pred0, si0, pred1, si1);
    FilledIs(dst[..], off, h, c0, c1, samples, k);
    assert dst[..][..off] == dst[..off];
    pred0', si0' := EncodeFour(c0, samples, 0, k, sampleIdx, pred0, si0, dst, off);
    ghost var a := dst[off..off + 4];
    assert dst[..off + 4] == dst[..off] + a;
    pred1', si1' := EncodeFour(c1, samples, 1, k, sampleIdx, pred1, si1, dst, off + 4);
    ghost var b := dst[off + 4..off + 8];
    assert dst[..off + 8] == dst[..off + 4] + b;
    BothAre(c0, c1, samples, k + 1, pred0', si0', pred1', si1');
    ChunkedSnoc(c0, c1, samples, k, a, b);
    assert h + Chunked(c0, c1, samples, k) + a + b == h + (Chunked(c0, c1, samples, k) + a + b);
    assert dst[..][..off + 8] == dst[..off + 8];
    FilledIs(dst[..], off + 8, h, c0, c1, samples, k + 1);
  }

  lemma {:induction false} FilledIs(dst: seq<byte>, off: nat, h: seq<byte>, c0: Channel, c1: Channel, samples: seq<sample>, k: nat)
    ensures Filled(dst, off, h, c0, c1, samples, k) <==> off <= |dst| && dst[..off] == h + Chunked(c0, c1, samples, k)
  {
    hide Chunked;
  }

  lemma {:induction false} BothAre(c0: Channel, c1: Channel, samples: seq<sample>, k: nat, pred0: sample, si0: index, pred1: sample, si1: index)
    ensures Both(c0, c1, samples, k, pred0, si0, pred1, si1) <==>
              Progress(c0, samples, 2, 0, 8 * k, pred0, si0) && Progress(c1, samples, 2, 1, 8 * k, pred1, si1)
  {
    hide Progress;
  }

  lemma {:induction false} ChunkedSnoc(c0: Channel, c1: Channel, samples: seq<sample>, k: nat, a: seq<byte>, b: seq<byte>)
    requires |a| == 4 && |b| == 4
    requires Quads(c0, samples, 0, k + 1) == Quads(c0, samples, 0, k) + a && Quads(c1, samples, 1, k + 1) == Quads(c1, samples, 1, k) + b
    ensures Chunked(c0, c1, samples, k + 1) == Chunked(c0, c1, samples, k) + a + b
  {
    hide Quads, Weave;
    WeaveSnoc(Quads(c0, samples, 0, k), Quads(c1, samples, 1, k), a, b);
  }
}
