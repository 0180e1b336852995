/** ADPCM blocks byte by byte: what the encoders write where, and what the decoders make
    of any bytes. */
module AdpcmBytes {
  import opened Bits
  import opened Wire
  import opened Pcm
  import opened Ima
  import opened ImaBlocks
  import opened ImaDecoder

  // ---------- nibble by nibble ----------

  /** The k-th output is the predictor after the k-th nibble, which is decoded where the
      ones before it left the channel. */
  lemma {:induction false} DecodedAt(c: Channel, nibs: seq<nibble>, k: nat)
    requires k < |nibs|
    ensures Ima.After(c, []) == c
    ensures Ima.After(c, nibs[..k + 1]) == Decode(Ima.After(c, nibs[..k]), nibs[k])
    ensures Ima.Decoded(c, nibs)[k] == Ima.After(c, nibs[..k + 1]).pred
  {
    hide *;
    assert nibs[..k + 1] == nibs[..k] + [nibs[k]];
    Ima.AfterSnoc(c, nibs[..k], nibs[k]);
    assert nibs == nibs[..k + 1] + nibs[k + 1..];
    DecodedConcat(c, nibs[..k + 1], nibs[k + 1..]);
    AfterNothing(c);
  }

  lemma {:induction false} AfterNothing(c: Channel)
    ensures Ima.After(c, []) == c
  {
  }

  /** The k-th sample is encoded where the nibbles before it leave the decoder. */
  lemma {:induction false} EncodedAt(c: Channel, ss: seq<sample>, k: nat)
    requires k < |ss|
    ensures Nibbles(c, ss)[k] == Encode(Ima.After(c, Nibbles(c, ss)[..k]), ss[k])
  {
    hide *;
    assert ss[..k + 1] == ss[..k] + [ss[k]] && ss == ss[..k + 1] + ss[k + 1..];
    NibblesSnoc(c, ss[..k], ss[k]);
    NibblesConcat(c, ss[..k + 1], ss[k + 1..]);
    assert Nibbles(c, ss)[..k] == Nibbles(c, ss[..k]);
  }

  /** The byte holds the k-th pair: the first of it is the low half, an odd one out has
      nothing above it. */
  ghost predicate Holds(b: byte, nibs: seq<nibble>, k: nat) {
    && 2 * k < |nibs|
    && b as int == (nibs[2 * k] as int) + (if 2 * k + 1 < |nibs| then 16 * (nibs[2 * k + 1] as int) else 0)
  }

  lemma {:induction false} PackAt(nibs: seq<nibble>, k: nat)
    requires k < (|nibs| + 1) / 2
    ensures Holds(Pack(nibs)[k], nibs, k)
    decreases nibs
  {
    hide *;
    PackIs(nibs);
    HoldsIs(Pack(nibs)[k], nibs, k);
    if k > 0 {
      PackAt(nibs[2..], k - 1);
      HoldsIs(Pack(nibs)[k], nibs[2..], k - 1);
    }
  }

  lemma {:induction false} HoldsIs(b: byte, nibs: seq<nibble>, k: nat)
    ensures Holds(b, nibs, k) <==> 2 * k < |nibs| && b as int == (nibs[2 * k] as int) + (if 2 * k + 1 < |nibs| then 16 * (nibs[2 * k + 1] as int) else 0)
  {
  }

  lemma {:induction false} PackIs(nibs: seq<nibble>)
    ensures |nibs| == 1 ==> Pack(nibs) == [nibs[0]]
    ensures |nibs| >= 2 ==> |Pack(nibs[2..])| == (|nibs| - 1) / 2 && Pack(nibs) == [((nibs[0] as int) + 16 * (nibs[1] as int)) as byte] + Pack(nibs[2..])
  {
  }

  // ---------- the encoder's IMA blocks ----------

  /** A channel's header: the first sample low byte first, the step index, zero. */
  ghost predicate Headed(block: seq<byte>, at: nat, p: sample, i: index) {
    at + 3 < |block| && WordIs(block, at, p % 0x1_0000) && block[at + 2] == i && block[at + 3] == 0
  }

  /** The first sample low byte first, the step index, zero, and then two samples to a
      byte, the earlier one in the low half; samples past the end are silence. */
  lemma {:induction false} MonoBytes(samples: seq<sample>, spb: nat, i: index, p: sample, ss: seq<sample>, k: nat)
    requires p == if |samples| > 0 then samples[0] else 0
    requires |ss| == if spb == 0 then 0 else spb - 1
    requires forall j :: 0 <= j < |ss| ==> ss[j] == if j + 1 < |samples| then samples[j + 1] else 0
    ensures var block, nibs := MonoBlock(samples, spb, i), Nibbles(Channel(p, i), ss);
            && |block| == 4 + spb / 2 && Headed(block, 0, p, i)
            && (k < spb / 2 ==> Holds(block[4 + k], nibs, k))
  {
    hide *;
    MonoIs(samples, spb, i, p, ss);
    HeaderBytes(Channel(p, i));
    if k < spb / 2 {
      PackAt(Nibbles(Channel(p, i), ss), k);
    }
    HeaderFront(Header(Channel(p, i)), Pack(Nibbles(Channel(p, i), ss)), p, i);
  }

  lemma {:induction false} HeaderFront(h: seq<byte>, rest: seq<byte>, p: sample, i: index)
    requires Headed(h, 0, p, i)
    ensures Headed(h + rest, 0, p, i)
  {
  }

  lemma {:induction false} HeaderBytes(c: Channel)
    ensures Headed(Header(c), 0, c.pred, c.index)
  {
    assert Word(c.pred) == c.pred % 0x1_0000;
  }

  lemma {:induction false} MonoIs(samples: seq<sample>, spb: nat, i: index, p: sample, ss: seq<sample>)
    requires p == if |samples| > 0 then samples[0] else 0
    requires |ss| == if spb == 0 then 0 else spb - 1
    requires forall j :: 0 <= j < |ss| ==> ss[j] == if j + 1 < |samples| then samples[j + 1] else 0
    ensures MonoBlock(samples, spb, i) == Header(Channel(p, i)) + Pack(Nibbles(Channel(p, i), ss))
    ensures |ss| == Pred(spb)
  {
    assert Plane(samples, 1, 0, Pred(spb)) == ss;
    hide Header, Pack, Nibbles;
  }

  /** Sample i of a channel of a stereo frame sequence; past the last whole frame, silence. */
  lemma {:induction false} StereoPlane(samples: seq<sample>, ch: nat, n: nat, ss: seq<sample>)
    requires ch < 2 && |ss| == n
    requires forall j :: 0 <= j < n ==> ss[j] == if 2 * j + 3 < |samples| then samples[2 * j + 2 + ch] else 0
    ensures Plane(samples, 2, ch, n) == ss
  {
  }

  /** Byte b of group j of both sides. */
  ghost predicate InGroup(bytes: seq<byte>, nl: seq<nibble>, nr: seq<nibble>, j: nat, b: nat) {
    && 8 * j + 4 + b < |bytes|
    && Holds(bytes[8 * j + b], nl, 4 * j + b) && Holds(bytes[8 * j + 4 + b], nr, 4 * j + b)
  }

  /** Both headers, and then in turn four bytes of the left channel and four of the right,
      filled up with silence to whole groups. */
  lemma {:induction false} StereoBytes(samples: seq<sample>, spb: nat, left: index, right: index, p0: sample, p1: sample, l: seq<sample>, r: seq<sample>, j: nat, b: nat)
    requires if |samples| >= 2 then p0 == samples[0] && p1 == samples[1] else p0 == 0 && p1 == 0
    requires |l| == |r| == if spb == 0 then 0 else (spb + 6) / 8 * 8
    requires forall i :: 0 <= i < |l| ==> l[i] == if 2 * i + 3 < |samples| then samples[2 * i + 2] else 0
    requires forall i :: 0 <= i < |r| ==> r[i] == if 2 * i + 3 < |samples| then samples[2 * i + 3] else 0
    ensures var block := StereoBlock(samples, spb, left, right);
            && |block| == 8 + |l| && Headed(block, 0, p0, left) && Headed(block, 4, p1, right)
            && (8 * j < |l| && b < 4 ==> InGroup(block[8..], Nibbles(Channel(p0, left), l), Nibbles(Channel(p1, right), r), j, b))
  {
    hide *;
    var c0, c1 := Channel(p0, left), Channel(p1, right);
    var nl, nr := Nibbles(c0, l), Nibbles(c1, r);
    StereoIs(samples, spb, left, right, p0, p1, l, r);
    HeaderBytes(c0);
    HeaderBytes(c1);
    var w := Weave(Pack(nl), Pack(nr));
    HeadersFront(Header(c0), Header(c1), w, c0, c1);
    if 8 * j < |l| && b < 4 {
      Grouped(nl, nr, j, b);
    }
  }

  lemma {:induction false} Grouped(nl: seq<nibble>, nr: seq<nibble>, j: nat, b: nat)
    requires |nl| == |nr| && |nl| % 8 == 0 && 8 * j < |nl| && b < 4
    requires |Pack(nl)| == |Pack(nr)| && |Pack(nl)| % 4 == 0
    ensures InGroup(Weave(Pack(nl), Pack(nr)), nl, nr, j, b)
  {
    hide Pack, Weave, Holds;
    WholeGroups(|nl|, j, b);
    WeaveAt(Pack(nl), Pack(nr), j, b);
    PackAt(nl, 4 * j + b);
    PackAt(nr, 4 * j + b);
  }

  lemma {:induction false} WholeGroups(n: nat, j: nat, b: nat)
    requires n % 8 == 0 && 8 * j < n && b < 4
    ensures 8 * j + 8 <= n && 4 * j + b < (n + 1) / 2 == n / 2
  {
  }

  lemma {:induction false} HeadersFront(h0: seq<byte>, h1: seq<byte>, rest: seq<byte>, c0: Channel, c1: Channel)
    requires |h0| == 4 && |h1| == 4 && Headed(h0, 0, c0.pred, c0.index) && Headed(h1, 0, c1.pred, c1.index)
    ensures var block := h0 + h1 + rest;
            Headed(block, 0, c0.pred, c0.index) && Headed(block, 4, c1.pred, c1.index) && block[8..] == rest
  {
  }

  lemma {:induction false} StereoIs(samples: seq<sample>, spb: nat, left: index, right: index, p0: sample, p1: sample, l: seq<sample>, r: seq<sample>)
    requires if |samples| >= 2 then p0 == samples[0] && p1 == samples[1] else p0 == 0 && p1 == 0
    requires |l| == |r| == if spb == 0 then 0 else (spb + 6) / 8 * 8
    requires forall i :: 0 <= i < |l| ==> l[i] == if 2 * i + 3 < |samples| then samples[2 * i + 2] else 0
    requires forall i :: 0 <= i < |r| ==> r[i] == if 2 * i + 3 < |samples| then samples[2 * i + 3] else 0
    ensures |l| % 8 == 0
    ensures var nl, nr := Nibbles(Channel(p0, left), l), Nibbles(Channel(p1, right), r);
            && |Pack(nl)| == |Pack(nr)| == |l| / 2 && |Pack(nl)| % 4 == 0
            && StereoBlock(samples, spb, left, right) == Header(Channel(p0, left)) + Header(Channel(p1, right)) + Weave(Pack(nl), Pack(nr))
  {
    hide *;
    GroupCount(spb, |l|);
    StereoPlane(samples, 0, |l|, l);
    StereoPlane(samples, 1, |r|, r);
    StereoUnfolds(samples, spb, left, right);
  }

  lemma {:induction false} GroupCount(spb: nat, n: nat)
    requires n == if spb == 0 then 0 else (spb + 6) / 8 * 8
    ensures n == 8 * Chunks(spb) && n % 8 == 0 && (n + 1) / 2 == n / 2 && n / 2 % 4 == 0
  {
    assert n == 8 * Chunks(spb);
    EightHalves(Chunks(spb));
  }

  lemma {:induction false} EightHalves(c: nat)
    ensures 8 * c % 8 == 0 && (8 * c + 1) / 2 == 4 * c == 8 * c / 2 && 4 * c % 4 == 0
  {
  }

  lemma {:induction false} StereoUnfolds(samples: seq<sample>, spb: nat, left: index, right: index)
    ensures var p0, p1 := if |samples| >= 2 then samples[0] else 0, if |samples| >= 2 then samples[1] else 0;
            var c0, c1, n := Channel(p0, left), Channel(p1, right), 8 * Chunks(spb);
            var nl, nr := Nibbles(c0, Plane(samples, 2, 0, n)), Nibbles(c1, Plane(samples, 2, 1, n));
            && |Pack(nl)| == |Pack(nr)| && |Pack(nl)| % 4 == 0
            && StereoBlock(samples, spb, left, right) == Header(c0) + Header(c1) + Weave(Pack(nl), Pack(nr))
  {
    hide Header, Pack, Nibbles, Plane, Weave;
  }

  // ---------- the decoder on any IMA block ----------

  lemma {:induction false} HeaderReads(h: seq<byte>, p: sample)
    requires |h| >= 4 && WordIs(h, 0, p % 0x1_0000)
    ensures ReadHeader(h) == Channel(p, if h[2] <= 88 then h[2] else 88)
  {
  }

  /** Any mono block: its first word, and then what its nibbles stand for, low half first,
      as many as are asked for and there; an index above 88 is taken as 88, and a block
      without a header gives nothing. */
  lemma {:induction false} MonoDecodes(blk: seq<byte>, spb: nat, p: sample, nibs: seq<nibble>)
    requires spb > 0
    ensures |blk| < 4 ==> MonoDecoded(blk, spb) == []
    ensures |blk| >= 4 && WordIs(blk, 0, p % 0x1_0000) && FirstNibbles(blk[4..], spb - 1, nibs) ==>
              MonoDecoded(blk, spb) == [p] + Ima.Decoded(Channel(p, if blk[2] <= 88 then blk[2] else 88), nibs)
  {
    hide *;
    MonoDecodedIs(blk, spb);
    if |blk| >= 4 && WordIs(blk, 0, p % 0x1_0000) && FirstNibbles(blk[4..], spb - 1, nibs) {
      HeaderReads(blk, p);
      FirstUnpacked(blk[4..], spb - 1, nibs);
    }
  }

  /** The nibbles of some bytes, at most so many. */
  ghost predicate FirstNibbles(bytes: seq<byte>, limit: nat, nibs: seq<nibble>) {
    && |nibs| == (if 2 * |bytes| < limit then 2 * |bytes| else limit)
    && forall k :: 0 <= k < |nibs| ==> nibs[k] == if k % 2 == 0 then bytes[k / 2] % 16 else bytes[k / 2] / 16
  }

  lemma {:induction false} FirstUnpacked(bytes: seq<byte>, limit: nat, nibs: seq<nibble>)
    requires FirstNibbles(bytes, limit, nibs)
    ensures |nibs| <= |Unpack(bytes)| && |nibs| == (if 2 * |bytes| < limit then 2 * |bytes| else limit) && Unpack(bytes)[..|nibs|] == nibs
  {
    hide Unpack;
    forall k | 0 <= k < |nibs| ensures nibs[k] == Unpack(bytes)[k] {
      UnpackedAt(bytes, k);
    }
  }

  lemma {:induction false} MonoDecodedIs(blk: seq<byte>, spb: nat)
    requires spb > 0
    ensures |blk| < 4 ==> MonoDecoded(blk, spb) == []
    ensures |blk| >= 4 ==>
              var c, n := ReadHeader(blk), if 2 * |blk[4..]| < spb - 1 then 2 * |blk[4..]| else spb - 1;
              MonoDecoded(blk, spb) == [c.pred] + Ima.Decoded(c, Unpack(blk[4..])[..n])
  {
    hide ReadHeader, Unpack, Ima.Decoded;
  }

  lemma {:induction false} UnpackedAt(bytes: seq<byte>, k: nat)
    requires k < 2 * |bytes|
    ensures Unpack(bytes)[k] == if k % 2 == 0 then bytes[k / 2] % 16 else bytes[k / 2] / 16
  {
    hide *;
    UnpackAt(bytes, k / 2);
    assert k == 2 * (k / 2) || k == 2 * (k / 2) + 1;
  }

  /** Nibble k of one side of woven data. */
  ghost predicate NibbleIs(data: seq<byte>, side: nat, k: nat, nib: nibble) { NibbleOf(data, side, k / 8, k % 8, nib) }

  ghost predicate NibbleOf(data: seq<byte>, side: nat, group: nat, k: nat, nib: nibble) {
    var i := 8 * group + 4 * side + k / 2;
    i < |data| && nib == if k % 2 == 0 then data[i] % 16 else data[i] / 16
  }

  ghost predicate NibblesAre(data: seq<byte>, side: nat, nibs: seq<nibble>) {
    forall k :: 0 <= k < |nibs| ==> NibbleIs(data, side, k, nibs[k])
  }

  /** Any stereo block that holds the samples asked for: the first words of both headers,
      and then the two channels' outputs interleaved, four bytes of each side in turn. */
  lemma {:induction false} StereoDecodes(blk: seq<byte>, spb: nat, p0: sample, p1: sample, l: seq<nibble>, r: seq<nibble>)
    requires |blk| >= 8 && spb > 0 && spb - 1 <= Available(|blk| - 8)
    requires WordIs(blk, 0, p0 % 0x1_0000) && WordIs(blk, 4, p1 % 0x1_0000)
    requires |l| == |r| == spb - 1 && NibblesAre(blk[8..], 0, l) && NibblesAre(blk[8..], 1, r)
    ensures var c0, c1 := Channel(p0, if blk[2] <= 88 then blk[2] else 88), Channel(p1, if blk[6] <= 88 then blk[6] else 88);
            StereoDecoded(blk, spb) == Some([p0, p1] + Interleave(Ima.Decoded(c0, l), Ima.Decoded(c1, r)))
  {
    hide *;
    HeaderReads(blk, p0);
    WordBehind(blk, p1 % 0x1_0000);
    HeaderReads(blk[4..], p1);
    StereoDecodedIs(blk, spb);
    RestDecodes(ReadHeader(blk), ReadHeader(blk[4..]), blk[8..], l, r);
  }

  lemma {:induction false} WordBehind(blk: seq<byte>, v: nat)
    requires |blk| >= 8 && WordIs(blk, 4, v)
    ensures WordIs(blk[4..], 0, v)
  {
  }

  lemma {:induction false} InterleaveAt(l: seq<sample>, r: seq<sample>, k: nat)
    requires |l| == |r| && k < |l|
    ensures Interleave(l, r)[2 * k] == l[k] && Interleave(l, r)[2 * k + 1] == r[k]
    decreases l
  {
    hide *;
    InterleaveIs(l, r);
    if k > 0 {
      InterleaveAt(l[1..], r[1..], k - 1);
    }
  }

  lemma {:induction false} InterleaveIs(l: seq<sample>, r: seq<sample>)
    requires |l| == |r|
    ensures l == [] ==> Interleave(l, r) == []
    ensures l != [] ==> Interleave(l, r) == [l[0], r[0]] + Interleave(l[1..], r[1..])
  {
  }

  lemma {:induction false} RestDecodes(c0: Channel, c1: Channel, data: seq<byte>, l: seq<nibble>, r: seq<nibble>)
    requires |l| == |r| <= Available(|data|) && NibblesAre(data, 0, l) && NibblesAre(data, 1, r)
    ensures StereoRest(c0, c1, data, |l|) == Some(Interleave(Ima.Decoded(c0, l), Ima.Decoded(c1, r)))
    decreases |l|
  {
    hide *;
    var want := |l|;
    if want == 0 {
      RestNothing(c0, c1, data, l, r);
    } else {
      var n, ul, ur := PassCount(data, want), Unpack(QuadL(data)), Unpack(QuadR(data));
      PassTakes(data, want);
      FrontNibbles(data, l, r, n);
      RestStep(c0, c1, data, want);
      DecodedFront(c0, ul, n);
      DecodedFront(c1, ur, n);
      DecodedSplit(c0, l, n);
      DecodedSplit(c1, r, n);
      var m0, m1 := Ima.Decoded(c0, l[..n]), Ima.Decoded(c1, r[..n]);
      var a0, a1 := Ima.After(c0, ul), Ima.After(c1, ur);
      if n < want {
        assert ul == l[..n] && ur == r[..n];
        BackNibbles(data, 0, l);
        BackNibbles(data, 1, r);
        RestDecodes(a0, a1, data[8..], l[8..], r[8..]);
        InterleaveConcat(m0, m1, Ima.Decoded(a0, l[8..]), Ima.Decoded(a1, r[8..]));
      } else {
        RestNothing(a0, a1, data[|QuadL(data)| + |QuadR(data)|..], [], []);
        assert l[..n] == l && r[..n] == r;
        assert Interleave(m0, m1) + [] == Interleave(m0, m1);
      }
    }
  }

  lemma {:induction false} RestNothing(c0: Channel, c1: Channel, data: seq<byte>, l: seq<nibble>, r: seq<nibble>)
    requires l == [] && r == []
    ensures StereoRest(c0, c1, data, 0) == Some([])
    ensures Interleave(Ima.Decoded(c0, l), Ima.Decoded(c1, r)) == []
  {
  }

  lemma {:induction false} RestStep(c0: Channel, c1: Channel, data: seq<byte>, want: nat)
    requires want > 0 && PassCount(data, want) > 0
    ensures var n, l, r := PassCount(data, want), Unpack(QuadL(data)), Unpack(QuadR(data));
            && n <= want && n <= |l| && n <= |r| && |QuadL(data)| + |QuadR(data)| <= |data|
            && var rest := StereoRest(Ima.After(c0, l), Ima.After(c1, r), data[|QuadL(data)| + |QuadR(data)|..], want - n);
               StereoRest(c0, c1, data, want) ==
                 if rest.None? then None else Some(Interleave(Ima.Decoded(c0, l)[..n], Ima.Decoded(c1, r)[..n]) + rest.value)
  {
    hide Ima.Decoded, Ima.After, Unpack, Interleave;
  }

  /** One pass takes a whole group, or ends. */
  lemma {:induction false} PassTakes(data: seq<byte>, want: nat)
    requires 0 < want <= Available(|data|)
    ensures var n, l, r := PassCount(data, want), |QuadL(data)|, |QuadR(data)|;
            && 0 < n <= want && n <= 2 * l && n <= 2 * r && l <= 4 && r <= 4 && l + r <= |data| && (n > 0 ==> l == 4)
            && (n < want ==> n == 8 && l == 4 && r == 4 && want - 8 <= Available(|data[8..]|))
    ensures QuadL(data) == data[..|QuadL(data)|] && |data| >= 4 && QuadR(data) == data[4..4 + |QuadR(data)|]
  {
    AvailableRest(|data|);
    hide Available;
  }

  lemma {:induction false} FrontNibbles(data: seq<byte>, l: seq<nibble>, r: seq<nibble>, n: nat)
    requires NibblesAre(data, 0, l) && NibblesAre(data, 1, r) && n <= 8 && n <= |l| && n <= |r|
    requires |QuadL(data)| == 4 && n <= 2 * |QuadR(data)|
    requires QuadL(data) == data[..4] && |data| >= 4 + |QuadR(data)| && QuadR(data) == data[4..4 + |QuadR(data)|]
    ensures n <= |Unpack(QuadL(data))| && n <= |Unpack(QuadR(data))|
    ensures Unpack(QuadL(data))[..n] == l[..n] && Unpack(QuadR(data))[..n] == r[..n]
    ensures n == 8 ==> Unpack(QuadL(data)) == l[..n]
    ensures n == 8 && |QuadR(data)| == 4 ==> Unpack(QuadR(data)) == r[..n]
  {
    hide *;
    forall k | 0 <= k < n ensures Unpack(QuadL(data))[k] == l[k] && Unpack(QuadR(data))[k] == r[k] {
      UnpackedAt(QuadL(data), k);
      UnpackedAt(QuadR(data), k);
      EarlyNibble(data, 0, l, k);
      EarlyNibble(data, 1, r, k);
    }
  }

  lemma {:induction false} EarlyNibble(data: seq<byte>, side: nat, nibs: seq<nibble>, k: nat)
    requires NibblesAre(data, side, nibs) && k < 8 && k < |nibs|
    ensures 4 * side + k / 2 < |data| && nibs[k] == if k % 2 == 0 then data[4 * side + k / 2] % 16 else data[4 * side + k / 2] / 16
  {
    assert NibbleIs(data, side, k, nibs[k]);
    assert k / 8 == 0 && k % 8 == k;
  }

  lemma {:induction false} BackNibbles(data: seq<byte>, side: nat, nibs: seq<nibble>)
    requires NibblesAre(data, side, nibs) && |nibs| >= 8 && |data| >= 8
    ensures NibblesAre(data[8..], side, nibs[8..])
  {
    hide NibbleIs;
    forall k | 0 <= k < |nibs[8..]| ensures NibbleIs(data[8..], side, k, nibs[8..][k]) {
      assert NibbleIs(data, side, k + 8, nibs[k + 8]);
      NextGroup(data, side, k, nibs[k + 8]);
    }
  }

  lemma {:induction false} NextGroup(data: seq<byte>, side: nat, k: nat, nib: nibble)
    requires NibbleIs(data, side, k + 8, nib) && |data| >= 8
    ensures NibbleIs(data[8..], side, k, nib)
  {
    assert (k + 8) / 8 == k / 8 + 1 && (k + 8) % 8 == k % 8;
    Behind(data, side, k / 8, k % 8, nib);
  }

  lemma {:induction false} Behind(data: seq<byte>, side: nat, group: nat, k: nat, nib: nibble)
    requires NibbleOf(data, side, group + 1, k, nib) && |data| >= 8
    ensures NibbleOf(data[8..], side, group, k, nib)
  {
    assert data[8..][8 * group + 4 * side + k / 2] == data[8 * (group + 1) + 4 * side + k / 2];
  }

  lemma {:induction false} DecodedFront(c: Channel, nibs: seq<nibble>, n: nat)
    requires n <= |nibs|
    ensures Ima.Decoded(c, nibs)[..n] == Ima.Decoded(c, nibs[..n])
  {
    hide *;
    assert nibs == nibs[..n] + nibs[n..];
    DecodedConcat(c, nibs[..n], nibs[n..]);
  }

  lemma {:induction false} DecodedSplit(c: Channel, nibs: seq<nibble>, n: nat)
    requires n <= |nibs|
    ensures Ima.Decoded(c, nibs) == Ima.Decoded(c, nibs[..n]) + Ima.Decoded(Ima.After(c, nibs[..n]), nibs[n..])
  {
    hide *;
    assert nibs == nibs[..n] + nibs[n..];
    DecodedConcat(c, nibs[..n], nibs[n..]);
  }
}
