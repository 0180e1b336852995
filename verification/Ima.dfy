/** IMA ADPCM: the audio-input encoder against the audio-output decoder. */
module Ima {
  import opened Bits
  import opened Pcm

  type step = n: int | 7 <= n <= 31266 witness 7

  const LOW_STEPS: seq<step> := [
    7, 8, 9, 10, 11, 12, 13, 14,
    16, 17, 19, 21, 23, 25, 28, 31,
    34, 37, 41, 45, 50, 55, 60, 66,
    73, 80, 88, 97, 106, 117, 128, 141]

  const MIDDLE_STEPS: seq<step> := [
    155, 170, 187, 206, 226, 249, 274, 301,
    331, 364, 400, 440, 484, 532, 585, 643,
    707, 777, 854, 938, 1031, 1132, 1245, 1368,
    1503, 1652, 1816, 1996, 2195, 2414, 2655, 2919]

  const HIGH_STEPS: seq<step> := [
    3210, 3530, 3882, 4266, 4691, 5158, 5674, 6244,
    6867, 7551, 8301, 9126, 10033, 11030, 12124, 13327,
    14654, 16109, 17710, 19467, 21399, 23525, 25867, 28437,
    31266]

  const STEPS: seq<step> := LOW_STEPS + MIDDLE_STEPS + HIGH_STEPS

  const ADJUST: seq<int> := [-1, -1, -1, -1, 2, 4, 6, 8, -1, -1, -1, -1, 2, 4, 6, 8]

  type index = n: nat | n <= 88

  /** The predictor and step index of one audio channel. */
  datatype Channel = Channel(pred: sample, index: index)

  function ClampIndex(n: int): index { if n < 0 then 0 else if n > 88 then 88 else n }

  function Step(i: index): step {
    assert |STEPS| == 89;
    STEPS[i]
  }

  // ---------- one nibble ----------

  /** What the three magnitude bits of a nibble stand for. */
  function Magnitude(step: nat, m: nat): nat {
    (if m / 4 % 2 == 1 then step else 0) + (if m / 2 % 2 == 1 then step / 2 else 0) + (if m % 2 == 1 then step / 4 else 0)
  }

  /** The decoder's update, which the encoder repeats. */
  function Decode(c: Channel, nib: nibble): Channel {
    var step := Step(c.index);
    var d := step / 8 + Magnitude(step, nib);
    Channel(Clamp16(if nib >= 8 then c.pred - d else c.pred + d), ClampIndex(c.index + ADJUST[nib]))
  }

  /** The nibble for a sample: the sign, and the largest magnitude not above the
      distance to the predictor. */
  ghost predicate IsBest(c: Channel, s: sample, nib: nibble) {
    var step, diff := Step(c.index), Distance(s, c.pred);
    && (nib >= 8 <==> s < c.pred)
    && Magnitude(step, nib % 8) <= diff
    && (nib % 8 < 7 ==> diff < Magnitude(step, nib % 8 + 1))
  }

  /** There is one such nibble. */
  lemma {:induction false} BestIsUnique(c: Channel, s: sample, n: nibble, n': nibble)
    requires IsBest(c, s, n) && IsBest(c, s, n')
    ensures n == n'
  {
    hide Magnitude, Step;
    if n % 8 < n' % 8 {
      MagnitudeGrows(Step(c.index), n % 8 + 1, n' % 8);
    } else if n' % 8 < n % 8 {
      MagnitudeGrows(Step(c.index), n' % 8 + 1, n % 8);
    }
  }

  lemma {:induction false} MagnitudeGrows(step: nat, m: nat, m': nat)
    requires m <= m' < 8
    ensures Magnitude(step, m) <= Magnitude(step, m')
    decreases m' - m
  {
    if m < m' {
      MagnitudeGrows(step, m, m' - 1);
      MagnitudeGrowsByOne(step, m' - 1);
    }
  }

  lemma {:induction false} MagnitudeGrowsByOne(step: nat, m: nat)
    requires m < 7
    ensures Magnitude(step, m) <= Magnitude(step, m + 1)
  {
    assert m == 0 || m == 1 || m == 2 || m == 3 || m == 4 || m == 5 || m == 6;
  }

  function Quantise(step: int, diff: nat): (m: nat)
    ensures m < 8
  {
    var b2 := if diff >= step then 1 else 0;
    var diff1 := diff - b2 * step;
    var b1 := if diff1 >= step / 2 then 1 else 0;
    var diff2 := diff1 - b1 * (step / 2);
    4 * b2 + 2 * b1 + (if diff2 >= step / 4 then 1 else 0)
  }

  function Encode(c: Channel, s: sample): (nib: nibble) {
    (if s < c.pred then 8 else 0) + Quantise(Step(c.index), Distance(s, c.pred))
  }

  lemma {:induction false} QuantiseIsBest(step: step, diff: nat)
    ensures var m := Quantise(step, diff);
            Magnitude(step, m) <= diff && (m < 7 ==> diff < Magnitude(step, m + 1))
  {
  }

  lemma {:induction false} EncodeIsBest(c: Channel, s: sample)
    ensures IsBest(c, s, Encode(c, s))
  {
    hide Quantise, Magnitude, Step;
    QuantiseIsBest(Step(c.index), Distance(s, c.pred));
  }

  lemma {:induction false} QuantiseError(step: step, diff: nat)
    requires diff < 2 * step
    ensures Distance(diff, step / 8 + Magnitude(step, Quantise(step, diff))) <= step / 8 + 2
  {
  }

  /** The sign bit does not count. */
  lemma {:induction false} MagnitudeOf(step: nat, m: nat)
    requires m < 8
    ensures Magnitude(step, 8 + m) == Magnitude(step, m)
  {
    assert m == 0 || m == 1 || m == 2 || m == 3 || m == 4 || m == 5 || m == 6 || m == 7;
  }

  /** In range of the step, the decoder comes within an eighth of it. */
  lemma {:induction false} NibbleTracks(c: Channel, s: sample)
    requires Distance(s, c.pred) < 2 * Step(c.index)
    ensures Distance(s, Decode(c, Encode(c, s)).pred) <= Step(c.index) / 8 + 2
  {
    hide *;
    var step, diff := Step(c.index), Distance(s, c.pred);
    var m := step / 8 + Magnitude(step, Quantise(step, diff));
    QuantiseError(step, diff);
    DecodedPred(c, s);
    Nearer(s, c.pred, diff, m, Decode(c, Encode(c, s)).pred, step / 8 + 2);
  }

  lemma {:induction false} DecodedPred(c: Channel, s: sample)
    ensures var m := Step(c.index) / 8 + Magnitude(Step(c.index), Quantise(Step(c.index), Distance(s, c.pred)));
            Decode(c, Encode(c, s)).pred == Clamp16(if s < c.pred then c.pred - m else c.pred + m)
  {
    MagnitudeOf(Step(c.index), Quantise(Step(c.index), Distance(s, c.pred)));
    hide Quantise, Magnitude, Step;
  }

  lemma {:induction false} Nearer(s: sample, p: sample, diff: nat, m: nat, p': sample, bound: nat)
    requires diff == Distance(s, p) && Distance(diff, m) <= bound
    requires p' == Clamp16(if s < p then p - m else p + m)
    ensures Distance(s, p') <= bound
  {
  }

  /** The encoder's inlined nibble code. */
  method EncodeNibble(s: sample, pred: sample, si: index) returns (nib: nibble, pred': sample, si': index)
    ensures nib == Encode(Channel(pred, si), s) && Channel(pred', si') == Decode(Channel(pred, si), nib)
  {
    var step: int := Step(si);
    var diff: int := s - pred;
    nib := 0;
    if diff < 0 { nib := 8; diff := -diff; }
    if diff >= step { nib := nib + 4; diff := diff - step; }
    if diff >= step / 2 { nib := nib + 2; diff := diff - step / 2; }
    if diff >= step / 4 { nib := nib + 1; }
    pred', si' := DecodeNibble(nib, pred, si);
  }

  method DecodeNibble(nib: nibble, pred: sample, si: index) returns (pred': sample, si': index)
    ensures Channel(pred', si') == Decode(Channel(pred, si), nib)
  {
    hide Step;
    var step: int := Step(si);
    var d: int := step / 8;
    if nib / 4 % 2 == 1 { d := d + step; }
    if nib / 2 % 2 == 1 { d := d + step / 2; }
    if nib % 2 == 1 { d := d + step / 4; }
    var p: int := if nib >= 8 then pred - d else pred + d;
    pred' := if p > 32767 then 32767 else if p < -32768 then -32768 else p;
    var i: int := si + ADJUST[nib];
    si' := if i < 0 then 0 else if i > 88 then 88 else i;
  }

  // ---------- one channel's nibbles ----------

  function Nibbles(c: Channel, ss: seq<sample>): (nibs: seq<nibble>)
    ensures |nibs| == |ss|
    decreases ss
  {
    if ss == [] then []
    else
      var nib := Encode(c, ss[0]);
      [nib] + Nibbles(Decode(c, nib), ss[1..])
  }

  /** The decoder's channel after some nibbles. */
  function After(c: Channel, nibs: seq<nibble>): Channel
    decreases nibs
  {
    if nibs == [] then c else After(Decode(c, nibs[0]), nibs[1..])
  }

  /** The decoder's output. */
  function Decoded(c: Channel, nibs: seq<nibble>): (out: seq<sample>)
    ensures |out| == |nibs|
    decreases nibs
  {
    if nibs == [] then []
    else
      var c' := Decode(c, nibs[0]);
      [c'.pred] + Decoded(c', nibs[1..])
  }

  lemma {:induction false} NibblesSnoc(c: Channel, ss: seq<sample>, s: sample)
    ensures var nib := Encode(After(c, Nibbles(c, ss)), s);
            Nibbles(c, ss + [s]) == Nibbles(c, ss) + [nib]
    decreases ss
  {
    hide Encode, Decode;
    if ss == [] {
      assert ss + [s] == [s];
    } else {
      assert (ss + [s])[1..] == ss[1..] + [s];
      NibblesSnoc(Decode(c, Encode(c, ss[0])), ss[1..], s);
      assert Nibbles(c, ss)[1..] == Nibbles(Decode(c, Encode(c, ss[0])), ss[1..]);
    }
  }

  lemma {:induction false} AfterSnoc(c: Channel, nibs: seq<nibble>, nib: nibble)
    ensures After(c, nibs + [nib]) == Decode(After(c, nibs), nib)
    ensures Decoded(c, nibs + [nib]) == Decoded(c, nibs) + [After(c, nibs + [nib]).pred]
    decreases nibs
  {
    hide Decode;
    if nibs == [] {
      assert nibs + [nib] == [nib];
    } else {
      assert (nibs + [nib])[1..] == nibs[1..] + [nib];
      AfterSnoc(Decode(c, nibs[0]), nibs[1..], nib);
    }
  }

  /** What the decoder knows before sample i: its last output and its step. */
  ghost predicate Tracks(c: Channel, ss: seq<sample>, out: seq<sample>, i: nat)
    requires |out| == |ss| && i < |ss|
  {
    var last := if i == 0 then c.pred else out[i - 1];
    var step := Step(After(c, Nibbles(c, ss)[..i]).index);
    Distance(ss[i], last) < 2 * step ==> Distance(ss[i], out[i]) <= step / 8 + 2
  }

  /** Whenever a sample is within two steps of the decoder's last output, the decoder's
      next output is within an eighth of a step (and rounding) of the sample. */
  lemma {:induction false} DecoderTracks(c: Channel, ss: seq<sample>, i: nat)
    requires i < |ss|
    ensures Tracks(c, ss, Decoded(c, Nibbles(c, ss)), i)
    decreases ss
  {
    hide Encode, Decode, Step;
    var nibs := Nibbles(c, ss);
    var c' := Decode(c, nibs[0]);
    if i == 0 {
      if Distance(ss[0], c.pred) < 2 * Step(c.index) { NibbleTracks(c, ss[0]); }
    } else {
      DecoderTracks(c', ss[1..], i - 1);
      assert nibs[..i][1..] == Nibbles(c', ss[1..])[..i - 1];
    }
  }

  // ---------- nibbles in bytes ----------

  function Pack(nibs: seq<nibble>): (bytes: seq<byte>)
    ensures |bytes| == (|nibs| + 1) / 2
  {
    if nibs == [] then [] else if |nibs| == 1 then [nibs[0]]
    else [Byte(nibs[0], nibs[1])] + Pack(nibs[2..])
  }

  function Unpack(bytes: seq<byte>): (nibs: seq<nibble>)
    ensures |nibs| == 2 * |bytes|
  {
    if bytes == [] then [] else [bytes[0] % 16, bytes[0] / 16] + Unpack(bytes[1..])
  }

  lemma {:induction false} UnpackPack(nibs: seq<nibble>)
    ensures Unpack(Pack(nibs)) == if |nibs| % 2 == 0 then nibs else nibs + [0]
  {
    if |nibs| >= 2 {
      UnpackPack(nibs[2..]);
    }
  }

  lemma {:induction false} PackConcat(a: seq<nibble>, b: seq<nibble>)
    requires |a| % 2 == 0
    ensures Pack(a + b) == Pack(a) + Pack(b)
  {
    if a == [] {
      assert a + b == b;
    } else {
      assert (a + b)[2..] == a[2..] + b;
      PackConcat(a[2..], b);
    }
  }
}
