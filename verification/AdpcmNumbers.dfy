/** ADPCM nibbles in plain numbers: how far a predictor, an index and a step move. */
module AdpcmNumbers {
  import opened Bits
  import opened Wire
  import opened Pcm
  import opened Ima
  import MsAdpcm
  import MsChoice

  // ---------- IMA ----------

  /** A small magnitude takes the index down by one, a large one takes it up by two, four,
      six or eight, within 0 and 88. */
  lemma {:induction false} IndexMoves(c: Channel, nib: nibble)
    ensures var m: int := nib % 8;
            var i := c.index + (if m < 4 then -1 else 2 * m - 6);
            Decode(c, nib).index == if i < 0 then 0 else if i > 88 then 88 else i
  {
    hide *;
    Adjusted(nib);
    DecodeIs(c, nib);
  }

  lemma {:induction false} Adjusted(nib: nibble)
    ensures |ADJUST| == 16
    ensures var m: int := nib % 8; ADJUST[nib] == if m < 4 then -1 else 2 * m - 6
  {
  }

  lemma {:induction false} DecodeIs(c: Channel, nib: nibble)
    ensures |ADJUST| == 16
    ensures var i := c.index + ADJUST[nib];
            Decode(c, nib).index == if i < 0 then 0 else if i > 88 then 88 else i
    ensures var d := Step(c.index) / 8 + Magnitude(Step(c.index), nib);
            var p := if nib >= 8 then c.pred - d else c.pred + d;
            Decode(c, nib).pred == if p > 32767 then 32767 else if p < -32768 then -32768 else p
  {
    Adjusted(nib);
    hide ADJUST, Step, Magnitude;
  }

  /** The predictor moves by odd eighths of the step, down when the high bit is set: bit by
      bit a whole, a half and a quarter, and always an eighth, each rounded down. */
  lemma {:induction false} PredictorMoves(c: Channel, nib: nibble, d: int)
    requires var s, m: int := Step(c.index), nib % 8;
             d == s / 8 + (if m >= 4 then s else 0) + (if m == 2 || m == 3 || m == 6 || m == 7 then s / 2 else 0) + (if m % 2 == 1 then s / 4 else 0)
    ensures var p := if nib >= 8 then c.pred - d else c.pred + d;
            Decode(c, nib).pred == if p > 32767 then 32767 else if p < -32768 then -32768 else p
    ensures var s, m: int := Step(c.index), nib % 8;
            (2 * m + 1) * s - 17 <= 8 * d <= (2 * m + 1) * s
  {
    hide *;
    MagnitudeBits(Step(c.index), nib);
    DecodeIs(c, nib);
    Eighths(Step(c.index), nib % 8, d);
  }

  lemma {:induction false} Eighths(s: nat, m: nat, d: int)
    requires m < 8
    requires d == s / 8 + (if m >= 4 then s else 0) + (if m == 2 || m == 3 || m == 6 || m == 7 then s / 2 else 0) + (if m % 2 == 1 then s / 4 else 0)
    ensures (2 * m + 1) * s - 17 <= 8 * d <= (2 * m + 1) * s
  {
    assert m == 0 || m == 1 || m == 2 || m == 3 || m == 4 || m == 5 || m == 6 || m == 7;
  }

  lemma {:induction false} MagnitudeBits(s: nat, nib: nibble)
    ensures var m := nib % 8;
            Magnitude(s, nib) == (if m >= 4 then s else 0) + (if m == 2 || m == 3 || m == 6 || m == 7 then s / 2 else 0) + (if m % 2 == 1 then s / 4 else 0)
  {
    var m: nat := nib % 8;
    assert m == 0 || m == 1 || m == 2 || m == 3 || m == 4 || m == 5 || m == 6 || m == 7;
  }

  /** The steps start at 7 and end at 31266, and every one is a tenth above the one
      before, give or take a little rounding. */
  lemma {:induction false} StepsGrow(i: nat)
    requires i < 88
    ensures Step(0) == 7 && Step(88) == 31266
    ensures Step(i) < Step(i + 1)
    ensures var s: int := Step(i); 11 * s - 7 - s / 70 <= 10 * Step(i + 1) <= 11 * s + 7 + s / 70
  {
    hide *;
    Tables(i);
    Tables(i + 1);
    Tables(0);
    Tables(88);
    LowGrow(i);
    MiddleGrow(i);
    HighGrow(i);
  }

  ghost predicate Tenth(s: int, s': int) { s < s' && 11 * s - 7 - s / 70 <= 10 * s' <= 11 * s + 7 + s / 70 }

  lemma {:induction false} Tables(i: index)
    ensures |LOW_STEPS| == 32 && |MIDDLE_STEPS| == 32 && |HIGH_STEPS| == 25
    ensures Step(i) == if i < 32 then LOW_STEPS[i] else if i < 64 then MIDDLE_STEPS[i - 32] else HIGH_STEPS[i - 64]
  {
    TableSizes();
    hide LOW_STEPS, MIDDLE_STEPS, HIGH_STEPS;
  }

  lemma {:induction false} TableSizes()
    ensures |LOW_STEPS| == 32 && |MIDDLE_STEPS| == 32 && |HIGH_STEPS| == 25
  {
  }

  lemma {:induction false} LowGrow(i: nat)
    ensures |LOW_STEPS| == 32 && |MIDDLE_STEPS| == 32
    ensures LOW_STEPS[0] == 7 && Tenth(LOW_STEPS[31], MIDDLE_STEPS[0])
    ensures i < 31 ==> Tenth(LOW_STEPS[i], LOW_STEPS[i + 1])
  {
  }

  lemma {:induction false} MiddleGrow(i: nat)
    ensures |MIDDLE_STEPS| == 32 && |HIGH_STEPS| == 25
    ensures Tenth(MIDDLE_STEPS[31], HIGH_STEPS[0])
    ensures 32 <= i < 63 ==> Tenth(MIDDLE_STEPS[i - 32], MIDDLE_STEPS[i - 31])
  {
  }

  lemma {:induction false} HighGrow(i: nat)
    ensures |HIGH_STEPS| == 25 && HIGH_STEPS[24] == 31266
    ensures 64 <= i < 88 ==> Tenth(HIGH_STEPS[i - 64], HIGH_STEPS[i - 63])
  {
  }

  /** Eight of them together. */
  function Eight(s: seq<step>, i: nat): int
    requires i + 8 <= |s|
  {
    (s[i] as int) + s[i + 1] + s[i + 2] + s[i + 3] + s[i + 4] + s[i + 5] + s[i + 6] + s[i + 7]
  }

  /** The sums of the steps, eight by eight, so that no single one is off. */
  lemma {:induction false} StepsTotal()
    ensures |LOW_STEPS| == 32 && |MIDDLE_STEPS| == 32 && |HIGH_STEPS| == 25 && STEPS == LOW_STEPS + MIDDLE_STEPS + HIGH_STEPS
    ensures Eight(LOW_STEPS, 0) == 84 && Eight(LOW_STEPS, 8) == 180 && Eight(LOW_STEPS, 16) == 388 && Eight(LOW_STEPS, 24) == 830
    ensures Eight(MIDDLE_STEPS, 0) == 1768 && Eight(MIDDLE_STEPS, 8) == 3779 && Eight(MIDDLE_STEPS, 16) == 8052 && Eight(MIDDLE_STEPS, 24) == 17150
    ensures Eight(HIGH_STEPS, 0) == 36655 && Eight(HIGH_STEPS, 8) == 78359 && Eight(HIGH_STEPS, 16) == 167168
  {
    hide *;
    StepsAre();
    LowTotal();
    MiddleTotal();
    HighTotal();
  }

  lemma {:induction false} StepsAre()
    ensures |LOW_STEPS| == 32 && |MIDDLE_STEPS| == 32 && |HIGH_STEPS| == 25 && STEPS == LOW_STEPS + MIDDLE_STEPS + HIGH_STEPS
  {
    TableSizes();
    hide LOW_STEPS, MIDDLE_STEPS, HIGH_STEPS;
  }

  lemma {:induction false} LowTotal()
    ensures |LOW_STEPS| == 32
    ensures Eight(LOW_STEPS, 0) == 84 && Eight(LOW_STEPS, 8) == 180 && Eight(LOW_STEPS, 16) == 388 && Eight(LOW_STEPS, 24) == 830
  {
    hide *;
    LowFront();
    LowBack();
  }

  lemma {:induction false} LowFront()
    ensures |LOW_STEPS| == 32 && Eight(LOW_STEPS, 0) == 84 && Eight(LOW_STEPS, 8) == 180
  {
  }

  lemma {:induction false} LowBack()
    ensures |LOW_STEPS| == 32 && Eight(LOW_STEPS, 16) == 388 && Eight(LOW_STEPS, 24) == 830
  {
  }

  lemma {:induction false} MiddleTotal()
    ensures |MIDDLE_STEPS| == 32
    ensures Eight(MIDDLE_STEPS, 0) == 1768 && Eight(MIDDLE_STEPS, 8) == 3779 && Eight(MIDDLE_STEPS, 16) == 8052 && Eight(MIDDLE_STEPS, 24) == 17150
  {
    hide *;
    MiddleFront();
    MiddleBack();
  }

  lemma {:induction false} MiddleFront()
    ensures |MIDDLE_STEPS| == 32 && Eight(MIDDLE_STEPS, 0) == 1768 && Eight(MIDDLE_STEPS, 8) == 3779
  {
  }

  lemma {:induction false} MiddleBack()
    ensures |MIDDLE_STEPS| == 32 && Eight(MIDDLE_STEPS, 16) == 8052 && Eight(MIDDLE_STEPS, 24) == 17150
  {
  }

  lemma {:induction false} HighTotal()
    ensures |HIGH_STEPS| == 25
    ensures Eight(HIGH_STEPS, 0) == 36655 && Eight(HIGH_STEPS, 8) == 78359 && Eight(HIGH_STEPS, 16) == 167168
  {
    hide *;
    HighFront();
    HighBack();
  }

  lemma {:induction false} HighFront()
    ensures |HIGH_STEPS| == 25 && Eight(HIGH_STEPS, 0) == 36655 && Eight(HIGH_STEPS, 8) == 78359
  {
  }

  lemma {:induction false} HighBack()
    ensures |HIGH_STEPS| == 25 && Eight(HIGH_STEPS, 16) == 167168
  {
  }

  // ---------- MS ----------

  /** What each pair predicts from the two last samples, rounding down: the last one, its
      straight continuation, nothing, and weighted sums. */
  lemma {:induction false} PairsPredict(s1: sample, s2: sample)
    ensures MsAdpcm.Predict(0, s1, s2) == s1
    ensures MsAdpcm.Predict(1, s1, s2) == 2 * s1 - s2
    ensures MsAdpcm.Predict(2, s1, s2) == 0
    ensures MsAdpcm.Predict(3, s1, s2) == (3 * s1 + s2) / 4
    ensures MsAdpcm.Predict(4, s1, s2) == 15 * s1 / 16
    ensures MsAdpcm.Predict(5, s1, s2) == (115 * s1 - 52 * s2) / 64
    ensures MsAdpcm.Predict(6, s1, s2) == (49 * s1 - 29 * s2) / 32
  {
  }

  /** A small nibble shrinks the step to nine tenths; from four on it grows it by 1.2, 1.6,
      2, 2.4 and 3, whatever the sign, but never below 16. */
  lemma {:induction false} StepAdapts(delta: int, q: MsAdpcm.quotient)
    ensures var a: int := if q < 0 then 0 - q else q;
            var tenths := if a < 4 then 9 else if a == 8 then 30 else 4 * a - 4;
            var d := delta * (256 * tenths / 10) / 256;
            MsAdpcm.Adapt(delta, q) == if d < 16 then 16 else d
  {
    assert q == -8 || q == -7 || q == -6 || q == -5 || q == -4 || q == 4 || q == 5 || q == 6 || q == 7 || -4 < q < 4;
  }

  /** The decoded sample is the prediction and so many steps; it becomes the last sample,
      and the last one the one before. */
  lemma {:induction false} VoiceMoves(ci: MsAdpcm.pair, c: MsAdpcm.Voice, q: MsAdpcm.quotient)
    ensures var v, p := MsAdpcm.Decode(ci, c, q), MsAdpcm.Predict(ci, c.samp1, c.samp2) + q * c.delta;
            && v.samp1 == (if p > 32767 then 32767 else if p < -32768 then -32768 else p)
            && v.samp2 == c.samp1 && v.delta == MsAdpcm.Adapt(c.delta, q)
  {
    hide MsAdpcm.Predict, MsAdpcm.Adapt;
  }

  /** The nibble counts the whole steps in the prediction error, cut to four bits; without a
      step it is zero. */
  lemma {:induction false} NibbleCounts(ci: MsAdpcm.pair, c: MsAdpcm.Voice, s: sample, n: int)
    requires c.delta > 0
    requires var err := s - MsAdpcm.Predict(ci, c.samp1, c.samp2);
             if err >= 0 then n * c.delta <= err < n * c.delta + c.delta else n * c.delta - c.delta < err <= n * c.delta <= 0
    ensures MsAdpcm.Encode(ci, c, s) == if n > 7 then 7 else if n < -8 then -8 else n
    ensures MsAdpcm.Encode(ci, MsAdpcm.Voice(0, c.samp1, c.samp2), s) == 0
  {
    hide MsAdpcm.Predict;
    var err := s - MsAdpcm.Predict(ci, c.samp1, c.samp2);
    if err >= 0 {
      DivisionUnique(err, c.delta, n, err - n * c.delta);
    } else {
      assert (-n) * c.delta == 0 - n * c.delta;
      DivisionUnique(-err, c.delta, -n, n * c.delta - err);
    }
  }

  // ---------- the encoder's choices for a block ----------

  /** A pair has no error exactly when it predicts every sample looked at. */
  lemma {:induction false} NoErrorIff(samples: seq<sample>, channels: nat, ch: nat, ci: MsAdpcm.pair, n: nat)
    requires ch < channels
    ensures MsChoice.PairError(samples, channels, ch, ci, n) == 0 <==>
              forall i {:trigger SampleAt(samples, channels, ch, i)} :: 2 <= i < n ==>
                SampleAt(samples, channels, ch, i) == MsAdpcm.Predict(ci, SampleAt(samples, channels, ch, i - 1), SampleAt(samples, channels, ch, i - 2))
  {
    hide *;
    if n > 2 {
      NoErrorIff(samples, channels, ch, ci, n - 1);
      MsChoice.ErrorStep(samples, channels, ch, ci, n - 1);
      var s := SampleAt(samples, channels, ch, n - 1);
      var p := MsAdpcm.Predict(ci, SampleAt(samples, channels, ch, n - 2), SampleAt(samples, channels, ch, n - 3));
      SquareZero(s - p);
    } else {
      NoError(samples, channels, ch, ci, n);
    }
  }

  lemma {:induction false} NoError(samples: seq<sample>, channels: nat, ch: nat, ci: MsAdpcm.pair, n: nat)
    requires ch < channels && n <= 2
    ensures MsChoice.PairError(samples, channels, ch, ci, n) == 0
  {
  }

  lemma {:induction false} SquareZero(n: int)
    ensures MsChoice.Sq(Distance(n, 0)) == n * n
    ensures n * n == 0 <==> n == 0
  {
  }

  /** The choice looks at ten samples of a channel that has three or more, and the first
      step at thirty-two. */
  lemma {:induction false} Chosen(samples: seq<sample>, channels: nat, ch: nat)
    requires ch < channels
    ensures var n := |samples| / channels;
            MsChoice.Choice(samples, channels, ch) ==
              if n < 3 then 0 else if n < 10 then MsChoice.BestPair(samples, channels, ch, n, 7) else MsChoice.BestPair(samples, channels, ch, 10, 7)
  {
    hide MsChoice.BestPair;
  }

  /** The first step is a quarter of the largest jump between neighbours, at least 16. */
  lemma {:induction false} FirstStep(samples: seq<sample>, channels: nat, ch: nat, n: nat, d: nat, i: nat)
    requires ch < channels && n == (if |samples| / channels < 32 then |samples| / channels else 32)
    requires forall k {:trigger SampleAt(samples, channels, ch, k)} :: 1 <= k < n ==>
               0 - d <= SampleAt(samples, channels, ch, k) - SampleAt(samples, channels, ch, k - 1) <= d
    requires if n < 2 then d == 0
             else 1 <= i < n && (d == SampleAt(samples, channels, ch, i) - SampleAt(samples, channels, ch, i - 1)
                              || d == SampleAt(samples, channels, ch, i - 1) - SampleAt(samples, channels, ch, i))
    ensures MsChoice.InitialDelta(samples, channels, ch) == if d / 4 < 16 then 16 else d / 4
  {
    LargestJump(samples, channels, ch, n, d, i);
    hide MsChoice.MaxJump;
  }

  lemma {:induction false} LargestJump(samples: seq<sample>, channels: nat, ch: nat, n: nat, d: nat, i: nat)
    requires ch < channels
    requires forall k {:trigger SampleAt(samples, channels, ch, k)} :: 1 <= k < n ==>
               0 - d <= SampleAt(samples, channels, ch, k) - SampleAt(samples, channels, ch, k - 1) <= d
    requires if n < 2 then d == 0
             else 1 <= i < n && (d == SampleAt(samples, channels, ch, i) - SampleAt(samples, channels, ch, i - 1)
                              || d == SampleAt(samples, channels, ch, i - 1) - SampleAt(samples, channels, ch, i))
    ensures MsChoice.MaxJump(samples, channels, ch, n) == d
  {
    JumpAtMost(samples, channels, ch, n, d);
    hide SampleAt;
    if n >= 2 {
      assert MsChoice.Jump(samples, channels, ch, i) == d;
    }
  }

  lemma {:induction false} JumpAtMost(samples: seq<sample>, channels: nat, ch: nat, n: nat, d: nat)
    requires ch < channels
    requires forall k {:trigger SampleAt(samples, channels, ch, k)} :: 1 <= k < n ==>
               0 - d <= SampleAt(samples, channels, ch, k) - SampleAt(samples, channels, ch, k - 1) <= d
    ensures MsChoice.MaxJump(samples, channels, ch, n) <= d
  {
    hide SampleAt;
    if n > 1 {
      JumpAtMost(samples, channels, ch, n - 1, d);
      assert MsChoice.Jump(samples, channels, ch, n - 1) <= d by {
        assert SampleAt(samples, channels, ch, n - 1) == SampleAt(samples, channels, ch, n - 1);
      }
    }
  }
}
