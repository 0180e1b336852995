/** MS-ADPCM: what the encoder picks for a block, the coefficient pair and the first
    step. */
module MsChoice {
  import opened Pcm
  import MsAdpcm

  type pair = MsAdpcm.pair
  type quotient = MsAdpcm.quotient
  type Voice = MsAdpcm.Voice

  // ---------- the coefficient pair ----------

  function Square(n: int): nat { Sq(Distance(n, 0)) }

  function Sq(n: nat): nat { n * n }

  /** The squared prediction errors of samples 2 to n-1. */
  function PairError(samples: seq<sample>, channels: nat, ch: nat, ci: pair, n: nat): nat
    requires ch < channels
  {
    if n <= 2 then 0
    else
      PairError(samples, channels, ch, ci, n - 1)
        + Square(SampleAt(samples, channels, ch, n - 1)
                 - MsAdpcm.Predict(ci, SampleAt(samples, channels, ch, n - 2), SampleAt(samples, channels, ch, n - 3)))
  }

  /** The samples that the choice looks at. */
  function Window(count: nat, limit: nat): nat { if count < limit then count else limit }

  /** The first of the first k pairs with the least error. */
  function BestPair(samples: seq<sample>, channels: nat, ch: nat, n: nat, k: nat): (ci: pair)
    requires ch < channels && 1 <= k <= 7
    ensures ci < k
  {
    if k == 1 then 0
    else
      var b := BestPair(samples, channels, ch, n, k - 1);
      if PairError(samples, channels, ch, k - 1, n) < PairError(samples, channels, ch, b, n) then k - 1 else b
  }

  function Choice(samples: seq<sample>, channels: nat, ch: nat): pair
    requires ch < channels
  {
    var count := |samples| / channels;
    if count < 3 then 0 else BestPair(samples, channels, ch, Window(count, 10), 7)
  }

  lemma {:induction false} BestPairIsBest(samples: seq<sample>, channels: nat, ch: nat, n: nat, k: nat, j: pair)
    requires ch < channels && j < k <= 7
    ensures var ci := BestPair(samples, channels, ch, n, k);
            && PairError(samples, channels, ch, ci, n) <= PairError(samples, channels, ch, j, n)
            && (j < ci ==> PairError(samples, channels, ch, ci, n) < PairError(samples, channels, ch, j, n))
    decreases k
  {
    hide PairError;
    if j < k - 1 {
      BestPairIsBest(samples, channels, ch, n, k - 1, j);
    }
  }

  lemma {:induction false} ErrorGrows(samples: seq<sample>, channels: nat, ch: nat, ci: pair, m: nat, n: nat)
    requires ch < channels && m <= n
    ensures PairError(samples, channels, ch, ci, m) <= PairError(samples, channels, ch, ci, n)
    decreases n - m
  {
    if m < n {
      ErrorGrows(samples, channels, ch, ci, m, n - 1);
    }
  }

  const FAR := 0x3FFF_FFFF_FFFF_FFFF

  /** Ten samples cannot reach the initial error. */
  lemma {:induction false} ErrorBound(samples: seq<sample>, channels: nat, ch: nat, ci: pair, n: nat)
    requires ch < channels
    ensures PairError(samples, channels, ch, ci, n) <= n * 17179869184
  {
    if n > 2 {
      ErrorBound(samples, channels, ch, ci, n - 1);
      var s := SampleAt(samples, channels, ch, n - 1);
      var p := MsAdpcm.Predict(ci, SampleAt(samples, channels, ch, n - 2), SampleAt(samples, channels, ch, n - 3));
      MsAdpcm.PredictBound(ci, SampleAt(samples, channels, ch, n - 2), SampleAt(samples, channels, ch, n - 3));
      SquareBound(s - p);
    }
  }

  lemma {:induction false} SquareBound(n: int)
    requires -131072 <= n <= 131072
    ensures Square(n) <= 17179869184
  {
    MsAdpcm.ProductGrows(Distance(n, 0), Distance(n, 0), 131072, 131072);
  }

  method ChooseCoefficient(samples: seq<sample>, ch: nat, channels: nat, count: nat) returns (bestIdx: pair)
    requires ch < channels && Counted(samples, channels, count)
    ensures bestIdx == Choice(samples, channels, ch)
  {
    hide PairError;
    if count < 3 {
      return 0;
    }
    bestIdx := 0;
    var bestErr: int := FAR;
    ghost var n := Window(count, 10);
    for ci := 0 to 7
      invariant ci == 0 ==> bestIdx == 0 && bestErr == FAR
      invariant ci > 0 ==> bestIdx == BestPair(samples, channels, ch, n, ci) && bestErr == PairError(samples, channels, ch, bestIdx, n)
    {
      ErrorBound(samples, channels, ch, ci, n);
      var totalErr := TotalError(samples, ch, channels, count, ci, bestErr);
      if totalErr < bestErr {
        bestErr := totalErr;
        bestIdx := ci;
      }
    }
  }

  lemma {:induction false} ErrorStep(samples: seq<sample>, channels: nat, ch: nat, ci: pair, i: nat)
    requires ch < channels && i >= 2
    ensures PairError(samples, channels, ch, ci, 2) == 0
    ensures PairError(samples, channels, ch, ci, i + 1) == PairError(samples, channels, ch, ci, i)
              + Sq(Distance(SampleAt(samples, channels, ch, i)
                            - MsAdpcm.Predict(ci, SampleAt(samples, channels, ch, i - 1), SampleAt(samples, channels, ch, i - 2)), 0))
  {
    hide SampleAt, Sq, Distance;
  }

  lemma {:induction false} WindowIs(count: nat, limit: nat)
    ensures Window(count, limit) == if count < limit then count else limit
  {
  }

  /** The error of one pair, given up once it is no better than the best. */
  method TotalError(samples: seq<sample>, ch: nat, channels: nat, count: nat, ci: pair, bestErr: int) returns (totalErr: nat)
    requires ch < channels && Counted(samples, channels, count) && count >= 3
    ensures var e := PairError(samples, channels, ch, ci, Window(count, 10));
            if e < bestErr then totalErr == e else totalErr >= bestErr
  {
    hide *;
    totalErr := 0;
    var i := 2;
    ghost var n := Window(count, 10);
    WindowIs(count, 10);
    ErrorStep(samples, channels, ch, ci, 2);
    while i < count && i < 10
      invariant 2 <= i <= n && totalErr == PairError(samples, channels, ch, ci, i)
    {
      var s, s1, s2;
      s := Strided(samples, ch, channels, count, i);
      s1 := Strided(samples, ch, channels, count, i - 1);
      s2 := Strided(samples, ch, channels, count, i - 2);
      totalErr := totalErr + Sq(Distance(s - MsAdpcm.Predict(ci, s1, s2), 0));
      ErrorStep(samples, channels, ch, ci, i);
      i := i + 1;
      if totalErr >= bestErr {
        ErrorGrows(samples, channels, ch, ci, i, n);
        return;
      }
    }
  }

  // ---------- the first step ----------

  /** The largest jump between neighbours among the first n samples. */
  function MaxJump(samples: seq<sample>, channels: nat, ch: nat, n: nat): (d: nat)
    requires ch < channels
    ensures d <= 65535
    ensures forall i :: 1 <= i < n ==> Jump(samples, channels, ch, i) <= d
  {
    if n <= 1 then 0
    else
      var m, d := MaxJump(samples, channels, ch, n - 1), Jump(samples, channels, ch, n - 1);
      if d > m then d else m
  }

  function Jump(samples: seq<sample>, channels: nat, ch: nat, i: int): (d: nat)
    requires ch < channels && i >= 1
    ensures d <= 65535
  {
    Distance(SampleAt(samples, channels, ch, i), SampleAt(samples, channels, ch, i - 1))
  }

  /** It fits the signed 16-bit header field. */
  function InitialDelta(samples: seq<sample>, channels: nat, ch: nat): (delta: nat)
    requires ch < channels
    ensures 16 <= delta <= 16383
  {
    var count := |samples| / channels;
    var d := MaxJump(samples, channels, ch, Window(count, 32)) / 4;
    if count < 2 || d < 16 then 16 else d
  }

  method ComputeInitialDelta(samples: seq<sample>, ch: nat, channels: nat, count: nat) returns (delta: nat)
    requires ch < channels && Counted(samples, channels, count)
    ensures delta == InitialDelta(samples, channels, ch)
  {
    hide *;
    DeltaIs(samples, channels, ch, count);
    if count < 2 {
      return 16;
    }
    var maxDiff := 0;
    var i := 1;
    ghost var n := Window(count, 32);
    WindowIs(count, 32);
    OneSampleNoJump(samples, channels, ch);
    while i < count && i < 32
      invariant 1 <= i <= n && maxDiff == MaxJump(samples, channels, ch, i)
    {
      var s := Strided(samples, ch, channels, count, i);
      var s' := Strided(samples, ch, channels, count, i - 1);
      var d: int := (s as int) - s';
      if d < 0 {
        d := -d;
      }
      JumpStep(samples, channels, ch, i, d);
      if d > maxDiff {
        maxDiff := d;
      }
      i := i + 1;
    }
    delta := maxDiff / 4;
    if delta < 16 {
      delta := 16;
    }
  }

  lemma {:induction false} DeltaIs(samples: seq<sample>, channels: nat, ch: nat, count: nat)
    requires ch < channels && Counted(samples, channels, count)
    ensures InitialDelta(samples, channels, ch) ==
              if count < 2 then 16 else var d := MaxJump(samples, channels, ch, Window(count, 32)) / 4; if d < 16 then 16 else d
  {
    hide MaxJump;
  }

  lemma {:induction false} OneSampleNoJump(samples: seq<sample>, channels: nat, ch: nat)
    requires ch < channels
    ensures MaxJump(samples, channels, ch, 1) == 0
  {
  }

  lemma {:induction false} JumpStep(samples: seq<sample>, channels: nat, ch: nat, i: nat, d: nat)
    requires ch < channels && i >= 1
    requires var s, s' := SampleAt(samples, channels, ch, i), SampleAt(samples, channels, ch, i - 1);
             d == if s < s' then s' as int - s else s as int - s'
    ensures MaxJump(samples, channels, ch, i + 1) ==
              if d > MaxJump(samples, channels, ch, i) then d else MaxJump(samples, channels, ch, i)
  {
  }
}
