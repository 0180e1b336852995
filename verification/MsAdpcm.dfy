/** MS-ADPCM: one nibble, and the nibbles of a whole block. */
module MsAdpcm {
  import opened Bits
  import opened Pcm

  /** A nibble as a signed number. */
  type quotient = n: int | -8 <= n <= 7

  type pair = n: nat | n < 7

  /** Prediction coefficients, in 256ths. */
  function Coeff(ci: pair): (int, int) {
    match ci
    case 0 => (256, 0)
    case 1 => (512, -256)
    case 2 => (0, 0)
    case 3 => (192, 64)
    case 4 => (240, 0)
    case 5 => (460, -208)
    case _ => (392, -232)
  }

  function Adaptation(q: quotient): nat {
    match q
    case 4 => 307 case 5 => 409 case 6 => 512 case 7 => 614
    case -8 => 768 case -7 => 614 case -6 => 512 case -5 => 409 case -4 => 307
    case _ => 230
  }

  /** One channel: the quantiser step and the two last samples. */
  datatype Voice = Voice(delta: int, samp1: sample, samp2: sample)

  /** The shift right by eight rounds down, also below zero. */
  function Predict(ci: pair, s1: sample, s2: sample): int {
    (s1 * Coeff(ci).0 + s2 * Coeff(ci).1) / 256
  }

  /** Division rounding toward zero. */
  function Quotient(a: int, b: int): int
    requires b != 0
  {
    if a >= 0 then a / b else -((-a) / b)
  }

  function ClampQuotient(q: int): quotient { if q > 7 then 7 else if q < -8 then -8 else q }

  function Encode(ci: pair, c: Voice, s: sample): quotient {
    if c.delta == 0 then 0 else ClampQuotient(Quotient(s - Predict(ci, c.samp1, c.samp2), c.delta))
  }

  function Adapt(delta: int, q: quotient): int {
    var d := delta * Adaptation(q) / 256;
    if d < 16 then 16 else d
  }

  /** The decoder's update, which the encoder repeats. */
  function Decode(ci: pair, c: Voice, q: quotient): Voice {
    Voice(Adapt(c.delta, q), Clamp16(Predict(ci, c.samp1, c.samp2) + q * c.delta), c.samp1)
  }

  // ---------- bounds ----------

  const DELTA_MAX := 49152

  ghost predicate DeltaOk(c: Voice) { 16 <= c.delta <= DELTA_MAX }

  lemma {:induction false} PredictBound(ci: pair, s1: sample, s2: sample)
    ensures -98303 <= Predict(ci, s1, s2) <= 98302
  {
  }

  /** The quantised error is no larger than the error, and unless the nibble was clamped
      what is left of it is less than one step. */
  lemma {:induction false} QuotientError(a: int, b: nat)
    requires b > 0
    ensures Near(a, b, ClampQuotient(Quotient(a, b)))
  {
    hide Near, Quotient;
    if a >= 0 {
      QuotientAbove(a, b);
    } else {
      QuotientBelow(-a, b);
    }
  }

  ghost predicate Near(a: int, b: nat, q: int) {
    Distance(q * b, 0) <= Distance(a, 0) && (-9 * b < a < 8 * b ==> Distance(a, q * b) < b)
  }

  lemma {:induction false} QuotientAbove(a: nat, b: nat)
    requires b > 0
    ensures Near(a, b, ClampQuotient(Quotient(a, b)))
  {
    Divide(a, b);
    QuotientSize(a / b, b, 7, a);
  }

  lemma {:induction false} QuotientBelow(m: nat, b: nat)
    requires b > 0
    ensures Near(0 - m, b, ClampQuotient(Quotient(0 - m, b)))
  {
    hide *;
    var n := m / b;
    Divide(m, b);
    QuotientOfNegative(m, b);
    QuotientSize(n, b, 8, m);
    NearBelow(m, b, n);
  }

  lemma {:induction false} Divide(m: nat, b: nat)
    requires b > 0
    ensures (m / b) * b <= m < (m / b) * b + b
  {
    assert m == (m / b) * b + m % b;
  }

  lemma {:induction false} QuotientOfNegative(m: nat, b: nat)
    requires b > 0
    ensures Quotient(0 - m, b) == 0 - m / b
  {
    if m == 0 {
      DivisionUnique(0, b, 0, 0);
    } else {
      assert -(0 - m) == m;
    }
  }

  lemma {:induction false} NearBelow(m: nat, b: nat, n: nat)
    requires n * b <= m < n * b + b
    requires 0 <= (if n > 8 then 8 else n) * b <= m && (m < 8 * b + b ==> n <= 8)
    ensures Near(0 - m, b, ClampQuotient(0 - n))
  {
    var k: nat := if n > 8 then 8 else n;
    assert ClampQuotient(0 - n) == 0 - k;
    assert (0 - k) * b == 0 - k * b;
  }

  lemma {:induction false} QuotientSize(n: nat, b: nat, top: nat, m: nat)
    requires n * b <= m < n * b + b
    ensures 0 <= (if n > top then top else n) * b <= m
    ensures m < top * b + b ==> n <= top
  {
    if n > top {
      MulLess(top, n, b);
      MulAtLeast(n - top, b);
      assert n * b == top * b + (n - top) * b;
    } else {
      MulAtLeast(n, b);
    }
  }

  /** A nibble that was not clamped brings the decoder within one step of the sample. */
  lemma {:induction false} NibbleTracks(ci: pair, c: Voice, s: sample)
    requires c.delta > 0 && -9 * c.delta < s - Predict(ci, c.samp1, c.samp2) < 8 * c.delta
    ensures Distance(s, Decode(ci, c, Encode(ci, c, s)).samp1) < c.delta
  {
    hide Predict, Quotient;
    QuotientError(s - Predict(ci, c.samp1, c.samp2), c.delta);
  }

  /** The step never leaves [16, 49152]. */
  lemma {:induction false} DeltaStays(ci: pair, c: Voice, s: sample)
    requires DeltaOk(c)
    ensures DeltaOk(Decode(ci, c, Encode(ci, c, s)))
  {
    hide Predict, Quotient;
    var err := s - Predict(ci, c.samp1, c.samp2);
    PredictBound(ci, c.samp1, c.samp2);
    QuotientError(err, c.delta);
    AdaptBound(c.delta, Encode(ci, c, s));
  }

  lemma {:induction false} AdaptBound(delta: nat, q: quotient)
    requires 16 <= delta <= DELTA_MAX && -131070 <= q * delta <= 131070
    ensures 16 <= Adapt(delta, q) <= DELTA_MAX
  {
  }

  ghost predicate Int32(n: int) { -0x8000_0000 <= n < 0x8000_0000 }

  /** No product or sum of the update leaves the 32-bit range. */
  lemma {:induction false} NoOverflow(ci: pair, c: Voice, q: quotient)
    requires DeltaOk(c)
    ensures Int32(c.samp1 * Coeff(ci).0) && Int32(c.samp2 * Coeff(ci).1)
    ensures Int32(c.samp1 * Coeff(ci).0 + c.samp2 * Coeff(ci).1)
    ensures Int32(q * c.delta) && Int32(Predict(ci, c.samp1, c.samp2) + q * c.delta) && Int32(c.delta * Adaptation(q))
  {
    PredictBound(ci, c.samp1, c.samp2);
    hide Predict, Coeff;
    assert Coeff(ci).0 >= 0 && Coeff(ci).0 <= 512 && Coeff(ci).1 >= -256 && Coeff(ci).1 <= 64 by { CoeffBound(ci); }
    ProductBound(c.samp1, Coeff(ci).0, 32768, 512);
    ProductBound(c.samp2, Coeff(ci).1, 32768, 256);
    ProductBound(q, c.delta, 8, DELTA_MAX);
    ProductBound(c.delta, Adaptation(q), DELTA_MAX, 768);
  }

  lemma {:induction false} CoeffBound(ci: pair)
    ensures 0 <= Coeff(ci).0 <= 512 && -256 <= Coeff(ci).1 <= 64
  {
  }

  lemma {:induction false} ProductBound(a: int, b: int, a0: nat, b0: nat)
    requires Distance(a, 0) <= a0 && Distance(b, 0) <= b0
    ensures 0 - a0 * b0 <= a * b <= a0 * b0
  {
    var x, y := Distance(a, 0), Distance(b, 0);
    ProductGrows(x, y, a0, b0);
    assert a * b == x * y || a * b + x * y == 0;
  }

  lemma {:induction false} ProductGrows(x: nat, y: nat, a0: nat, b0: nat)
    requires x <= a0 && y <= b0
    ensures 0 <= x * y <= a0 * b0
  {
    assert a0 * b0 == x * y + (a0 - x) * y + a0 * (b0 - y);
  }

  /** msEncodeNibble: the nibble, and the channel's new state. */
  method EncodeNibble(s: sample, delta: int, samp1: sample, samp2: sample, ci: pair)
    returns (nibble: quotient, delta': int, samp1': sample, samp2': sample)
    ensures nibble == Encode(ci, Voice(delta, samp1, samp2), s)
    ensures Voice(delta', samp1', samp2') == Decode(ci, Voice(delta, samp1, samp2), nibble)
  {
    var predicted := Predict(ci, samp1, samp2);
    var error := s - predicted;
    var q := 0;
    if delta != 0 {
      q := Quotient(error, delta);
    }
    nibble := if q > 7 then 7 else if q < -8 then -8 else q;
    delta', samp1', samp2' := DecodeNibble(nibble, delta, samp1, samp2, ci);
  }

  method DecodeNibble(nibble: quotient, delta: int, samp1: sample, samp2: sample, ci: pair)
    returns (delta': int, samp1': sample, samp2': sample)
    ensures Voice(delta', samp1', samp2') == Decode(ci, Voice(delta, samp1, samp2), nibble)
  {
    var predictor := Predict(ci, samp1, samp2) + nibble * delta;
    samp1' := if predictor > 32767 then 32767 else if predictor < -32768 then -32768 else predictor;
    samp2' := samp1;
    delta' := delta * Adaptation(nibble) / 256;
    if delta' < 16 {
      delta' := 16;
    }
  }
}
