/** Binary numerals, and the machine words read as numerals.

    A word of n bits is the natural number below Pow2(n) with that bit pattern.
    A bit string is a seq<bool>, most significant bit first. */
module Bits {

  type byte = b: int | 0 <= b < 256

  function Pow2(n: nat): (p: nat)
    ensures p > 0
  {
    if n == 0 then 1 else 2 * Pow2(n - 1)
  }

  lemma {:induction false} Pow2Add(m: nat, n: nat)
    ensures Pow2(m + n) == Pow2(m) * Pow2(n)
  {
    if m > 0 {
      Pow2Add(m - 1, n);
      assert Pow2(m) * Pow2(n) == 2 * (Pow2(m - 1) * Pow2(n));
    }
  }

  lemma {:induction false} Pow2Monotone(a: nat, b: nat)
    requires a <= b
    ensures Pow2(a) <= Pow2(b)
    decreases b
  {
    if a < b {
      Pow2Monotone(a, b - 1);
    }
  }

  /** Rounded down. */
  function Log2(n: nat): (e: nat)
    requires n > 0
    ensures Pow2(e) <= n < Pow2(e + 1)
  {
    if n == 1 then 0 else 1 + Log2(n / 2)
  }

  /** The number a bit string denotes. */
  function Value(bits: seq<bool>): (v: nat)
    ensures v < Pow2(|bits|)
  {
    if bits == [] then 0
    else 2 * Value(bits[..|bits| - 1]) + (if bits[|bits| - 1] then 1 else 0)
  }

  /** The n low bits of v. */
  function Numeral(v: nat, n: nat): (bits: seq<bool>)
    ensures |bits| == n
  {
    if n == 0 then [] else Numeral(v / 2, n - 1) + [v % 2 == 1]
  }

  function Zeros(n: nat): (bits: seq<bool>)
    ensures |bits| == n && forall j :: 0 <= j < n ==> !bits[j]
  {
    seq(n, _ => false)
  }

  lemma {:induction false} ValueNumeral(v: nat, n: nat)
    requires v < Pow2(n)
    ensures Value(Numeral(v, n)) == v
  {
    if n > 0 {
      ValueNumeral(v / 2, n - 1);
      assert Numeral(v, n)[..n - 1] == Numeral(v / 2, n - 1);
    }
  }

  lemma {:induction false} NumeralValue(bits: seq<bool>)
    ensures Numeral(Value(bits), |bits|) == bits
  {
    if bits != [] {
      NumeralValue(bits[..|bits| - 1]);
    }
  }

  lemma {:induction false} MulDouble(x: nat, y: nat)
    ensures x * (2 * y) == 2 * (x * y)
  {
  }

  lemma {:induction false} ValueSnoc(init: seq<bool>, bit: bool)
    ensures Value(init + [bit]) == 2 * Value(init) + (if bit then 1 else 0)
  {
    assert (init + [bit])[..|init|] == init;
  }

  lemma {:induction false} ValueConcat(a: seq<bool>, b: seq<bool>)
    ensures Value(a + b) == Value(a) * Pow2(|b|) + Value(b)
  {
    if b == [] {
      assert a + b == a;
    } else {
      var init, last := b[..|b| - 1], b[|b| - 1];
      ValueConcat(a, init);
      ValueSnoc(init, last);
      ValueSnoc(a + init, last);
      assert b == init + [last] && a + b == (a + init) + [last];
      MulDouble(Value(a), Pow2(|init|));
    }
  }

  /** A leading zero does not change the number. */
  lemma {:induction false} LeadingZero(bits: seq<bool>)
    requires bits != [] && !bits[0]
    ensures Value(bits) == Value(bits[1..])
  {
    assert bits == [false] + bits[1..];
    ValueConcat([false], bits[1..]);
  }

  lemma {:induction false} ValueZeros(n: nat)
    ensures Value(Zeros(n)) == 0
  {
    if n > 0 {
      ValueZeros(n - 1);
      assert Zeros(n)[..n - 1] == Zeros(n - 1);
    }
  }

  /** Bitwise or. */
  function Or(x: nat, y: nat): nat {
    if x == 0 && y == 0 then 0
    else 2 * Or(x / 2, y / 2) + (if x % 2 == 1 || y % 2 == 1 then 1 else 0)
  }

  /** Words without a common bit: the or is the sum. */
  lemma {:induction false} OrDisjoint(x: nat, y: nat, n: nat)
    requires x % Pow2(n) == 0 && y < Pow2(n)
    ensures Or(x, y) == x + y && Or(y, x) == x + y
    decreases n, x + y
  {
    if n > 0 {
      HalveModulo(x, n);
      OrDisjoint(x / 2, y / 2, n - 1);
    } else if x > 0 {
      OrDisjoint(x / 2, y, 0);
    }
  }

  lemma {:induction false} HalveModulo(x: nat, n: nat)
    requires n > 0 && x % Pow2(n) == 0
    ensures x % 2 == 0 && (x / 2) % Pow2(n - 1) == 0
  {
    var q := x / Pow2(n);
    var h := q * Pow2(n - 1);
    assert x == q * Pow2(n) == 2 * h;
    MultipleModulo(q, Pow2(n - 1));
  }

  lemma {:induction false} MultipleModulo(q: nat, d: nat)
    requires d > 0
    ensures (q * d) % d == 0
  {
    if q > 0 {
      MultipleModulo(q - 1, d);
      assert q * d == (q - 1) * d + d;
      AddModulo((q - 1) * d, d);
    }
  }

  lemma {:induction false} AddModulo(x: nat, d: nat)
    requires d > 0
    ensures (x + d) % d == x % d
  {
    var q, r := x / d, x % d;
    assert x + d == (q + 1) * d + r;
    DivisionUnique(x + d, d, q + 1, r);
  }

  /** Quotient and remainder are unique. */
  lemma {:induction false} DivisionUnique(x: int, d: nat, q: int, r: nat)
    requires 0 <= r < d && x == q * d + r
    ensures x / d == q && x % d == r
  {
    var q', r' := x / d, x % d;
    assert (q - q') * d == r' - r && (q' - q) * d == r - r';
    MulAtLeast(q - q', d);
    MulAtLeast(q' - q, d);
  }

  lemma {:induction false} MulAtLeast(g: int, d: nat)
    ensures g > 0 ==> g * d >= d
  {
    if g > 0 {
      assert g * d == (g - 1) * d + d;
    }
  }

  lemma {:induction false} MulLess(a: nat, b: nat, d: nat)
    requires a < b && d > 0
    ensures a * d < b * d
  {
    MulAtLeast(b - a, d);
    assert b * d == a * d + (b - a) * d;
  }

  lemma {:induction false} MulGrows(a: nat, b: nat, d: nat)
    ensures a <= b ==> a * d <= b * d
  {
    if a <= b {
      MulAtLeast(b - a, d);
      assert b * d == a * d + (b - a) * d;
    }
  }

  // ---------- low bit first ----------

  /** The n low bits of a number, lowest first. */
  function LowBits(v: nat, n: nat): (bits: seq<bool>)
    ensures |bits| == n
  {
    if n == 0 then [] else [v % 2 == 1] + LowBits(v / 2, n - 1)
  }

  function LowValue(bits: seq<bool>): (v: nat)
    ensures v < Pow2(|bits|)
  {
    if bits == [] then 0 else (if bits[0] then 1 else 0) + 2 * LowValue(bits[1..])
  }

  lemma {:induction false} LowBitsOfValue(bits: seq<bool>)
    ensures LowBits(LowValue(bits), |bits|) == bits
  {
    if bits != [] {
      LowBitsOfValue(bits[1..]);
    }
  }

  /** A byte's bits, low bit first, and back. */
  function BitsOf(b: byte): (bits: seq<bool>)
    ensures |bits| == 8
  {
    LowBits(b, 8)
  }

  function ByteOf(bits: seq<bool>): byte
    requires |bits| == 8
  {
    assert Pow2(8) == 256 by { assert Pow2(4) == 16; Pow2Add(4, 4); }
    LowValue(bits)
  }

  lemma {:induction false} BitsOfByteOf(bits: seq<bool>)
    requires |bits| == 8
    ensures BitsOf(ByteOf(bits)) == bits
  {
    LowBitsOfValue(bits);
  }

  lemma {:induction false} LowValueOfBits(v: nat, n: nat)
    requires v < Pow2(n)
    ensures LowValue(LowBits(v, n)) == v
  {
    if n > 0 {
      LowValueOfBits(v / 2, n - 1);
      assert LowBits(v, n)[1..] == LowBits(v / 2, n - 1);
    }
  }

  lemma {:induction false} ByteOfBitsOf(b: byte)
    ensures ByteOf(BitsOf(b)) == b
  {
    assert Pow2(8) == 256 by { assert Pow2(4) == 16; Pow2Add(4, 4); }
    LowValueOfBits(b, 8);
  }

  /** Bit i of a byte, counted from the lowest. */
  function Bit(b: byte, i: nat): (bit: nat)
    requires i < 8
    ensures bit < 2
  {
    b / (if i == 0 then 1 else if i == 1 then 2 else if i == 2 then 4 else if i == 3 then 8
         else if i == 4 then 16 else if i == 5 then 32 else if i == 6 then 64 else 128) % 2
  }

  lemma {:induction false} BitsAreBits(b: byte, i: nat)
    requires i < 8
    ensures BitsOf(b)[i] <==> Bit(b, i) == 1
  {
    LowBitAt(b, 8, i);
    HalvedIs(b, i);
    hide LowBits, Halved;
  }

  /** Halved i times, rounding down. */
  function Halved(v: nat, i: nat): nat { if i == 0 then v else Halved(v / 2, i - 1) }

  lemma {:induction false} LowBitAt(v: nat, n: nat, i: nat)
    requires i < n
    ensures LowBits(v, n)[i] <==> Halved(v, i) % 2 == 1
  {
    if i > 0 {
      LowBitAt(v / 2, n - 1, i - 1);
    }
  }

  lemma {:induction false} HalvedIs(b: nat, i: nat)
    requires i < 8
    ensures Halved(b, i) == b / (if i == 0 then 1 else if i == 1 then 2 else if i == 2 then 4 else if i == 3 then 8
                                 else if i == 4 then 16 else if i == 5 then 32 else if i == 6 then 64 else 128)
  {
    if i > 0 {
      HalvedIs(b / 2, i - 1);
    }
  }
}
