/** Ternary raster operations: pattern, source and destination combined bit by bit. */
module Rop {
  import opened Bits
  import opened Raster

  /** One bit: the eight minterms, each admitted by one bit of the operation code. */
  function BitOp(rop: seq<bool>, p: bool, s: bool, d: bool): bool
    requires |rop| == 8
  {
    || (!p && !s && !d && rop[0]) || (!p && !s && d && rop[1])
    || (!p && s && !d && rop[2]) || (!p && s && d && rop[3])
    || (p && !s && !d && rop[4]) || (p && !s && d && rop[5])
    || (p && s && !d && rop[6]) || (p && s && d && rop[7])
  }

  /** The bits of the three operands number the code's bit that is the result. */
  lemma {:induction false} BitOpIsLookup(rop: seq<bool>, p: bool, s: bool, d: bool)
    requires |rop| == 8
    ensures BitOp(rop, p, s, d) == rop[(if p then 4 else 0) + (if s then 2 else 0) + (if d then 1 else 0)]
  {
  }

  function ByteOp(rop: byte, p: byte, s: byte, d: byte): byte {
    ByteOf(seq(8, i requires 0 <= i < 8 => BitOp(BitsOf(rop), BitsOf(p)[i], BitsOf(s)[i], BitsOf(d)[i])))
  }

  const BLACKNESS: byte := 0x00
  const WHITENESS: byte := 0xFF
  const PATCOPY: byte := 0xF0
  const SRCCOPY: byte := 0xCC

  /** The codes' bits. */
  lemma {:induction false} Codes()
    ensures BitsOf(BLACKNESS) == [false, false, false, false, false, false, false, false]
    ensures BitsOf(WHITENESS) == [true, true, true, true, true, true, true, true]
    ensures BitsOf(PATCOPY) == [false, false, false, false, true, true, true, true]
    ensures BitsOf(SRCCOPY) == [false, false, true, true, false, false, true, true]
  {
    hide LowBits, BitsOf;
    Halves(0, 0);
    Halves(15, 15);
    Halves(0, 15);
    Halves(12, 12);
    Nibbles();
  }

  lemma {:induction false} Nibbles()
    ensures LowBits(0, 4) == [false, false, false, false] && LowBits(15, 4) == [true, true, true, true]
    ensures LowBits(12, 4) == [false, false, true, true]
  {
  }

  /** A byte's bits are those of its two nibbles. */
  lemma {:induction false} Halves(lo: nat, hi: nat)
    requires lo < 16 && hi < 16
    ensures BitsOf(lo + 16 * hi) == LowBits(lo, 4) + LowBits(hi, 4)
  {
    SplitBits(lo, hi, 4, 4);
  }

  lemma {:induction false} SplitBits(lo: nat, hi: nat, m: nat, n: nat)
    requires lo < Pow2(m)
    ensures LowBits(lo + Pow2(m) * hi, m + n) == LowBits(lo, m) + LowBits(hi, n)
  {
    if m == 0 {
      assert Pow2(0) * hi == hi;
    } else {
      assert Pow2(m) * hi == 2 * (Pow2(m - 1) * hi);
      SplitBits(lo / 2, hi, m - 1, n);
      assert (lo + Pow2(m) * hi) / 2 == lo / 2 + Pow2(m - 1) * hi;
    }
  }

  /** The four codes that the program treats by loops of their own. */
  lemma {:induction false} SpecialCodes(p: byte, s: byte, d: byte)
    ensures ByteOp(BLACKNESS, p, s, d) == 0 && ByteOp(WHITENESS, p, s, d) == 0xFF
    ensures ByteOp(PATCOPY, p, s, d) == p && ByteOp(SRCCOPY, p, s, d) == s
  {
    Codes();
    var P, S, D := BitsOf(p), BitsOf(s), BitsOf(d);
    hide BitsOf, ByteOf, LowBits;
    assert seq(8, i requires 0 <= i < 8 => BitOp(BitsOf(BLACKNESS), P[i], S[i], D[i])) == BitsOf(BLACKNESS);
    assert seq(8, i requires 0 <= i < 8 => BitOp(BitsOf(WHITENESS), P[i], S[i], D[i])) == BitsOf(WHITENESS);
    assert seq(8, i requires 0 <= i < 8 => BitOp(BitsOf(PATCOPY), P[i], S[i], D[i])) == P;
    assert seq(8, i requires 0 <= i < 8 => BitOp(BitsOf(SRCCOPY), P[i], S[i], D[i])) == S;
    ByteOfBitsOf(0);
    ByteOfBitsOf(0xFF);
    ByteOfBitsOf(p);
    ByteOfBitsOf(s);
  }

  /** A whole pixel: three colour channels, and opaque. */
  function Apply(rop: byte, p: Rgba, s: Rgba, d: Rgba): Rgba {
    Rgba(ByteOp(rop, p.r, s.r, d.r), ByteOp(rop, p.g, s.g, d.g), ByteOp(rop, p.b, s.b, d.b), 0xFF)
  }

  lemma {:induction false} SpecialPixels(p: Rgba, s: Rgba, d: Rgba)
    ensures Apply(BLACKNESS, p, s, d) == Rgba(0, 0, 0, 0xFF) && Apply(WHITENESS, p, s, d) == WHITE
    ensures Apply(PATCOPY, p, s, d) == p.(a := 0xFF) && Apply(SRCCOPY, p, s, d) == s.(a := 0xFF)
  {
    SpecialCodes(p.r, s.r, d.r);
    SpecialCodes(p.g, s.g, d.g);
    SpecialCodes(p.b, s.b, d.b);
    hide ByteOp;
  }

  /** Every bit of the result is the bit of the code that the operands' bits number. */
  lemma {:induction false} ByteOpBits(rop: byte, p: byte, s: byte, d: byte, i: nat)
    requires i < 8
    ensures Bit(ByteOp(rop, p, s, d), i) == Bit(rop, 4 * Bit(p, i) + 2 * Bit(s, i) + Bit(d, i))
  {
    var bits := seq(8, i requires 0 <= i < 8 => BitOp(BitsOf(rop), BitsOf(p)[i], BitsOf(s)[i], BitsOf(d)[i]));
    assert ByteOp(rop, p, s, d) == ByteOf(bits);
    hide *;
    BitsOfByteOf(bits);
    BitsAreBits(ByteOf(bits), i);
    BitsAreBits(p, i);
    BitsAreBits(s, i);
    BitsAreBits(d, i);
    BitsAreBits(rop, 4 * Bit(p, i) + 2 * Bit(s, i) + Bit(d, i));
    BitOpIsLookup(BitsOf(rop), BitsOf(p)[i], BitsOf(s)[i], BitsOf(d)[i]);
  }

  /** One channel: its bits are those of the code at the numbers that pattern, source and
      destination bits make. */
  ghost predicate Combines(rop: byte, p: byte, s: byte, d: byte, out: byte) {
    forall i :: 0 <= i < 8 ==> Bit(out, i) == Bit(rop, 4 * Bit(p, i) + 2 * Bit(s, i) + Bit(d, i))
  }

  /** A pixel: its three channels, and opaque. */
  ghost predicate PixelCombines(rop: byte, p: Rgba, s: Rgba, d: Rgba, out: Rgba) {
    Combines(rop, p.r, s.r, d.r, out.r) && Combines(rop, p.g, s.g, d.g, out.g) && Combines(rop, p.b, s.b, d.b, out.b) && out.a == 0xFF
  }

  lemma {:induction false} ApplyCombines(rop: byte, p: Rgba, s: Rgba, d: Rgba)
    ensures PixelCombines(rop, p, s, d, Apply(rop, p, s, d))
  {
    hide ByteOp, Bit;
    forall i | 0 <= i < 8
      ensures Bit(ByteOp(rop, p.r, s.r, d.r), i) == Bit(rop, 4 * Bit(p.r, i) + 2 * Bit(s.r, i) + Bit(d.r, i))
      ensures Bit(ByteOp(rop, p.g, s.g, d.g), i) == Bit(rop, 4 * Bit(p.g, i) + 2 * Bit(s.g, i) + Bit(d.g, i))
      ensures Bit(ByteOp(rop, p.b, s.b, d.b), i) == Bit(rop, 4 * Bit(p.b, i) + 2 * Bit(s.b, i) + Bit(d.b, i))
    {
      ByteOpBits(rop, p.r, s.r, d.r, i);
      ByteOpBits(rop, p.g, s.g, d.g, i);
      ByteOpBits(rop, p.b, s.b, d.b, i);
    }
  }
}
