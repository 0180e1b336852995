/** The MPPC decompressor: a 32-bit shift register over the packet's bytes feeds a
    token reader whose tokens are executed on the history array. */
module Mppc {
  import opened Bits
  import opened MppcCode
  import opened MppcReplay

  const FLAG_BIG := 0x01
  const FLAG_COMPRESSED := 0x20
  const FLAG_RESET := 0x40
  const FLAG_FLUSH := 0x80

  predicate Flag(ctype: byte, mask: nat)
    requires mask > 0
  {
    (ctype / mask) % 2 == 1
  }

  predicate Compressed(ctype: byte) { Flag(ctype, FLAG_COMPRESSED) }

  predicate Big(ctype: byte) { Flag(ctype, FLAG_BIG) }

  // ---------- the shift register ----------

  /** The 32-bit pattern of the walker, the number of unread bits at its top, and
      the index of the next byte to load. */
  datatype Register = Register(walker: nat, len: nat, next: nat)

  function BitString(data: seq<byte>): seq<bool> {
    if data == [] then [] else Numeral(data[0], 8) + BitString(data[1..])
  }

  /** The walker's top len bits, then the bytes not yet loaded, are the unread bits;
      below them the walker is clear. */
  ghost predicate Holds(data: seq<byte>, r: Register, unread: seq<bool>) {
    && r.next <= |data| && r.len <= 32 && r.len <= |unread|
    && r.walker == Value(unread[..r.len] + Zeros(32 - r.len))
    && unread[r.len..] == BitString(data[r.next..])
  }

  /** 32-bit left shift. */
  function Shl(w: nat, k: nat): nat { (w * Pow2(k)) % Pow2(32) }

  /** The sign bit of the int32 with pattern w. */
  predicate Negative(w: nat) { w >= Pow2(31) }

  function Signed(w: nat): int { if Negative(w) then w - Pow2(32) else w }

  function Drop(r: Register, k: nat): Register
    requires k <= r.len
  {
    Register(Shl(r.walker, k), r.len - k, r.next)
  }

  function Load(r: Register, b: byte): Register
    requires r.len <= 24
  {
    Register(Or(r.walker, Shl(b, 24 - r.len)), r.len + 8, r.next + 1)
  }

  /** Value of a bit string padded with zeros below. */
  lemma {:induction false} ValuePadded(a: seq<bool>, n: nat)
    ensures Value(a + Zeros(n)) == Value(a) * Pow2(n)
  {
    ValueConcat(a, Zeros(n));
    ValueZeros(n);
  }

  lemma {:induction false} LoadHolds(data: seq<byte>, r: Register, unread: seq<bool>)
    requires Holds(data, r, unread) && r.len <= 24 && r.next < |data|
    ensures Holds(data, Load(r, data[r.next]), unread)
  {
    hide Value, Or, Shl, Numeral, Pow2, Zeros;
    var b := data[r.next];
    var n := 24 - r.len;
    var a := unread[..r.len];
    assert data[r.next..] == [b] + data[r.next + 1..];
    assert unread[r.len..] == Numeral(b, 8) + BitString(data[r.next + 1..]);
    assert unread[..r.len + 8] == a + Numeral(b, 8);
    ByteLoaded(r.walker, a, b, n);
    assert unread[r.len + 8..] == unread[r.len..][8..];
  }

  lemma {:induction false} ByteLoaded(walker: nat, a: seq<bool>, b: byte, n: nat)
    requires n <= 24 && walker == Value(a + Zeros(n + 8))
    ensures Or(walker, Shl(b, n)) == Value(a + Numeral(b, 8) + Zeros(n))
  {
    hide *;
    var v, p := Value(a), Pow2(n);
    ByteShifted(b, n);
    ValuePadded(a, n + 8);
    Pow2Add(n, 8);
    MultipleModulo(v, Pow2(n + 8));
    OrDisjoint(walker, b * p, n + 8);
    ValueNumeral(b, 8);
    ValuePadded(a + Numeral(b, 8), n);
    ValueConcat(a, Numeral(b, 8));
    Distribute(v, Pow2(8), b, p);
  }

  lemma {:induction false} Distribute(h: nat, p: nat, l: nat, q: nat)
    ensures (h * p + l) * q == h * (p * q) + l * q
    ensures p * q == q * p
  {
  }

  lemma {:induction false} ByteShifted(b: byte, n: nat)
    requires n <= 24
    ensures b < Pow2(8) && Shl(b, n) == b * Pow2(n) < Pow2(n + 8)
  {
    assert Pow2(8) == 256;
    hide *;
    Pow2Monotone(n + 8, 32);
    Pow2Add(8, n);
    MulLess(b, Pow2(8), Pow2(n));
    ShlInRange(b, n);
  }

  lemma {:induction false} ShlInRange(w: nat, k: nat)
    requires w * Pow2(k) < Pow2(32)
    ensures Shl(w, k) == w * Pow2(k)
  {
    hide Pow2;
  }

  /** Reading k bits off the top. */
  lemma {:induction false} TopBits(data: seq<byte>, r: Register, unread: seq<bool>, k: nat)
    requires Holds(data, r, unread) && k <= r.len
    ensures r.walker / Pow2(32 - k) == Value(unread[..k])
  {
    var reg := unread[..r.len] + Zeros(32 - r.len);
    SplitValue(reg, k);
    assert reg[..k] == unread[..k];
  }

  lemma {:induction false} SplitValue(reg: seq<bool>, k: nat)
    requires k <= |reg|
    ensures Value(reg) == Value(reg[..k]) * Pow2(|reg| - k) + Value(reg[k..])
    ensures Value(reg) / Pow2(|reg| - k) == Value(reg[..k])
  {
    assert reg == reg[..k] + reg[k..];
    ValueConcat(reg[..k], reg[k..]);
    DivisionUnique(Value(reg), Pow2(|reg| - k), Value(reg[..k]), Value(reg[k..]));
  }

  lemma {:induction false} DropHolds(data: seq<byte>, r: Register, unread: seq<bool>, k: nat)
    requires Holds(data, r, unread) && k <= r.len
    ensures Holds(data, Drop(r, k), unread[k..])
  {
    var reg := unread[..r.len] + Zeros(32 - r.len);
    ShiftedOut(reg, k);
    assert reg[k..] + Zeros(k) == unread[k..][..r.len - k] + Zeros(32 - (r.len - k));
    assert unread[k..][r.len - k..] == unread[r.len..];
  }

  lemma {:induction false} ShiftedOut(reg: seq<bool>, k: nat)
    requires |reg| == 32 && k <= 32
    ensures Shl(Value(reg), k) == Value(reg[k..] + Zeros(k))
  {
    hide Value, Pow2;
    var hi, lo := Value(reg[..k]), Value(reg[k..]);
    SplitValue(reg, k);
    ValuePadded(reg[k..], k);
    Pow2Add(32 - k, k);
    var p, q := Pow2(32 - k), Pow2(k);
    Distribute(hi, p, lo, q);
    DivisionUnique(Value(reg) * q, Pow2(32), hi, Value(reg[k..] + Zeros(k)));
  }

  lemma {:induction false} SignBit(data: seq<byte>, r: Register, unread: seq<bool>)
    requires Holds(data, r, unread) && r.len > 0
    ensures Negative(r.walker) == unread[0]
    ensures r.walker < Pow2(32)
  {
    var reg := unread[..r.len] + Zeros(32 - r.len);
    TopBit(reg);
  }

  lemma {:induction false} TopBit(reg: seq<bool>)
    requires |reg| == 32
    ensures Negative(Value(reg)) == reg[0]
  {
    assert Value(reg[..1]) == if reg[0] then 1 else 0;
    hide Value, Pow2;
    SplitValue(reg, 1);
  }

  lemma {:induction false} Start(data: seq<byte>)
    ensures Holds(data, Register(0, 0, 0), BitString(data))
  {
    ValueZeros(32);
    assert [] + Zeros(32) == Zeros(32);
  }

  // ---------- reading fields ----------

  /** The reader agrees with the parse p: the same value with the register at the rest,
      or no value at all. */
  ghost predicate Reads<T>(p: Parsed<T>, data: seq<byte>, r: Register, ok: bool, v: T) {
    if ok then p.Item? && p.value == v && Holds(data, r, p.rest) else p.Malformed?
  }

  /** for walkerLen < n: load a byte, or report that the packet is exhausted. */
  method Fill(data: seq<byte>, r0: Register, n: nat, ghost unread: seq<bool>) returns (r: Register, ok: bool)
    requires Holds(data, r0, unread) && n <= 17
    ensures Holds(data, r, unread)
    ensures ok <==> |unread| >= n
    ensures if ok then r.len >= n else r.len == |unread|
  {
    hide Value, Zeros, Numeral, Or, Shl;
    r := r0;
    while r.len < n
      invariant Holds(data, r, unread)
      decreases |data| - r.next
    {
      if r.next >= |data| {
        return r, false;
      }
      LoadHolds(data, r, unread);
      r := Load(r, data[r.next]);
    }
    ok := true;
  }

  /** Skip the tag, read width bits, add the base. */
  method TakeField(data: seq<byte>, r0: Register, skip: nat, width: nat, base: nat, ghost unread: seq<bool>)
    returns (r: Register, ok: bool, v: nat)
    requires Holds(data, r0, unread) && skip + width <= 17
    ensures Reads(Field(unread, skip, width, base), data, r, ok, v)
  {
    hide Value, Zeros, Numeral, Or, Shl, Pow2, Holds;
    v := 0;
    r, ok := Fill(data, r0, skip + width, unread);
    if !ok {
      return;
    }
    DropHolds(data, r, unread, skip);
    r := Drop(r, skip);
    TopBits(data, r, unread[skip..], width);
    v := r.walker / Pow2(32 - width) + base;
    DropHolds(data, r, unread[skip..], width);
    r := Drop(r, width);
    assert unread[skip..][..width] == unread[skip..skip + width];
    assert unread[skip..][width..] == unread[skip + width..];
  }

  method DecodeDist(data: seq<byte>, r0: Register, big: bool, ghost unread: seq<bool>)
    returns (r: Register, ok: bool, dist: nat)
    requires Holds(data, r0, unread)
    ensures Reads(ParseDist(big, unread), data, r, ok, dist)
  {
    hide Holds, Field, Value, Pow2;
    dist := 0;
    r, ok := Fill(data, r0, if big then 3 else 2, unread);
    if !ok {
      return;
    }
    Tag(data, r, unread);
    if big {
      var tag := r.walker / Pow2(29);
      if tag == 7 {
        r, ok, dist := TakeField(data, r, 3, 6, 0, unread);
      } else if tag == 6 {
        r, ok, dist := TakeField(data, r, 3, 8, 64, unread);
      } else if tag == 5 || tag == 4 {
        r, ok, dist := TakeField(data, r, 2, 11, 320, unread);
      } else {
        r, ok, dist := TakeField(data, r, 1, 16, 2368, unread);
      }
    } else {
      var tag := r.walker / Pow2(30);
      if tag == 3 {
        r, ok, dist := TakeField(data, r, 2, 6, 0, unread);
      } else if tag == 2 {
        r, ok, dist := TakeField(data, r, 2, 8, 64, unread);
      } else {
        r, ok, dist := TakeField(data, r, 0, 14, 320, unread);
        LongDistField(unread);
      }
    }
  }

  /** The tag read as a number, bit by bit. */
  lemma {:induction false} Tag(data: seq<byte>, r: Register, unread: seq<bool>)
    requires Holds(data, r, unread)
    ensures r.len >= 2 ==> r.walker / Pow2(30) == (if unread[0] then 2 else 0) + (if unread[1] then 1 else 0)
    ensures r.len >= 3 ==>
      r.walker / Pow2(29) == (if unread[0] then 4 else 0) + (if unread[1] then 2 else 0) + (if unread[2] then 1 else 0)
  {
    hide Pow2, Value, Zeros;
    if r.len >= 2 {
      TopBits(data, r, unread, 2);
      ThreeBits(unread);
    }
    if r.len >= 3 {
      TopBits(data, r, unread, 3);
    }
  }

  lemma {:induction false} ThreeBits(bits: seq<bool>)
    requires |bits| >= 2
    ensures Value(bits[..2]) == (if bits[0] then 2 else 0) + (if bits[1] then 1 else 0)
    ensures |bits| >= 3 ==>
      Value(bits[..3]) == (if bits[0] then 4 else 0) + (if bits[1] then 2 else 0) + (if bits[2] then 1 else 0)
  {
    assert Value(bits[..0]) == 0;
    hide *;
    NextBit(bits, 0);
    NextBit(bits, 1);
    if |bits| >= 3 {
      NextBit(bits, 2);
    }
  }

  lemma {:induction false} NextBit(bits: seq<bool>, k: nat)
    requires k < |bits|
    ensures Value(bits[..k + 1]) == 2 * Value(bits[..k]) + (if bits[k] then 1 else 0)
  {
    assert bits[..k + 1] == bits[..k] + [bits[k]];
    ValueSnoc(bits[..k], bits[k]);
  }

  /** The 8K code reads its long distance with the clear tag bit on top. */
  lemma {:induction false} LongDistField(bits: seq<bool>)
    requires bits != [] && !bits[0]
    ensures Field(bits, 0, 14, 320) == Field(bits, 1, 13, 320)
  {
    if |bits| >= 14 {
      LeadingZero(bits[0..14]);
      assert bits[0..14][1..] == bits[1..14];
    }
  }

  /** The n low bits of a length whose unary part has been read; bit n is implied.
      The shift is arithmetic, so the sign is masked off again. */
  method TakeLength(data: seq<byte>, r0: Register, n: nat, ghost unread: seq<bool>)
    returns (r: Register, ok: bool, len: nat)
    requires 1 <= n <= 15 && n <= |unread| && Holds(data, r0, unread[n..])
    ensures Reads(Field(unread, n, n, Pow2(n)), data, r, ok, len)
  {
    hide Holds, Value, Pow2, Or, Signed;
    len := 3;
    r, ok := Fill(data, r0, n, unread[n..]);
    if !ok {
      return;
    }
    var low := (Signed(r.walker) / Pow2(32 - n)) % Pow2(n);
    len := Or(low, Pow2(n));
    SignedField(data, r, unread[n..], n);
    assert unread[n..][..n] == unread[n..n + n];
    DropHolds(data, r, unread[n..], n);
    r := Drop(r, n);
    assert unread[n..][n..] == unread[n + n..];
  }

  lemma {:induction false} SignedField(data: seq<byte>, r: Register, unread: seq<bool>, n: nat)
    requires Holds(data, r, unread) && 1 <= n <= r.len && n <= 15
    ensures (Signed(r.walker) / Pow2(32 - n)) % Pow2(n) == Value(unread[..n])
    ensures Or(Value(unread[..n]), Pow2(n)) == Pow2(n) + Value(unread[..n])
  {
    hide *;
    HoldsSize(data, r, unread);
    SignedIs(r.walker);
    SignBit(data, r, unread);
    TopBits(data, r, unread, n);
    var v, q, p := Value(unread[..n]), Pow2(32 - n), Pow2(n);
    Pow2Add(n, 32 - n);
    MultipleModulo(1, p);
    OrDisjoint(p, v, n);
    DivisionUnique(v, p, 0, v);
    ArithmeticShift(r.walker, p, q, v);
  }

  lemma {:induction false} HoldsSize(data: seq<byte>, r: Register, unread: seq<bool>)
    requires Holds(data, r, unread)
    ensures r.len <= |unread| && r.len <= 32
  {
  }

  lemma {:induction false} SignedIs(w: nat)
    ensures Signed(w) == if Negative(w) then w - Pow2(32) else w
  {
    hide Pow2;
  }

  lemma {:induction false} ArithmeticShift(w: nat, p: nat, q: nat, v: nat)
    requires p > 0 && q > 0 && w / q == v < p
    ensures (w - p * q) / q == v - p && (v - p) % p == v
  {
    var r := w % q;
    assert w - p * q == (v - p) * q + r;
    DivisionUnique(w - p * q, q, v - p, r);
    DivisionUnique(v - p, p, -1, v);
  }

  method DecodeLen(data: seq<byte>, r0: Register, big: bool, ghost unread: seq<bool>)
    returns (r: Register, ok: bool, len: nat)
    requires Holds(data, r0, unread)
    ensures Reads(ParseLen(big, unread), data, r, ok, len)
  {
    hide Holds, Value, Pow2, Or, Ones;
    len := 3;
    r, ok := Fill(data, r0, 1, unread);
    if !ok {
      return;
    }
    SignBit(data, r, unread);
    if !Negative(r.walker) {
      DropHolds(data, r, unread, 1);
      r := Drop(r, 1);
      return;
    }
    var matchBits;
    r, ok, matchBits := ReadOnes(data, r, big, unread);
    if !ok {
      return;
    }
    var n := if big then 16 - matchBits else 13 - matchBits;
    ghost var k := n - 1;
    DropHolds(data, r, unread[k..], 1);
    r := Drop(r, 1);
    assert unread[k..][1..] == unread[n..];
    r, ok, len := TakeLength(data, r, n, unread);
  }

  /** Shift out the ones of the unary part, the first of which is already in view. */
  method ReadOnes(data: seq<byte>, r0: Register, big: bool, ghost unread: seq<bool>)
    returns (r: Register, ok: bool, matchBits: nat)
    requires Holds(data, r0, unread) && r0.len > 0 && unread != [] && unread[0]
    ensures ok ==>
      var k := Ones(unread);
      1 <= k <= MaxOnes(big) && k < |unread| && matchBits == MaxOnes(big) + 1 - k &&
      Holds(data, r, unread[k..]) && r.len > 0
    ensures !ok ==> ParseLen(big, unread) == Malformed
  {
    hide Holds, Value, Pow2, Ones;
    r, matchBits := r0, if big then 14 else 11;
    ghost var k := 0;
    assert unread[0..] == unread;
    while true
      invariant k + 1 <= |unread| && forall j :: 0 <= j <= k ==> unread[j]
      invariant Holds(data, r, unread[k..]) && r.len > 0
      invariant matchBits == MaxOnes(big) - k && matchBits > 0
      decreases matchBits
    {
      DropHolds(data, r, unread[k..], 1);
      r := Drop(r, 1);
      assert unread[k..][1..] == unread[k + 1..];
      r, ok := Fill(data, r, 1, unread[k + 1..]);
      if !ok {
        return;
      }
      SignBit(data, r, unread[k + 1..]);
      k := k + 1;
      if !Negative(r.walker) {
        assert Ones(unread) == k;
        return;
      }
      matchBits := matchBits - 1;
      if matchBits == 0 {
        return r, false, matchBits;
      }
    }
  }

  datatype Read = Got(t: Token) | Stop | Bad

  /** One round of the token loop, up to the point where history is written. */
  method ReadToken(data: seq<byte>, r0: Register, big: bool, ghost unread: seq<bool>)
    returns (r: Register, out: Read)
    requires Holds(data, r0, unread)
    ensures match out
      case Got(t) => Reads(ParseToken(big, unread), data, r, true, t)
      case Stop => ParseToken(big, unread) == End
      case Bad => ParseToken(big, unread) == Malformed
  {
    hide Holds, Value, Pow2, Or;
    var ok;
    r, ok := Fill(data, r0, 1, unread);
    if !ok {
      return r, Stop;
    }
    SignBit(data, r, unread);
    if !Negative(r.walker) {
      r, ok := Fill(data, r, 8, unread);
      if !ok {
        LeftoverBits(data, r, unread);
        return r, if r.walker != 0 then Bad else Stop;
      }
      LiteralByte(data, r, unread);
      out := Got(Literal(r.walker / Pow2(24)));
      DropHolds(data, r, unread, 8);
      return Drop(r, 8), out;
    }
    DropHolds(data, r, unread, 1);
    r := Drop(r, 1);
    r, ok := Fill(data, r, 1, unread[1..]);
    if !ok {
      return r, Bad;
    }
    SignBit(data, r, unread[1..]);
    if !Negative(r.walker) {
      r, ok := Fill(data, r, 8, unread[1..]);
      if !ok {
        return r, Bad;
      }
      LiteralByte(data, r, unread[1..]);
      assert unread[1..][1..8] == unread[2..9];
      out := Got(Literal(Or(r.walker / Pow2(24), 0x80)));
      DropHolds(data, r, unread[1..], 8);
      assert unread[1..][8..] == unread[9..];
      return Drop(r, 8), out;
    }
    DropHolds(data, r, unread[1..], 1);
    r := Drop(r, 1);
    assert unread[1..][1..] == unread[2..];
    var dist, len;
    r, ok, dist := DecodeDist(data, r, big, unread[2..]);
    if !ok {
      return r, Bad;
    }
    r, ok, len := DecodeLen(data, r, big, ParseDist(big, unread[2..]).rest);
    return r, if ok then Got(Match(dist, len)) else Bad;
  }

  lemma {:induction false} LeftoverBits(data: seq<byte>, r: Register, unread: seq<bool>)
    requires Holds(data, r, unread) && r.len == |unread|
    ensures r.walker == 0 <==> Value(unread) == 0
  {
    assert unread[..r.len] == unread;
    ValuePadded(unread, 32 - r.len);
    MulAtLeast(Value(unread), Pow2(32 - r.len));
  }

  /** A literal's eight bits have a clear top bit. */
  lemma {:induction false} LiteralByte(data: seq<byte>, r: Register, unread: seq<bool>)
    requires Holds(data, r, unread) && r.len >= 8 && !unread[0]
    ensures r.walker / Pow2(24) == Value(unread[..8]) == Value(unread[1..8]) < 128
    ensures Or(r.walker / Pow2(24), 0x80) == 0x80 + Value(unread[1..8])
  {
    TopBits(data, r, unread, 8);
    LeadingZero(unread[..8]);
    assert unread[..8][1..] == unread[1..8];
    var v := Value(unread[1..8]);
    assert Pow2(7) == 128;
    hide Holds, Value, Or, Pow2;
    OrDisjoint(0x80, v, 7);
  }

  // ---------- packets ----------

  datatype State = State(hist: seq<byte>, off: nat)

  /** IndexPanic: the run-time index check stops the program inside a match copy. */
  datatype Outcome = Output(bytes: seq<byte>) | DecompressionError | IndexPanic

  ghost predicate WellFormed(s: State) { |s.hist| == DICT_SIZE && s.off <= DICT_SIZE }

  function Cleared(): (h: seq<byte>)
    ensures |h| == DICT_SIZE
  {
    seq(DICT_SIZE, _ => 0)
  }

  /** The effect of the reset and flush flags. */
  function Reset(s: State, ctype: byte): State {
    State(if Flag(ctype, FLAG_FLUSH) then Cleared() else s.hist,
          if Flag(ctype, FLAG_RESET) || Flag(ctype, FLAG_FLUSH) then 0 else s.off)
  }

  /** What one packet does to the decompressor. */
  function Step(s: State, data: seq<byte>, ctype: byte): (r: (State, Outcome))
    requires WellFormed(s)
    ensures WellFormed(r.0)
  {
    var s0 := Reset(s, ctype);
    if !Compressed(ctype) then (s0, Output(data))
    else
      match Expand(Big(ctype), s0.hist, s0.off, BitString(data))
      case Done(hist, off) => (State(hist, off), Output(hist[s0.off..off]))
      case Failed(hist) => (State(hist, s0.off), DecompressionError)
      case Trapped(hist) => (State(hist, s0.off), IndexPanic)
  }

  class Decompressor {
    const hist: array<byte>
    var off: nat

    ghost predicate Valid()
      reads this, hist
    {
      WellFormed(Contents())
    }

    ghost function Contents(): State
      reads this, hist
    {
      State(hist[..], off)
    }

    constructor ()
      ensures Valid() && fresh(hist)
      ensures Contents() == State(Cleared(), 0)
    {
      hist := new byte[DICT_SIZE](_ => 0);
      off := 0;
      new;
      assert hist[..] == Cleared();
    }

    method Decompress(data: seq<byte>, ctype: byte) returns (out: Outcome)
      requires Valid()
      modifies this, hist
      ensures Valid()
      ensures (Contents(), out) == Step(old(Contents()), data, ctype)
    {
      if Flag(ctype, FLAG_RESET) {
        off := 0;
      }
      if Flag(ctype, FLAG_FLUSH) {
        forall i | 0 <= i < hist.Length {
          hist[i] := 0;
        }
        off := 0;
        assert hist[..] == Cleared();
      }
      if !Compressed(ctype) {
        return Output(data);
      }
      var oldOffset := off;
      if |data| == 0 {
        assert data == [] && hist[oldOffset..oldOffset] == [];
        return Output([]);
      }
      var ok, nextOffset;
      ok, nextOffset, out := ExpandPacket(data, Big(ctype));
      if ok {
        off := nextOffset;
        out := Output(hist[oldOffset..nextOffset]);
      }
    }

    /** The token loop; when it stops early, out says how. */
    method ExpandPacket(data: seq<byte>, big: bool) returns (ok: bool, nextOffset: nat, out: Outcome)
      requires Valid()
      modifies hist
      ensures match Expand(big, old(hist[..]), off, BitString(data))
        case Done(h, o) => ok && hist[..] == h && nextOffset == o
        case Failed(h) => !ok && hist[..] == h && out == DecompressionError
        case Trapped(h) => !ok && hist[..] == h && out == IndexPanic
    {
      nextOffset := off;
      var r := Register(0, 0, 0);
      ghost var unread := BitString(data);
      ghost var goal := Expand(big, hist[..], off, unread);
      Start(data);
      hide ParseToken, Exec, Holds, BitString;
      while true
        invariant hist.Length == DICT_SIZE && nextOffset <= DICT_SIZE
        invariant Holds(data, r, unread)
        invariant Expand(big, hist[..], nextOffset, unread) == goal
        decreases |unread|
      {
        var read;
        r, read := ReadToken(data, r, big, unread);
        match read
        case Stop => return true, nextOffset, Output([]);
        case Bad => return false, nextOffset, DecompressionError;
        case Got(t) =>
          ok, nextOffset, out := Execute(big, nextOffset, t);
          if !ok {
            return;
          }
          unread := ParseToken(big, unread).rest;
      }
    }

    /** Write what one token denotes at nextOffset. */
    method Execute(big: bool, nextOffset: nat, t: Token) returns (ok: bool, next: nat, out: Outcome)
      requires hist.Length == DICT_SIZE && nextOffset <= DICT_SIZE
      modifies hist
      ensures match Exec(big, old(hist[..]), nextOffset, t)
        case Done(h, o) => ok && hist[..] == h && next == o
        case Failed(h) => !ok && hist[..] == h && out == DecompressionError
        case Trapped(h) => !ok && hist[..] == h && out == IndexPanic
    {
      next, out := nextOffset, DecompressionError;
      match t
      case Literal(b) =>
        if nextOffset >= DICT_SIZE {
          return false, next, out;
        }
        hist[nextOffset] := b;
        return true, nextOffset + 1, out;
      case Match(dist, len) =>
        if nextOffset + len >= DICT_SIZE {
          return false, next, out;
        }
        ok := CopyMatch(nextOffset, MatchIndex(big, nextOffset, dist), len);
        return ok, nextOffset + len, IndexPanic;
    }

    /** Copy byte by byte; false when the source index leaves the array. */
    method CopyMatch(nextOffset: nat, from: nat, len: nat) returns (done: bool)
      requires nextOffset + len < hist.Length && from <= hist.Length
      modifies hist
      ensures done <==> from + len <= hist.Length
      ensures hist[..] == CopyBytes(old(hist[..]), nextOffset, from, if done then len else hist.Length - from)
    {
      var n, to, k := len, nextOffset, from;
      ghost var total := if from + len <= hist.Length then len else hist.Length - from;
      ghost var goal := CopyBytes(hist[..], nextOffset, from, total);
      while n > 0
        invariant n + to == nextOffset + len && k - from == to - nextOffset && from <= k
        invariant len - n <= total
        invariant CopyBytes(hist[..], to, k, total - (len - n)) == goal
        decreases n
      {
        if k >= hist.Length {
          return false;
        }
        ghost var before := hist[..];
        hist[to] := hist[k];
        assert hist[..] == before[to := before[k]];
        to, k, n := to + 1, k + 1, n - 1;
      }
      done := true;
    }
  }
}
