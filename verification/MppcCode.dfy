/** The MPPC token code and its meaning: bit string, tokens, LZ77 replay.

    Parsing (ParseToken) and execution (Expand) describe every input, malformed
    ones included; Mppc.Decompressor is proved equal to them.  The code (Codes) and
    the replay (Replay) are the reference the decompressor is for. */
module MppcCode {
  import opened Bits

  const DICT_SIZE := 65536

  /** The mask applied to a history index. */
  function Mask(big: bool): nat { if big then 65535 else 8191 }

  /** The longest run of ones that may open a length code. */
  function MaxOnes(big: bool): nat { if big then 14 else 11 }

  datatype Token = Literal(b: byte) | Match(dist: nat, len: nat)

  datatype Parsed<T> = Item(value: T, rest: seq<bool>) | End | Malformed

  function Field(bits: seq<bool>, skip: nat, width: nat, base: nat): Parsed<nat> {
    if |bits| < skip + width then Malformed
    else Item(base + Value(bits[skip..skip + width]), bits[skip + width..])
  }

  function ParseDist(big: bool, bits: seq<bool>): Parsed<nat> {
    if |bits| < (if big then 3 else 2) then Malformed
    else if big then
      if !bits[0] then Field(bits, 1, 16, 2368)
      else if !bits[1] then Field(bits, 2, 11, 320)
      else if !bits[2] then Field(bits, 3, 8, 64)
      else Field(bits, 3, 6, 0)
    else
      if !bits[0] then Field(bits, 1, 13, 320)
      else if !bits[1] then Field(bits, 2, 8, 64)
      else Field(bits, 2, 6, 0)
  }

  /** The number of ones before the first zero. */
  function Ones(bits: seq<bool>): (m: nat)
    ensures m <= |bits|
    ensures forall j :: 0 <= j < m ==> bits[j]
    ensures m < |bits| ==> !bits[m]
  {
    if bits == [] || !bits[0] then 0 else 1 + Ones(bits[1..])
  }

  function ParseLen(big: bool, bits: seq<bool>): Parsed<nat> {
    var m := Ones(bits);
    if m == 0 then
      if bits == [] then Malformed else Item(3, bits[1..])
    else if m > MaxOnes(big) then Malformed
    else Field(bits, m + 1, m + 1, Pow2(m + 1))
  }

  function ParseToken(big: bool, bits: seq<bool>): (p: Parsed<Token>)
    ensures p.Item? ==> |p.rest| < |bits|
  {
    if bits == [] then End
    else if !bits[0] then
      if |bits| >= 8 then
        LiteralRange(bits);
        Item(Literal(Value(bits[..8])), bits[8..])
      else if Value(bits) == 0 then End
      else Malformed
    else if |bits| == 1 then Malformed
    else if !bits[1] then
      if |bits| < 9 then Malformed
      else
        LiteralRange(bits);
        Item(Literal(128 + Value(bits[2..9])), bits[9..])
    else ParseMatch(big, bits[2..])
  }

  function ParseMatch(big: bool, bits: seq<bool>): (p: Parsed<Token>)
    ensures p.Item? ==> |p.rest| < |bits|
    ensures !p.End?
  {
    match ParseDist(big, bits)
    case End => Malformed
    case Malformed => Malformed
    case Item(dist, rest) =>
      match ParseLen(big, rest)
      case End => Malformed
      case Malformed => Malformed
      case Item(len, rest') => Item(Match(dist, len), rest')
  }

  lemma {:induction false} LiteralRange(bits: seq<bool>)
    ensures |bits| >= 8 ==> Value(bits[..8]) < 256
    ensures |bits| >= 9 ==> Value(bits[2..9]) < 128
  {
    assert Pow2(8) == 256 && Pow2(7) == 128;
  }

  // ---------- the code ----------

  function DistCode(big: bool, d: nat): seq<bool> {
    if big then
      if d < 64 then [true, true, true] + Numeral(d, 6)
      else if d < 320 then [true, true, false] + Numeral(d - 64, 8)
      else if d < 2368 then [true, false] + Numeral(d - 320, 11)
      else [false] + Numeral(d - 2368, 16)
    else
      if d < 64 then [true, true] + Numeral(d, 6)
      else if d < 320 then [true, false] + Numeral(d - 64, 8)
      else [false] + Numeral(d - 320, 13)
  }

  function Unary(m: nat): seq<bool> { seq(m, _ => true) + [false] }

  /** Lengths start at 3. */
  function LenCode(len: nat): seq<bool> {
    if len <= 3 then [false]
    else
      var e := Log2(len);
      Unary(e - 1) + Numeral(len - Pow2(e), e)
  }

  function Code(big: bool, t: Token): seq<bool> {
    match t
    case Literal(b) => if b < 128 then Numeral(b, 8) else [true, false] + Numeral(b - 128, 7)
    case Match(dist, len) => [true, true] + DistCode(big, dist) + LenCode(len)
  }

  /** Tokens the code can express and the history can serve. */
  predicate ValidToken(big: bool, off: nat, t: Token) {
    match t
    case Literal(_) => off < DICT_SIZE
    case Match(dist, len) =>
      && 3 <= len < Pow2(MaxOnes(big) + 2)
      && 1 <= dist <= off && off - dist <= Mask(big)
      && (!big ==> dist < 320 + 8192)
      && off + len < DICT_SIZE
  }

  function Size(t: Token): nat { if t.Literal? then 1 else t.len }

  predicate ValidTokens(big: bool, off: nat, ts: seq<Token>)
    decreases ts
  {
    ts == [] || (ValidToken(big, off, ts[0]) && ValidTokens(big, off + Size(ts[0]), ts[1..]))
  }

  function Codes(big: bool, ts: seq<Token>): seq<bool> {
    if ts == [] then [] else Code(big, ts[0]) + Codes(big, ts[1..])
  }

  // ---------- parsing inverts coding ----------

  lemma {:induction false} DistRoundTrip(big: bool, d: nat, rest: seq<bool>)
    requires d < if big then 2368 + 65536 else 320 + 8192
    ensures ParseDist(big, DistCode(big, d) + rest) == Item(d, rest)
  {
    hide Field, Numeral;
    assert Pow2(6) == 64 && Pow2(8) == 256 && Pow2(11) == 2048 && Pow2(13) == 8192 && Pow2(16) == 65536;
    if big {
      if d < 64 { FieldRoundTrip([true, true, true], d, 6, 0, rest); }
      else if d < 320 { FieldRoundTrip([true, true, false], d - 64, 8, 64, rest); }
      else if d < 2368 { FieldRoundTrip([true, false], d - 320, 11, 320, rest); }
      else { FieldRoundTrip([false], d - 2368, 16, 2368, rest); }
    } else {
      if d < 64 { FieldRoundTrip([true, true], d, 6, 0, rest); }
      else if d < 320 { FieldRoundTrip([true, false], d - 64, 8, 64, rest); }
      else { FieldRoundTrip([false], d - 320, 13, 320, rest); }
    }
  }

  lemma {:induction false} FieldRoundTrip(tag: seq<bool>, v: nat, width: nat, base: nat, rest: seq<bool>)
    requires v < Pow2(width)
    ensures Field(tag + Numeral(v, width) + rest, |tag|, width, base) == Item(base + v, rest)
    ensures forall j :: 0 <= j < |tag| ==> (tag + Numeral(v, width) + rest)[j] == tag[j]
  {
    ValueNumeral(v, width);
    var bits := tag + Numeral(v, width) + rest;
    assert bits[|tag|..|tag| + width] == Numeral(v, width);
    assert bits[|tag| + width..] == rest;
  }

  lemma {:induction false} LenExponent(big: bool, len: nat)
    requires 4 <= len < Pow2(MaxOnes(big) + 2)
    ensures 2 <= Log2(len) <= MaxOnes(big) + 1
    ensures len - Pow2(Log2(len)) < Pow2(Log2(len))
  {
    var e := Log2(len);
    if e < 2 { Pow2Monotone(e + 1, 2); }
    if e > MaxOnes(big) + 1 { Pow2Monotone(MaxOnes(big) + 2, e); }
  }

  lemma {:induction false} LongLenParses(big: bool, m: nat, v: nat, rest: seq<bool>)
    requires 1 <= m <= MaxOnes(big) && v < Pow2(m + 1)
    ensures ParseLen(big, Unary(m) + Numeral(v, m + 1) + rest) == Item(Pow2(m + 1) + v, rest)
  {
    hide *;
    var tag := Unary(m);
    UnaryIs(m);
    FieldRoundTrip(tag, v, m + 1, Pow2(m + 1), rest);
    var bits := tag + Numeral(v, m + 1) + rest;
    assert bits[m] == tag[m];
    assert Ones(bits) == m;
    ParseLenIs(big, bits, m);
  }

  lemma {:induction false} UnaryIs(m: nat)
    ensures |Unary(m)| == m + 1 && !Unary(m)[m] && forall j :: 0 <= j < m ==> Unary(m)[j]
  {
  }

  lemma {:induction false} ParseLenIs(big: bool, bits: seq<bool>, m: nat)
    requires Ones(bits) == m && 1 <= m <= MaxOnes(big)
    ensures ParseLen(big, bits) == Field(bits, m + 1, m + 1, Pow2(m + 1))
  {
    hide Field, Pow2;
  }

  lemma {:induction false} LenRoundTrip(big: bool, len: nat, rest: seq<bool>)
    requires 3 <= len < Pow2(MaxOnes(big) + 2)
    ensures ParseLen(big, LenCode(len) + rest) == Item(len, rest)
  {
    hide ParseLen;
    if len == 3 {
      ShortLenParses(big, rest);
    } else {
      LongLenRoundTrip(big, len, rest);
    }
  }

  lemma {:induction false} LongLenRoundTrip(big: bool, len: nat, rest: seq<bool>)
    requires 3 < len < Pow2(MaxOnes(big) + 2)
    ensures ParseLen(big, LenCode(len) + rest) == Item(len, rest)
  {
    hide *;
    LenExponent(big, len);
    var e := Log2(len);
    LongLenCode(len, e);
    LongLenParses(big, e - 1, len - Pow2(e), rest);
  }

  lemma {:induction false} ShortLenParses(big: bool, rest: seq<bool>)
    ensures ParseLen(big, [false] + rest) == Item(3, rest)
  {
    assert ([false] + rest)[1..] == rest;
  }

  lemma {:induction false} LongLenCode(len: nat, e: nat)
    requires len > 3 && e == Log2(len)
    ensures e > 0 && LenCode(len) == Unary(e - 1) + Numeral(len - Pow2(e), e)
  {
  }

  lemma {:induction false} MatchRoundTrip(big: bool, dist: nat, len: nat, rest: seq<bool>)
    requires 3 <= len < Pow2(MaxOnes(big) + 2)
    requires dist < if big then 2368 + 65536 else 320 + 8192
    ensures ParseToken(big, Code(big, Match(dist, len)) + rest) == Item(Match(dist, len), rest)
  {
    var dc, lc := DistCode(big, dist), LenCode(len);
    LenRoundTrip(big, len, rest);
    DistRoundTrip(big, dist, lc + rest);
    AfterTag(dc, lc, rest);
    assert ParseToken(big, [true, true] + dc + lc + rest) == ParseMatch(big, dc + (lc + rest));
  }

  lemma {:induction false} AfterTag(a: seq<bool>, b: seq<bool>, c: seq<bool>)
    ensures ([true, true] + a + b + c)[2..] == a + (b + c)
  {
  }

  lemma {:induction false} LiteralRoundTrip(big: bool, b: byte, rest: seq<bool>)
    ensures ParseToken(big, Code(big, Literal(b)) + rest) == Item(Literal(b), rest)
  {
    assert Pow2(8) == 256 && Pow2(7) == 128;
    if b < 128 {
      FieldRoundTrip([], b, 8, 0, rest);
      assert [] + Numeral(b, 8) == Numeral(b, 8);
      TopBitClear(b);
    } else {
      FieldRoundTrip([true, false], b - 128, 7, 128, rest);
    }
  }

  /** The code is a prefix code: parsing returns the token and what follows it. */
  lemma {:induction false} TokenRoundTrip(big: bool, off: nat, t: Token, rest: seq<bool>)
    requires ValidToken(big, off, t) && off <= DICT_SIZE
    ensures ParseToken(big, Code(big, t) + rest) == Item(t, rest)
  {
    match t
    case Literal(b) => LiteralRoundTrip(big, b, rest);
    case Match(dist, len) => MatchRoundTrip(big, dist, len, rest);
  }

  lemma {:induction false} TopBitClear(b: byte)
    requires b < 128
    ensures !Numeral(b, 8)[0]
  {
    ValueNumeral(b, 8);
    var n := Numeral(b, 8);
    ValueConcat(n[..1], n[1..]);
    assert n[..1] + n[1..] == n;
    assert Pow2(7) == 128 && Value(n[..1]) == if n[0] then 1 else 0;
  }
}
