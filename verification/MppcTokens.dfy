/** The MPPC token code as numbers, the bit strings that are read as tokens, and what a
    token does in every case. */
module MppcTokens {
  import opened Bits
  import opened MppcCode
  import opened MppcReplay

  // ---------- the code as numbers ----------

  /** The bit at place i of a numeral of n bits, the highest first. */
  lemma {:induction false} NumeralAt(v: nat, n: nat, i: nat)
    requires i < n
    ensures Numeral(v, n)[i] <==> v / Pow2(n - 1 - i) % 2 == 1
    decreases n
  {
    hide *;
    NumeralIs(v, n);
    if i < n - 1 {
      NumeralAt(v / 2, n - 1, i);
      HalfThenPower(v, n - 2 - i);
    } else {
      assert Pow2(0) == 1 by { PowerIs(0); }
      assert v / 1 == v;
    }
  }

  lemma {:induction false} NumeralIs(v: nat, n: nat)
    requires n > 0
    ensures Numeral(v, n) == Numeral(v / 2, n - 1) + [v % 2 == 1]
  {
  }

  lemma {:induction false} PowerIs(n: nat)
    ensures Pow2(0) == 1 && Pow2(n + 1) == 2 * Pow2(n)
  {
  }

  lemma {:induction false} HalfThenPower(v: nat, k: nat)
    ensures v / 2 / Pow2(k) == v / Pow2(k + 1)
  {
    PowerIs(k);
    var p := Pow2(k);
    hide *;
    var q, r := v / 2 / p, v / 2 % p;
    assert v / 2 == q * p + r;
    assert q * (2 * p) == 2 * (q * p);
    DivisionUnique(v, 2 * p, q, 2 * r + v % 2);
  }

  /** A byte below 128 is sent as it is, any other as nine bits. */
  lemma {:induction false} LiteralNumber(big: bool, b: byte)
    ensures Code(big, Literal(b)) == if b < 128 then Numeral(b, 8) else Numeral(128 + (b as int), 9)
  {
    if b >= 128 {
      Tagged(2, 2, b - 128, 7);
      TwoBits(true, false, 2);
      Powers();
      hide Numeral, Pow2;
    }
  }

  lemma {:induction false} Powers()
    ensures Pow2(1) == 2 && Pow2(2) == 4 && Pow2(6) == 64 && Pow2(7) == 128 && Pow2(8) == 256
    ensures Pow2(11) == 2048 && Pow2(13) == 8192 && Pow2(16) == 65536
  {
  }

  /** Numerals one after the other. */
  lemma {:induction false} Tagged(t: nat, m: nat, v: nat, n: nat)
    requires v < Pow2(n)
    ensures Numeral(t, m) + Numeral(v, n) == Numeral(t * Pow2(n) + v, m + n)
    decreases n
  {
    hide *;
    if n == 0 {
      PowerIs(0);
      NumeralNothing(v);
      assert t * 1 == t && Numeral(t, m) + [] == Numeral(t, m);
    } else {
      PowerIs(n - 1);
      var p := Pow2(n - 1);
      Tagged(t, m, v / 2, n - 1);
      NumeralIs(v, n);
      NumeralIs(t * Pow2(n) + v, m + n);
      assert t * (2 * p) == 2 * (t * p);
      assert Numeral(t, m) + (Numeral(v / 2, n - 1) + [v % 2 == 1]) == Numeral(t, m) + Numeral(v / 2, n - 1) + [v % 2 == 1];
    }
  }

  lemma {:induction false} NumeralNothing(v: nat)
    ensures Numeral(v, 0) == []
  {
  }

  lemma {:induction false} TwoBits(a: bool, b: bool, t: nat)
    requires t == (if a then 2 else 0) + (if b then 1 else 0)
    ensures [a, b] == Numeral(t, 2) && [a] == Numeral(t / 2, 1)
  {
    hide *;
    NumeralIs(t, 2);
    NumeralIs(t / 2, 1);
    NumeralNothing(t / 2 / 2);
    assert [] + [a] == [a] && [a] + [b] == [a, b];
  }

  lemma {:induction false} ThreeBits(a: bool, b: bool, c: bool, t: nat)
    requires t == (if a then 4 else 0) + (if b then 2 else 0) + (if c then 1 else 0)
    ensures [a, b, c] == Numeral(t, 3)
  {
    hide *;
    NumeralIs(t, 3);
    TwoBits(a, b, t / 2);
    assert [a, b] + [c] == [a, b, c];
  }

  /** The 64K code's distances: nine, eleven, thirteen or seventeen bits. */
  lemma {:induction false} DistNumberBig(d: nat)
    requires d < 67904
    ensures DistCode(true, d) ==
              if d < 64 then Numeral(448 + d, 9) else if d < 320 then Numeral(1472 + d, 11)
              else if d < 2368 then Numeral(3776 + d, 13) else Numeral(d - 2368, 17)
  {
    Powers();
    DistIs(true, d);
    hide *;
    if d < 64 {
      ThreeBits(true, true, true, 7);
      Tagged(7, 3, d, 6);
    } else if d < 320 {
      ThreeBits(true, true, false, 6);
      Tagged(6, 3, d - 64, 8);
    } else if d < 2368 {
      TwoBits(true, false, 2);
      Tagged(2, 2, d - 320, 11);
    } else {
      TwoBits(false, false, 0);
      Tagged(0, 1, d - 2368, 16);
    }
  }

  /** The 8K code's: eight, ten or fourteen. */
  lemma {:induction false} DistNumberSmall(d: nat)
    requires d < 8512
    ensures DistCode(false, d) == if d < 64 then Numeral(192 + d, 8) else if d < 320 then Numeral(448 + d, 10) else Numeral(d - 320, 14)
  {
    Powers();
    DistIs(false, d);
    hide *;
    if d < 64 {
      TwoBits(true, true, 3);
      Tagged(3, 2, d, 6);
    } else if d < 320 {
      TwoBits(true, false, 2);
      Tagged(2, 2, d - 64, 8);
    } else {
      TwoBits(false, false, 0);
      Tagged(0, 1, d - 320, 13);
    }
  }

  lemma {:induction false} DistIs(big: bool, d: nat)
    ensures d < 64 ==> DistCode(big, d) == (if big then [true, true, true] else [true, true]) + Numeral(d, 6)
    ensures 64 <= d < 320 ==> DistCode(big, d) == (if big then [true, true, false] else [true, false]) + Numeral(d - 64, 8)
    ensures big && 320 <= d < 2368 ==> DistCode(big, d) == [true, false] + Numeral(d - 320, 11)
    ensures big && d >= 2368 ==> DistCode(big, d) == [false] + Numeral(d - 2368, 16)
    ensures !big && d >= 320 ==> DistCode(big, d) == [false] + Numeral(d - 320, 13)
  {
    hide Numeral;
  }

  /** Three is one zero bit; a length from p on and below 2p, where p is the e-th power of
      two, is 2e bits: e - 1 ones, a zero, and what it is above p. */
  lemma {:induction false} LengthNumber(len: nat, e: nat, p: nat)
    requires e >= 2 && p == Pow2(e) && p <= len < 2 * p
    ensures LenCode(3) == [false]
    ensures 0 <= p * p - 3 * p && LenCode(len) == Numeral(p * p - 3 * p + len, 2 * e)
  {
    hide *;
    Powers();
    Pow2Monotone(2, e);
    LogIs(len, e);
    LenIs(len, e);
    OnesNumber(e - 1);
    var h := Pow2(e - 1);
    PowerIs(e - 1);
    Tagged(2 * h - 2, e, len - p, e);
    assert (2 * h - 2) * p + (len - p) == p * p - 3 * p + len;
    MulAtLeast(p - 3, p);
    assert (p - 3) * p == p * p - 3 * p;
  }

  lemma {:induction false} LogIs(n: nat, e: nat)
    requires n > 0 && Pow2(e) <= n < 2 * Pow2(e)
    ensures Log2(n) == e
  {
    PowerIs(e);
    PowerIs(Log2(n));
    var f := Log2(n);
    assert Pow2(f) <= n < Pow2(f + 1);
    hide Pow2, Log2;
    if f < e { Pow2Monotone(f + 1, e); }
    if e < f { Pow2Monotone(e + 1, f); }
  }

  lemma {:induction false} LenIs(len: nat, e: nat)
    requires len > 3 && e == Log2(len) && e >= 1
    ensures LenCode(3) == [false]
    ensures Pow2(e) <= len && LenCode(len) == Unary(e - 1) + Numeral(len - Pow2(e), e)
  {
    hide Numeral, Unary, Pow2;
  }

  lemma {:induction false} OnesNumber(m: nat)
    ensures Unary(m) == Numeral(2 * Pow2(m) - 2, m + 1)
  {
    hide *;
    UnaryIs(m);
    PowerIs(m);
    if m == 0 {
      NumeralIs(0, 1);
      NumeralNothing(0);
      assert Unary(0) == [false] && [] + [false] == [false];
    } else {
      OnesNumber(m - 1);
      PowerIs(m - 1);
      AllOnes(m, Pow2(m) - 1);
      NumeralIs(2 * Pow2(m) - 2, m + 1);
      assert (2 * Pow2(m) - 2) / 2 == Pow2(m) - 1 && (2 * Pow2(m) - 2) % 2 == 0;
      assert Unary(m) == Unary(m)[..m] + [false];
      assert Unary(m)[..m] == Numeral(Pow2(m) - 1, m);
    }
  }

  lemma {:induction false} AllOnes(m: nat, v: nat)
    requires v == Pow2(m) - 1
    ensures forall j :: 0 <= j < m ==> Numeral(v, m)[j]
  {
    hide *;
    if m > 0 {
      PowerIs(m - 1);
      NumeralIs(v, m);
      AllOnes(m - 1, v / 2);
    }
  }

  // ---------- reading is exactly the code ----------

  /** What the code can say. */
  ghost predicate Expressible(big: bool, t: Token) {
    t.Match? ==> if big then 3 <= t.len < 65536 && t.dist < 67904 else 3 <= t.len < 8192 && t.dist < 8512
  }

  /** A token is read exactly where its code stands, and what follows it is what is left;
      the end is read exactly where fewer than eight zeros are left; all else is malformed. */
  lemma {:induction false} ReadsExactly(big: bool, bits: seq<bool>, t: Token, rest: seq<bool>)
    ensures ParseToken(big, bits) == Item(t, rest) <==> Expressible(big, t) && bits == Code(big, t) + rest
    ensures ParseToken(big, bits) == End <==> |bits| < 8 && forall i :: 0 <= i < |bits| ==> !bits[i]
  {
    hide *;
    if Expressible(big, t) && bits == Code(big, t) + rest {
      ExpressibleReads(big, t, rest);
    }
    if ParseToken(big, bits) == Item(t, rest) {
      ReadIsCode(big, bits);
    }
    EndIff(big, bits);
  }

  lemma {:induction false} ExpressibleReads(big: bool, t: Token, rest: seq<bool>)
    requires Expressible(big, t)
    ensures ParseToken(big, Code(big, t) + rest) == Item(t, rest)
  {
    LongestLength(big);
    hide Code, ParseToken, MaxOnes, Pow2;
    match t
    case Literal(b) => LiteralRoundTrip(big, b, rest);
    case Match(dist, len) => MatchRoundTrip(big, dist, len, rest);
  }

  lemma {:induction false} LongestLength(big: bool)
    ensures Pow2(MaxOnes(big) + 2) == if big then 65536 else 8192
  {
    Powers();
    hide Pow2;
  }

  lemma {:induction false} EndIff(big: bool, bits: seq<bool>)
    ensures ParseToken(big, bits) == End <==> |bits| < 8 && forall i :: 0 <= i < |bits| ==> !bits[i]
  {
    ZeroIff(bits);
    hide Value, ParseMatch;
  }

  lemma {:induction false} ZeroIff(bits: seq<bool>)
    ensures Value(bits) == 0 <==> forall i :: 0 <= i < |bits| ==> !bits[i]
  {
    hide *;
    if Value(bits) == 0 {
      NumeralValue(bits);
      NumeralZero(|bits|);
    }
    if forall i :: 0 <= i < |bits| ==> !bits[i] {
      assert bits == Zeros(|bits|);
      ValueZeros(|bits|);
    }
  }

  lemma {:induction false} NumeralZero(n: nat)
    ensures forall i :: 0 <= i < n ==> !Numeral(0, n)[i]
  {
    if n > 0 { NumeralZero(n - 1); }
  }

  /** Whatever is read as a token is that token's code. */
  lemma {:induction false} ReadIsCode(big: bool, bits: seq<bool>)
    requires ParseToken(big, bits).Item?
    ensures var p := ParseToken(big, bits);
            Expressible(big, p.value) && bits == Code(big, p.value) + p.rest
  {
    if !bits[0] {
      LiteralRange(bits);
      LowIsCode(big, bits);
    } else if !bits[1] {
      LiteralRange(bits);
      HighIsCode(big, bits);
    } else {
      MatchIsCode(big, bits);
    }
  }

  lemma {:induction false} LowIsCode(big: bool, bits: seq<bool>)
    requires |bits| >= 8 && !bits[0] && Value(bits[..8]) < 256
    ensures bits == Code(big, Literal(Value(bits[..8]))) + bits[8..]
  {
    NumeralValue(bits[..8]);
    LeadingZero(bits[..8]);
    Powers();
    hide Value, Numeral, Pow2;
    assert bits == bits[..8] + bits[8..];
    assert Value(bits[..8][1..]) < Pow2(7);
  }

  lemma {:induction false} HighIsCode(big: bool, bits: seq<bool>)
    requires |bits| >= 9 && bits[0] && !bits[1] && Value(bits[2..9]) < 128
    ensures bits == Code(big, Literal(128 + Value(bits[2..9]))) + bits[9..]
  {
    NumeralValue(bits[2..9]);
    hide Value, Numeral;
    assert bits == [true, false] + bits[2..9] + bits[9..];
  }

  lemma {:induction false} FieldIsNumeral(bits: seq<bool>, skip: nat, width: nat, base: nat)
    requires Field(bits, skip, width, base).Item?
    ensures var p := Field(bits, skip, width, base);
            base <= p.value < base + Pow2(width) && bits == bits[..skip] + Numeral(p.value - base, width) + p.rest
  {
    NumeralValue(bits[skip..skip + width]);
    hide Value, Numeral;
    assert bits == bits[..skip] + bits[skip..skip + width] + bits[skip + width..];
  }

  lemma {:induction false} DistIsCode(big: bool, bits: seq<bool>)
    requires ParseDist(big, bits).Item?
    ensures var p := ParseDist(big, bits);
            p.value < (if big then 67904 else 8512) && bits == DistCode(big, p.value) + p.rest
  {
    hide *;
    Powers();
    DistFields(big, bits);
    var (skip, width, base) := DistField(big, bits);
    FieldIsNumeral(bits, skip, width, base);
    DistIs(big, ParseDist(big, bits).value);
    if big {
      assert bits[..1] == [bits[0]] && bits[..2] == [bits[0], bits[1]] && bits[..3] == [bits[0], bits[1], bits[2]];
    } else {
      assert bits[..1] == [bits[0]] && bits[..2] == [bits[0], bits[1]];
    }
  }

  /** Where the tag bits say the number is. */
  ghost function DistField(big: bool, bits: seq<bool>): (f: (nat, nat, nat))
    requires |bits| >= if big then 3 else 2
  {
    if big then
      if !bits[0] then (1, 16, 2368) else if !bits[1] then (2, 11, 320) else if !bits[2] then (3, 8, 64) else (3, 6, 0)
    else
      if !bits[0] then (1, 13, 320) else if !bits[1] then (2, 8, 64) else (2, 6, 0)
  }

  lemma {:induction false} DistFields(big: bool, bits: seq<bool>)
    requires ParseDist(big, bits).Item?
    ensures |bits| >= if big then 3 else 2
    ensures var (skip, width, base) := DistField(big, bits); ParseDist(big, bits) == Field(bits, skip, width, base)
    ensures var (skip, width, base) := DistField(big, bits);
            if big then
              if !bits[0] then (skip, width, base) == (1, 16, 2368) else if !bits[1] then (skip, width, base) == (2, 11, 320)
              else if !bits[2] then (skip, width, base) == (3, 8, 64) else (skip, width, base) == (3, 6, 0)
            else
              if !bits[0] then (skip, width, base) == (1, 13, 320) else if !bits[1] then (skip, width, base) == (2, 8, 64) else (skip, width, base) == (2, 6, 0)
  {
    hide Field;
  }

  lemma {:induction false} LenIsCode(big: bool, bits: seq<bool>)
    requires ParseLen(big, bits).Item?
    ensures var p := ParseLen(big, bits);
            3 <= p.value < Pow2(MaxOnes(big) + 2) && bits == LenCode(p.value) + p.rest
  {
    hide *;
    LenFields(big, bits);
    Powers();
    var m := Ones(bits);
    if m == 0 {
      Pow2Monotone(2, MaxOnes(big) + 2);
      assert bits == [false] + bits[1..];
    } else {
      FieldIsNumeral(bits, m + 1, m + 1, Pow2(m + 1));
      PowerIs(m + 1);
      Pow2Monotone(2, m + 1);
      Pow2Monotone(m + 2, MaxOnes(big) + 2);
      var len := ParseLen(big, bits).value;
      LogIs(len, m + 1);
      LenIs(len, m + 1);
      UnaryIs(m);
      assert bits[..m + 1] == Unary(m);
    }
  }

  lemma {:induction false} LenFields(big: bool, bits: seq<bool>)
    requires ParseLen(big, bits).Item?
    ensures var m := Ones(bits);
            && m < |bits| && !bits[m] && m <= MaxOnes(big) && (forall j :: 0 <= j < m ==> bits[j])
            && ParseLen(big, bits) == if m == 0 then Item(3, bits[1..]) else Field(bits, m + 1, m + 1, Pow2(m + 1))
    ensures LenCode(3) == [false]
  {
    hide Pow2, Ones;
    var m := Ones(bits);
    assert m > 0 ==> |bits| >= m + 1;
  }

  lemma {:induction false} MatchIsCode(big: bool, bits: seq<bool>)
    requires |bits| >= 2 && bits[0] && bits[1] && ParseMatch(big, bits[2..]).Item?
    ensures var p := ParseMatch(big, bits[2..]);
            Expressible(big, p.value) && bits == Code(big, p.value) + p.rest
  {
    hide *;
    MatchFields(big, bits[2..]);
    var d := ParseDist(big, bits[2..]);
    DistIsCode(big, bits[2..]);
    var l := ParseLen(big, d.rest);
    LenIsCode(big, d.rest);
    LongestLength(big);
    MatchSaid(big, d.value, l.value);
    Reassemble(bits, DistCode(big, d.value), LenCode(l.value), l.rest);
  }

  lemma {:induction false} MatchFields(big: bool, bits: seq<bool>)
    requires ParseMatch(big, bits).Item?
    ensures var d := ParseDist(big, bits);
            && d.Item? && ParseLen(big, d.rest).Item?
            && ParseMatch(big, bits) == Item(Match(d.value, ParseLen(big, d.rest).value), ParseLen(big, d.rest).rest)
  {
    hide ParseDist, ParseLen;
  }

  lemma {:induction false} MatchSaid(big: bool, dist: nat, len: nat)
    ensures Code(big, Match(dist, len)) == [true, true] + DistCode(big, dist) + LenCode(len)
    ensures Expressible(big, Match(dist, len)) <==> if big then 3 <= len < 65536 && dist < 67904 else 3 <= len < 8192 && dist < 8512
  {
    hide DistCode, LenCode;
  }

  lemma {:induction false} Reassemble(bits: seq<bool>, a: seq<bool>, b: seq<bool>, c: seq<bool>)
    requires |bits| >= 2 && bits[0] && bits[1] && bits[2..] == a + (b + c)
    ensures bits == [true, true] + a + b + c
  {
    assert bits == [true, true] + bits[2..];
  }

  // ---------- one token on the history ----------

  /** When a token can be sent behind a window of off bytes. */
  lemma {:induction false} ValidIff(big: bool, off: nat, t: Token)
    ensures ValidToken(big, off, t) <==>
              if t.Literal? then off < 65536
              else 3 <= t.len && 1 <= t.dist <= off && off + t.len < 65536 && (!big ==> t.len < 8192 && t.dist < 8512 && off - t.dist < 8192)
  {
    LongestLength(big);
    hide Pow2, MaxOnes;
  }

  /** Byte j of a copy that starts at or behind the place it writes to. */
  lemma {:induction false} CopyFromBehind(hist: seq<byte>, to: nat, from: nat, n: nat, j: nat)
    requires to <= from && to + n <= |hist| && from + n <= |hist| && j < n
    ensures CopyBytes(hist, to, from, n)[to + j] == hist[from + j]
    decreases n
  {
    hide *;
    CopyIs(hist, to, from, n);
    var hist' := hist[to := hist[from]];
    if j == 0 {
      CopyKeepsPast(hist', to + 1, from + 1, n - 1);
      assert CopyBytes(hist, to, from, n)[..to + 1][to] == hist'[to];
    } else {
      CopyFromBehind(hist', to + 1, from + 1, n - 1, j - 1);
    }
  }

  lemma {:induction false} CopyIs(hist: seq<byte>, to: nat, from: nat, n: nat)
    requires to + n <= |hist| && from + n <= |hist| && n > 0
    ensures CopyBytes(hist, to, from, n) == CopyBytes(hist[to := hist[from]], to + 1, from + 1, n - 1)
  {
  }

  /** Any token at any place.  A literal is an error on a full history.  A match that would
      fill it is an error before anything is written; its first byte is at the distance
      back, wrapped to 64K or 8K; one that would read over the end stops the program, with
      all there was to read written; and a copy repeats what is before it, or moves what is
      behind it. */
  lemma {:induction false} TokenRuns(big: bool, hist: seq<byte>, off: nat, t: Token, i: nat)
    requires |hist| == 65536 && off <= 65536 && i < 65536
    ensures |hist| == DICT_SIZE
    ensures var r := Exec(big, hist, off, t);
            match t
            case Literal(b) =>
              if off == 65536 then r == Failed(hist)
              else r.Done? && r.off == off + 1 && r.hist[i] == if i == off then b else hist[i]
            case Match(dist, len) =>
              if off + len >= 65536 then r == Failed(hist)
              else
                var k: nat := (off - dist) % (if big then 65536 else 8192);
                var n: nat := if k + len > 65536 then 65536 - k else len;
                && (if k + len > 65536 then r.Trapped? else r.Done? && r.off == off + len)
                && off + n <= 65536
                && (i < off || i >= off + n ==> r.hist[i] == hist[i])
                && (off <= i < off + n ==> r.hist[i] == if k < off then hist[k + (i - off) % (off - k)] else hist[k + (i - off)])
  {
    hide *;
    ExecIs(big, hist, off, t);
    if t.Match? && off + t.len < 65536 {
      var k: nat := (off - t.dist) % (if big then 65536 else 8192);
      CopiedAt(hist, off, k, if k + t.len > 65536 then 65536 - k else t.len, i);
    }
  }

  lemma {:induction false} CopiedAt(hist: seq<byte>, off: nat, k: nat, n: nat, i: nat)
    requires off + n <= |hist| && k + n <= |hist| && i < |hist|
    ensures var h := CopyBytes(hist, off, k, n);
            if i < off || i >= off + n then h[i] == hist[i]
            else if k < off then h[i] == hist[k + (i - off) % (off - k)] else h[i] == hist[k + (i - off)]
  {
    hide *;
    var h := CopyBytes(hist, off, k, n);
    CopyKeepsPast(hist, off, k, n);
    CopyKeepsFuture(hist, off, k, n);
    if i < off {
      assert h[i] == h[..off][i];
    } else if i >= off + n {
      assert h[i] == h[off + n..][i - off - n];
    } else if k < off {
      CopyIsPeriodic(hist, off, off - k, n, i - off);
    } else {
      CopyFromBehind(hist, off, k, n, i - off);
    }
  }

  lemma {:induction false} ExecIs(big: bool, hist: seq<byte>, off: nat, t: Token)
    requires |hist| == 65536 && off <= 65536
    ensures |hist| == DICT_SIZE
    ensures var r := Exec(big, hist, off, t);
            match t
            case Literal(b) => r == if off == 65536 then Failed(hist) else Done(hist[off := b], off + 1)
            case Match(dist, len) =>
              if off + len >= 65536 then r == Failed(hist)
              else
                var k: nat := (off - dist) % (if big then 65536 else 8192);
                var n: nat := if k + len > 65536 then 65536 - k else len;
                off + n <= 65536 && k + n <= 65536 &&
                r == if k + len > 65536 then Trapped(CopyBytes(hist, off, k, n)) else Done(CopyBytes(hist, off, k, n), off + len)
  {
    hide CopyBytes;
  }

  // ---------- packets that fail ----------

  /** The history after valid tokens: their replay in front, and behind it what was there. */
  ghost function After(hist: seq<byte>, off: nat, ts: seq<Token>): (h: seq<byte>)
    requires off <= |hist| && |Replay(hist[..off], ts)| <= |hist|
    ensures |h| == |hist|
  {
    Replay(hist[..off], ts) + hist[|Replay(hist[..off], ts)|..]
  }

  /** Whatever follows valid tokens is run on their replay. */
  lemma {:induction false} RunContinues(big: bool, hist: seq<byte>, off: nat, ts: seq<Token>, rest: seq<bool>)
    requires |hist| == DICT_SIZE && off <= DICT_SIZE && ValidTokens(big, off, ts)
    ensures |Replay(hist[..off], ts)| <= DICT_SIZE
    ensures Expand(big, hist, off, Codes(big, ts) + rest) == Expand(big, After(hist, off, ts), |Replay(hist[..off], ts)|, rest)
    decreases ts
  {
    hide *;
    ReplayIs(hist[..off], ts);
    if ts == [] {
      CodesIs(big, ts, rest);
      AfterIs(hist, off, ts);
      assert hist[..off] + hist[off..] == hist;
    } else {
      var t, later := ts[0], Codes(big, ts[1..]) + rest;
      ValidHead(big, off, ts);
      ExecReplays(big, hist, off, t);
      var s := Exec(big, hist, off, t);
      CodesIs(big, ts, rest);
      TokenRoundTrip(big, off, t, later);
      ExpandStep(big, hist, off, Code(big, t) + later, t, later);
      RunContinues(big, s.hist, s.off, ts[1..], rest);
      ValidAppends(big, off, hist[..off], t);
      var w := Replay(hist[..off], ts);
      ReplayExtends(s.hist[..s.off], ts[1..]);
      AfterIs(hist, off, ts);
      AfterIs(s.hist, s.off, ts[1..]);
      assert s.hist[|w|..] == s.hist[s.off..][|w| - s.off..] && hist[|w|..] == hist[s.off..][|w| - s.off..];
    }
  }

  lemma {:induction false} AfterIs(hist: seq<byte>, off: nat, ts: seq<Token>)
    requires off <= |hist| && |Replay(hist[..off], ts)| <= |hist|
    ensures After(hist, off, ts) == Replay(hist[..off], ts) + hist[|Replay(hist[..off], ts)|..]
  {
  }

  lemma {:induction false} CodesIs(big: bool, ts: seq<Token>, rest: seq<bool>)
    ensures ts == [] ==> Codes(big, ts) + rest == rest
    ensures ts != [] ==> Codes(big, ts) + rest == Code(big, ts[0]) + (Codes(big, ts[1..]) + rest)
  {
    if ts != [] { CodesCons(big, ts, rest); }
  }

  lemma {:induction false} ReplayIs(w: seq<byte>, ts: seq<Token>)
    ensures ts == [] ==> Replay(w, ts) == w
    ensures ts != [] && (ts[0].Match? ==> 1 <= ts[0].dist <= |w|) ==> Replay(w, ts) == Replay(w + Appended(w, ts[0]), ts[1..])
  {
  }

  lemma {:induction false} ValidAppends(big: bool, off: nat, w: seq<byte>, t: Token)
    requires ValidToken(big, off, t) && |w| == off
    ensures t.Match? ==> 1 <= t.dist <= |w|
  {
  }

  /** Behind valid tokens a packet fails on bits that are no token and no end; on a token that
      would fill the history; and stops the program on a match that would be read over its
      end. */
  lemma {:induction false} RunFails(big: bool, hist: seq<byte>, off: nat, ts: seq<Token>, rest: seq<bool>, t: Token, later: seq<bool>)
    requires |hist| == DICT_SIZE && off <= DICT_SIZE && ValidTokens(big, off, ts)
    ensures var r, n := Expand(big, hist, off, Codes(big, ts) + rest), |Replay(hist[..off], ts)|;
            && ((forall u, more :: Expressible(big, u) ==> rest != Code(big, u) + more) && !Padding(rest) ==> r.Failed?)
            && (Expressible(big, t) && rest == Code(big, t) + later ==>
                  && (t.Literal? && n == 65536 ==> r.Failed?)
                  && (t.Match? && n + t.len >= 65536 ==> r.Failed?)
                  && (t.Match? && n + t.len < 65536 < (n - t.dist) % (if big then 65536 else 8192) + t.len ==> r.Trapped?))
  {
    hide *;
    RunContinues(big, hist, off, ts, rest);
    var h, n := After(hist, off, ts), |Replay(hist[..off], ts)|;
    HistorySize();
    if (forall u, more :: Expressible(big, u) ==> rest != Code(big, u) + more) && !Padding(rest) {
      NoToken(big, rest);
      StopsAt(big, h, n, rest);
    }
    if Expressible(big, t) && rest == Code(big, t) + later {
      ReadsExactly(big, rest, t, later);
      ExpandStep(big, h, n, rest, t, later);
      TokenRuns(big, h, n, t, 0);
    }
  }

  lemma {:induction false} HistorySize()
    ensures DICT_SIZE == 65536
  {
  }

  lemma {:induction false} NoToken(big: bool, rest: seq<bool>)
    requires forall u, more :: Expressible(big, u) ==> rest != Code(big, u) + more
    requires !Padding(rest)
    ensures ParseToken(big, rest) == Malformed
  {
    hide *;
    PaddingIff(rest);
    EndIff(big, rest);
    var p := ParseToken(big, rest);
    if p.Item? {
      ReadsExactly(big, rest, p.value, p.rest);
    }
  }

  lemma {:induction false} PaddingIff(rest: seq<bool>)
    ensures Padding(rest) <==> |rest| < 8 && forall i :: 0 <= i < |rest| ==> !rest[i]
  {
    assert forall i :: 0 <= i < |rest| ==> !Zeros(|rest|)[i];
  }

  lemma {:induction false} StopsAt(big: bool, hist: seq<byte>, off: nat, rest: seq<bool>)
    requires |hist| == DICT_SIZE && off <= DICT_SIZE && ParseToken(big, rest) == Malformed
    ensures Expand(big, hist, off, rest).Failed?
  {
    hide ParseToken;
  }
}
