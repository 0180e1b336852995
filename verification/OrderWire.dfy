/** The primary orders byte by byte: which value stands where in each of the sixteen orders,
    how wide it is, and which values are sent as steps. */
module OrderWire {
  import opened Bits
  import opened Wire
  import opened Orders
  import opened OrderStream

  type word = n: nat | n < 0x1_0000

  type color = n: nat | n < 0x100_0000

  type dword = n: nat | n < 0x1_0000_0000

  // ---------- the bytes ----------

  function Le2(v: word): seq<byte> { [v % 0x100, v / 0x100] }

  function Le3(v: color): seq<byte> { [v % 0x100, v / 0x100 % 0x100, v / 0x1_0000] }

  function Le4(v: dword): seq<byte> { [v % 0x100, v / 0x100 % 0x100, v / 0x1_0000 % 0x100, v / 0x100_0000] }

  function Unit(b: bool): nat { if b then 1 else 0 }

  /** The byte of eight bits, the lowest first. */
  function Eight(a: bool, b: bool, c: bool, d: bool, e: bool, f: bool, g: bool, h: bool): byte {
    Unit(a) + 2 * Unit(b) + 4 * Unit(c) + 8 * Unit(d) + 16 * Unit(e) + 32 * Unit(f) + 64 * Unit(g) + 128 * Unit(h)
  }

  /** The value that field k of the last order of the type had. */
  function Was(s: State, t: byte, k: nat): int {
    if t in s.regs && k < |s.regs[t]| && s.regs[t][k].Num? then s.regs[t][k].n else 0
  }

  /** A coordinate: 16 bits, or the step from the last one in 8. */
  function Coord(s: State, t: byte, k: nat, delta: bool, now: int16): seq<byte> {
    if delta then [(now - Was(s, t, k)) % 0x100] else [now % 0x100, now % 0x1_0000 / 0x100]
  }

  /** The step, if steps are sent, fits a signed byte; coordinates wrap around 16 bits. */
  predicate Near(s: State, t: byte, k: nat, delta: bool, now: int16) {
    delta ==> (now - Was(s, t, k) + 128) % 0x1_0000 < 0x100
  }

  /** A text over the start of the buffer that the last order of the type left. */
  function Text(s: State, t: byte, k: nat, text: seq<byte>): Field {
    var last := if t in s.regs && k < |s.regs[t]| && s.regs[t][k].Buf? then s.regs[t][k].buf else [];
    Buf(text + (if |text| <= |last| then last[|text|..] else []), |text|)
  }

  function Join(rows: seq<Row>): seq<byte> {
    if rows == [] then [] else rows[0].bytes + Join(rows[1..])
  }

  /** The flags of n present fields. */
  function AllSet(n: nat): (flags: seq<bool>)
    requires n <= 32
    ensures |flags| == 32
  {
    seq(32, k => k < n)
  }

  /** A value and the bytes that send it. */
  datatype Row = Row(value: Field, bytes: seq<byte>)

  // a byte, a word, a double word, a colour, seven bytes, a position, a text
  function B(v: byte): Row { Row(Num(v), [v]) }

  function W(v: word): Row { Row(Num(v), Le2(v)) }

  function D(v: dword): Row { Row(Num(v), Le4(v)) }

  function C(v: color): Row { Row(Num(v), Le3(v)) }

  function X(v: seq<byte>): Row { Row(Buf(v, 7), v) }

  function P(s: State, t: byte, k: nat, delta: bool, v: int16): Row { Row(Num(v), Coord(s, t, k, delta, v)) }

  function T(s: State, t: byte, k: nat, v: seq<byte>): Row
    requires |v| < 256
  {
    Row(Text(s, t, k, v), [|v|] + v)
  }

  function Values(rows: seq<Row>): (fields: seq<Field>)
    ensures |fields| == |rows|
  {
    seq(|rows|, k requires 0 <= k < |rows| => rows[k].value)
  }

  /** Wherever the head and then the rows' bytes stand in the data, decoding delivers the
      rows' values, under the bounds last set, and remembers them. */
  ghost predicate Decodes(s: State, t: byte, head: seq<byte>, rows: seq<Row>)
    requires Valid(s)
  {
    |rows| <= 32 && forall data, off: nat :: off < |data| && At(data, off, head + Join(rows)) ==>
      DecodeOne(s, data, off) ==
        Outcome(s.(last := t, regs := s.regs[t := Values(rows)]), off + |head| + |Join(rows)|,
                [Primary(t, AllSet(|rows|), false, Values(rows), s.bounds)])
  }

  // ---------- one field ----------

  ghost predicate IsKind(s: State, t: byte, k: nat, kind: Kind) {
    t in s.regs && k < |Schema(t)| == |s.regs[t]| && Schema(t)[k] == kind && Fits(kind, s.regs[t][k])
  }

  ghost predicate Count(s: State, t: byte, n: nat) { t in s.regs && |Schema(t)| == |s.regs[t]| == n > 0 }

  lemma {:induction false} KindCount(s: State, t: byte)
    requires Valid(s) && Schema(t) != []
    ensures Count(s, t, |Schema(t)|)
  {
    hide Schema, Fits;
  }

  lemma {:induction false} KindAt(s: State, t: byte, k: nat, kind: Kind)
    requires Valid(s) && k < |Schema(t)| && Schema(t)[k] == kind
    ensures IsKind(s, t, k, kind)
  {
    hide Schema, Fits;
  }

  /** Field k can be sent with the value, and the bytes are those that say so. */
  ghost predicate Right(s: State, t: byte, k: nat, delta: bool, row: Row) {
    && t in s.regs && k < |Schema(t)| == |s.regs[t]| && LegalField(Schema(t)[k], s.regs[t][k], row.value, delta)
    && EncodeField(Schema(t)[k], s.regs[t][k], row.value, delta) == row.bytes
  }

  lemma {:induction false} ByteRow(s: State, t: byte, k: nat, delta: bool, v: byte)
    requires IsKind(s, t, k, U8)
    ensures Right(s, t, k, delta, B(v))
  {
    hide Schema;
  }

  lemma {:induction false} WordRow(s: State, t: byte, k: nat, delta: bool, v: word)
    requires IsKind(s, t, k, U16)
    ensures Right(s, t, k, delta, W(v))
  {
    hide Schema;
  }

  lemma {:induction false} DwordRow(s: State, t: byte, k: nat, delta: bool, v: dword)
    requires IsKind(s, t, k, U32)
    ensures Right(s, t, k, delta, D(v))
  {
    hide Schema;
    DwordBytes(v);
    hide Le4, PutLe32;
  }

  lemma {:induction false} DwordBytes(v: dword)
    ensures PutLe32(v) == Le4(v)
  {
    var low, high := v % 0x1_0000, v / 0x1_0000;
    assert PutLe32(v) == PutLe16(low) + PutLe16(high);
    var q := v / 0x100;
    var low': nat := q % 0x100 * 0x100 + v % 0x100;
    assert v == q * 0x100 + v % 0x100 && q == q / 0x100 * 0x100 + q % 0x100;
    DivisionUnique(v, 0x1_0000, q / 0x100, low');
    DivisionUnique(low, 0x100, q % 0x100, v % 0x100);
    DivisionUnique(v, 0x100_0000, high / 0x100, high % 0x100 * 0x1_0000 + low);
  }

  lemma {:induction false} ColorRow(s: State, t: byte, k: nat, delta: bool, v: color)
    requires IsKind(s, t, k, Color)
    ensures Right(s, t, k, delta, C(v))
  {
    hide Schema;
    ColorBytes(v);
    hide Le3, PutLe16;
  }

  lemma {:induction false} ColorBytes(v: color)
    ensures PutLe16(v % 0x1_0000) + [v / 0x1_0000] == Le3(v)
  {
    var q := v / 0x100;
    var low: nat := q % 0x100 * 0x100 + v % 0x100;
    assert v == q * 0x100 + v % 0x100 && q == q / 0x100 * 0x100 + q % 0x100;
    DivisionUnique(v, 0x1_0000, q / 0x100, low);
    DivisionUnique(low, 0x100, q % 0x100, v % 0x100);
  }

  lemma {:induction false} CoordRow(s: State, t: byte, k: nat, delta: bool, v: int16)
    requires IsKind(s, t, k, I16) && Near(s, t, k, delta, v)
    ensures Right(s, t, k, delta, P(s, t, k, delta, v))
  {
    WasIs(s, t, k);
    hide Schema, LegalField, EncodeField, Fits, Was;
    CoordField(s.regs[t][k], delta, v);
  }

  lemma {:induction false} WasIs(s: State, t: byte, k: nat)
    requires IsKind(s, t, k, I16)
    ensures s.regs[t][k].Num? && -32768 <= s.regs[t][k].n <= 32767 && Was(s, t, k) == s.regs[t][k].n
  {
    hide Schema;
  }

  lemma {:induction false} CoordField(last: Field, delta: bool, v: int16)
    requires last.Num? && -32768 <= last.n <= 32767 && (delta ==> (v - last.n + 128) % 0x1_0000 < 0x100)
    ensures LegalField(I16, last, Num(v), delta)
    ensures EncodeField(I16, last, Num(v), delta) == if delta then [(v - last.n) % 0x100] else [v % 0x100, v % 0x1_0000 / 0x100]
  {
    if delta {
      StepBytes(last.n, v);
      hide StepByte, Reachable;
    }
  }

  lemma {:induction false} StepBytes(was: int16, now: int16)
    requires (now - was + 128) % 0x1_0000 < 0x100
    ensures Reachable(was, now) && StepByte(was, now) == (now - was) % 0x100
  {
    var d := now - was;
    assert d < -32768 || -32768 <= d <= 32767 || d > 32767;
    assert Wrap16(d) == if d < -32768 then d + 65536 else if d > 32767 then d - 65536 else d;
    hide Wrap16;
  }

  lemma {:induction false} ExtraRow(s: State, t: byte, k: nat, delta: bool, v: seq<byte>)
    requires IsKind(s, t, k, Extra) && |v| == 7
    ensures Right(s, t, k, delta, X(v))
  {
    hide Schema;
  }

  lemma {:induction false} TextRow(s: State, t: byte, k: nat, delta: bool, v: seq<byte>)
    requires IsKind(s, t, k, Var) && |v| < 256
    ensures Right(s, t, k, delta, T(s, t, k, v))
  {
    hide Schema;
    var f := Text(s, t, k, v);
    assert f.buf[..|v|] == v && f.buf[|v|..] == s.regs[t][k].buf[|v|..];
  }

  // ---------- all fields ----------

  /** The rows are right from field k on. */
  ghost predicate AllRight(s: State, t: byte, k: nat, delta: bool, rows: seq<Row>) {
    forall i :: 0 <= i < |rows| ==> Right(s, t, k + i, delta, rows[i])
  }

  lemma {:induction false} RowsConcat(s: State, t: byte, k: nat, delta: bool, a: seq<Row>, b: seq<Row>)
    requires AllRight(s, t, k, delta, a) && AllRight(s, t, k + |a|, delta, b)
    ensures AllRight(s, t, k, delta, a + b)
  {
    hide Right;
    forall i | 0 <= i < |a + b| ensures Right(s, t, k + i, delta, (a + b)[i]) {
      if i >= |a| {
        assert Right(s, t, k + |a| + (i - |a|), delta, b[i - |a|]);
      }
    }
  }

  lemma {:induction false} Rows1(s: State, t: byte, k: nat, delta: bool, a: Row)
    requires Right(s, t, k, delta, a)
    ensures AllRight(s, t, k, delta, [a])
  {
    hide Right;
  }

  lemma {:induction false} Rows2(s: State, t: byte, k: nat, delta: bool, a: Row, b: Row)
    requires Right(s, t, k, delta, a) && Right(s, t, k + 1, delta, b)
    ensures AllRight(s, t, k, delta, [a, b])
  {
    hide Right;
  }

  lemma {:induction false} Rows3(s: State, t: byte, k: nat, delta: bool, a: Row, b: Row, c: Row)
    requires Right(s, t, k, delta, a) && Right(s, t, k + 1, delta, b) && Right(s, t, k + 2, delta, c)
    ensures AllRight(s, t, k, delta, [a, b, c])
  {
    hide Right;
  }

  lemma {:induction false} Rows4(s: State, t: byte, k: nat, delta: bool, a: Row, b: Row, c: Row, d: Row)
    requires Right(s, t, k, delta, a) && Right(s, t, k + 1, delta, b) && Right(s, t, k + 2, delta, c) && Right(s, t, k + 3, delta, d)
    ensures AllRight(s, t, k, delta, [a, b, c, d])
  {
    hide Right;
  }

  /** The flag bytes of n present fields. */
  ghost predicate FullFlags(n: nat, bytes: seq<byte>) {
    n <= 24 && |bytes| == FlagByteCount(n) && FlagBytes(Flags(seq(n, _ => true)), |bytes|) == bytes
  }

  lemma {:induction false} FullIs(n: nat, bytes: seq<byte>)
    requires 0 < n <= 24 && |bytes| == (n + 7) / 8
    requires forall j :: 0 <= j < |bytes| - 1 ==> bytes[j] == 0xFF
    requires bytes[|bytes| - 1] == LowValue(seq(8, k => k < n - 8 * (|bytes| - 1))) && LowValue(seq(8, k => k < 8)) == 0xFF
    ensures FullFlags(n, bytes)
  {
    assert Flags(seq(n, _ => true)) == AllSet(n);
    AllSetBytes(n, 0, |bytes|, bytes);
    assert AllSet(n)[0..] == AllSet(n) && bytes[0..] == bytes;
  }

  lemma {:induction false} AllSetBytes(n: nat, j: nat, m: nat, bytes: seq<byte>)
    requires 0 < n <= 24 && j <= m == |bytes| == (n + 7) / 8
    requires forall i :: 0 <= i < m - 1 ==> bytes[i] == 0xFF
    requires bytes[m - 1] == LowValue(seq(8, k => k < n - 8 * (m - 1))) && LowValue(seq(8, k => k < 8)) == 0xFF
    ensures 8 * j <= 32 && FlagBytes(AllSet(n)[8 * j..], m - j) == bytes[j..]
    decreases m - j
  {
    hide LowValue;
    if j < m {
      AllSetBytes(n, j + 1, m, bytes);
      var rest := AllSet(n)[8 * j..];
      assert rest[8..] == AllSet(n)[8 * (j + 1)..];
      assert rest[..8] == seq(8, k => k < n - 8 * j);
      if j < m - 1 { assert rest[..8] == seq(8, k => k < 8); }
      assert ByteOf(rest[..8]) == bytes[j];
      assert bytes[j..] == [bytes[j]] + bytes[j + 1..];
    }
  }

  /** k ones and then zeros, low bit first. */
  lemma {:induction false} LowOnes(k: nat)
    requires k <= 8
    ensures LowValue(seq(8, i => i < k)) ==
              if k == 0 then 0 else if k == 1 then 1 else if k == 2 then 3 else if k == 3 then 7 else if k == 4 then 15
              else if k == 5 then 31 else if k == 6 then 63 else if k == 7 then 127 else 255
  {
    OnesValue(8, k);
  }

  lemma {:induction false} OnesValue(n: nat, k: nat)
    requires k <= n
    ensures LowValue(seq(n, i => i < k)) == Pow2(k) - 1
  {
    var bits := seq(n, i => i < k);
    if n > 0 {
      if k > 0 {
        assert bits[1..] == seq(n - 1, i => i < k - 1);
        OnesValue(n - 1, k - 1);
      } else {
        assert bits[1..] == seq(n - 1, i => i < 0);
        OnesValue(n - 1, 0);
      }
    }
  }

  lemma {:induction false} Full5()
    ensures FullFlags(5, [0x1F])
  {
    hide *;
    LowOnes(8);
    LowOnes(5);
    FullIs(5, [0x1F]);
  }

  lemma {:induction false} Full6()
    ensures FullFlags(6, [0x3F])
  {
    hide *;
    LowOnes(8);
    LowOnes(6);
    FullIs(6, [0x3F]);
  }

  lemma {:induction false} Full7()
    ensures FullFlags(7, [0x7F])
  {
    hide *;
    LowOnes(8);
    LowOnes(7);
    FullIs(7, [0x7F]);
  }

  lemma {:induction false} Full9()
    ensures FullFlags(9, [0xFF, 0x01])
  {
    hide *;
    LowOnes(8);
    LowOnes(1);
    FullIs(9, [0xFF, 0x01]);
  }

  lemma {:induction false} Full10()
    ensures FullFlags(10, [0xFF, 0x03])
  {
    hide *;
    LowOnes(8);
    LowOnes(2);
    FullIs(10, [0xFF, 0x03]);
  }

  lemma {:induction false} Full12()
    ensures FullFlags(12, [0xFF, 0x0F])
  {
    hide *;
    LowOnes(8);
    LowOnes(4);
    FullIs(12, [0xFF, 0x0F]);
  }

  lemma {:induction false} Full13()
    ensures FullFlags(13, [0xFF, 0x1F])
  {
    hide *;
    LowOnes(8);
    LowOnes(5);
    FullIs(13, [0xFF, 0x1F]);
  }

  lemma {:induction false} Full15()
    ensures FullFlags(15, [0xFF, 0x7F])
  {
    hide *;
    LowOnes(8);
    LowOnes(7);
    FullIs(15, [0xFF, 0x7F]);
  }

  lemma {:induction false} Full17()
    ensures FullFlags(17, [0xFF, 0xFF, 0x01])
  {
    hide *;
    LowOnes(8);
    LowOnes(1);
    FullIs(17, [0xFF, 0xFF, 0x01]);
  }

  lemma {:induction false} Full22()
    ensures FullFlags(22, [0xFF, 0xFF, 0x3F])
  {
    hide *;
    LowOnes(8);
    LowOnes(6);
    FullIs(22, [0xFF, 0xFF, 0x3F]);
  }

  /** An order that sends all its fields. */
  function FullOrder(t: byte, delta: bool, fields: seq<Field>): Order {
    Draw(t, fields, seq(|fields|, _ => true), delta, true, false, false, Unbounded)
  }

  /** The control byte: standard, with the type, and with steps if delta. */
  lemma {:induction false} ControlByte(t: byte, delta: bool, fields: seq<Field>)
    ensures ByteOf(Control(FullOrder(t, delta, fields))) == if delta then 0x19 else 0x09
  {
    ControlBits(t, delta, fields);
    EightBits(true, false, false, true, delta, false, false, false);
    hide Control, ByteOf, FullOrder;
  }

  lemma {:induction false} ControlBits(t: byte, delta: bool, fields: seq<Field>)
    ensures Control(FullOrder(t, delta, fields)) == [true, false, false, true, delta, false, false, false]
  {
  }

  /** The byte that eight bits make. */
  lemma {:induction false} EightBits(a: bool, b: bool, c: bool, d: bool, e: bool, f: bool, g: bool, h: bool)
    ensures ByteOf([a, b, c, d, e, f, g, h]) == Eight(a, b, c, d, e, f, g, h)
  {
    FourBits(e, f, g, h, []);
    FourBits(a, b, c, d, [e, f, g, h]);
    assert [e, f, g, h] + [] == [e, f, g, h] && [a, b, c, d] + [e, f, g, h] == [a, b, c, d, e, f, g, h];
    assert ByteOf([a, b, c, d, e, f, g, h]) == LowValue([a, b, c, d, e, f, g, h]) && LowValue([]) == 0;
    hide LowValue, Unit;
  }

  lemma {:induction false} FourBits(a: bool, b: bool, c: bool, d: bool, rest: seq<bool>)
    ensures LowValue([a, b, c, d] + rest) == Unit(a) + 2 * Unit(b) + 4 * Unit(c) + 8 * Unit(d) + 16 * LowValue(rest)
  {
    hide *;
    LowValueCons(a, [b, c, d] + rest);
    LowValueCons(b, [c, d] + rest);
    LowValueCons(c, [d] + rest);
    LowValueCons(d, rest);
    assert [a] + ([b, c, d] + rest) == [a, b, c, d] + rest && [b] + ([c, d] + rest) == [b, c, d] + rest && [c] + ([d] + rest) == [c, d] + rest;
  }

  lemma {:induction false} LowValueCons(a: bool, bits: seq<bool>)
    ensures LowValue([a] + bits) == Unit(a) + 2 * LowValue(bits) && LowValue([]) == 0
  {
    assert ([a] + bits)[1..] == bits;
  }

  lemma {:induction false} LegalFull(s: State, t: byte, delta: bool, rows: seq<Row>)
    requires Valid(s) && Count(s, t, |rows|) && |rows| <= 24 && AllRight(s, t, 0, delta, rows)
    ensures var fields := Values(rows); Legal(s, FullOrder(t, delta, fields)) && LegalFields(Schema(t), s.regs[t], fields, seq(|fields|, _ => true), delta)
  {
    hide Schema, LegalField, EncodeField, FlagBytesSent;
    var fields := Values(rows);
    forall k | 0 <= k < |fields| ensures LegalField(Schema(t)[k], s.regs[t][k], fields[k], delta) {
      assert Right(s, t, 0 + k, delta, rows[k]);
    }
    SentAll(t, delta, fields);
  }

  lemma {:induction false} SentAll(t: byte, delta: bool, fields: seq<Field>)
    ensures FlagBytesSent(|fields|, Control(FullOrder(t, delta, fields))) == FlagByteCount(|fields|)
    ensures 8 * FlagByteCount(|fields|) >= |fields|
  {
  }

  lemma {:induction false} FieldsJoin(s: State, t: byte, i: nat, delta: bool, rows: seq<Row>)
    requires Count(s, t, |rows|) && i <= |rows| && AllRight(s, t, 0, delta, rows)
    requires LegalFields(Schema(t), s.regs[t], Values(rows), seq(|rows|, _ => true), delta)
    ensures EncodeFields(Schema(t), i, s.regs[t], Values(rows), seq(|rows|, _ => true), delta) == Join(rows[i..])
    decreases |rows| - i
  {
    hide Schema, LegalField, EncodeField;
    if i < |rows| {
      FieldsJoin(s, t, i + 1, delta, rows);
      assert Right(s, t, 0 + i, delta, rows[i]);
      assert rows[i..] == [rows[i]] + rows[i + 1..];
    }
  }

  lemma {:induction false} AllFields(s: State, t: byte, delta: bool, rows: seq<Row>, flagBytes: seq<byte>)
    requires Valid(s) && Count(s, t, |rows|) && FullFlags(|rows|, flagBytes) && AllRight(s, t, 0, delta, rows)
    ensures Decodes(s, t, [if delta then 0x19 else 0x09, t] + flagBytes, rows)
  {
    hide *;
    var fields := Values(rows);
    FullSize(|rows|, flagBytes);
    LegalFull(s, t, delta, rows);
    var o, head := FullOrder(t, delta, fields), [if delta then 0x19 else 0x09, t] + flagBytes;
    FullBytes(s, t, delta, rows, flagBytes);
    FullAfter(s, t, delta, fields);
    forall data, off: nat | off < |data| && At(data, off, head + Join(rows))
      ensures DecodeOne(s, data, off) ==
                Outcome(s.(last := t, regs := s.regs[t := fields]), off + |head| + |Join(rows)|, [Primary(t, AllSet(|rows|), false, fields, s.bounds)])
    {
      OrderRoundTrip(s, o, data, off);
    }
    DecodesIs(s, t, head, rows);
  }

  lemma {:induction false} DecodesIs(s: State, t: byte, head: seq<byte>, rows: seq<Row>)
    requires Valid(s) && |rows| <= 32
    requires forall data, off: nat :: off < |data| && At(data, off, head + Join(rows)) ==>
               DecodeOne(s, data, off) ==
                 Outcome(s.(last := t, regs := s.regs[t := Values(rows)]), off + |head| + |Join(rows)|, [Primary(t, AllSet(|rows|), false, Values(rows), s.bounds)])
    ensures Decodes(s, t, head, rows)
  {
    hide DecodeOne, At, Valid, Join, AllSet, Values;
  }

  lemma {:induction false} FullSize(n: nat, bytes: seq<byte>)
    requires FullFlags(n, bytes)
    ensures n <= 24
  {
  }

  lemma {:induction false} FullBytes(s: State, t: byte, delta: bool, rows: seq<Row>, flagBytes: seq<byte>)
    requires Valid(s) && Count(s, t, |rows|) && FullFlags(|rows|, flagBytes) && AllRight(s, t, 0, delta, rows)
    requires var fields := Values(rows);
             Legal(s, FullOrder(t, delta, fields)) && LegalFields(Schema(t), s.regs[t], fields, seq(|fields|, _ => true), delta)
    ensures EncodeOrder(s, FullOrder(t, delta, Values(rows))) == [if delta then 0x19 else 0x09, t] + flagBytes + Join(rows)
  {
    hide *;
    var fields := Values(rows);
    ControlByte(t, delta, fields);
    FieldsJoin(s, t, 0, delta, rows);
    assert rows[0..] == rows;
    FlagsSent(|fields|, flagBytes);
    SentAll(t, delta, fields);
    FullSize(|fields|, flagBytes);
    FullEncoding(s, t, delta, fields);
    var head, rest := [if delta then 0x19 else 0x09], Join(rows);
    assert [] + rest == rest && [if delta then 0x19 else 0x09, t] == head + [t];
    assert (head + [t]) + (flagBytes + rest) == head + [t] + flagBytes + rest;
  }

  lemma {:induction false} FlagsSent(n: nat, bytes: seq<byte>)
    requires FullFlags(n, bytes)
    ensures n <= 24 && |bytes| == FlagByteCount(n) && 8 * FlagByteCount(n) <= 32 && FlagBytes(Flags(seq(n, _ => true)), FlagByteCount(n)) == bytes
  {
    hide FlagBytes;
  }

  lemma {:induction false} FullEncoding(s: State, t: byte, delta: bool, fields: seq<Field>)
    requires Valid(s) && Count(s, t, |fields|) && |fields| <= 24 && Legal(s, FullOrder(t, delta, fields)) && 8 * FlagByteCount(|fields|) <= 32
    requires LegalFields(Schema(t), s.regs[t], fields, seq(|fields|, _ => true), delta)
    requires FlagBytesSent(|fields|, Control(FullOrder(t, delta, fields))) == FlagByteCount(|fields|)
    ensures var o := FullOrder(t, delta, fields);
            EncodeOrder(s, o) == [ByteOf(Control(o))] + [t]
              + (FlagBytes(Flags(seq(|fields|, _ => true)), FlagByteCount(|fields|))
                 + ([] + EncodeFields(Schema(t), 0, s.regs[t], fields, seq(|fields|, _ => true), delta)))
  {
    hide Schema, ByteOf, EncodeFields, FlagBytes, Flags, Control, FlagBytesSent, FlagByteCount, LegalFields, Valid;
  }

  lemma {:induction false} FullAfter(s: State, t: byte, delta: bool, fields: seq<Field>)
    requires |fields| <= 24
    ensures var o := FullOrder(t, delta, fields);
            && After(s, o) == s.(last := t, regs := s.regs[t := fields])
            && Delivered(s, o) == [Primary(t, AllSet(|fields|), false, fields, s.bounds)]
  {
    assert Flags(seq(|fields|, _ => true)) == AllSet(|fields|);
  }

  // ---------- the sixteen orders ----------

  /** Destination blit. */
  lemma {:induction false} DstBlt(
      s: State, delta: bool, left: int16, top: int16, width: int16, height: int16, rop: byte)
    requires Valid(s)
    requires Near(s, 0x00, 0, delta, left) && Near(s, 0x00, 1, delta, top) && Near(s, 0x00, 2, delta, width) && Near(s, 0x00, 3, delta, height)
    ensures Decodes(s, 0x00, [if delta then 0x19 else 0x09, 0x00, 0x1F],
           [P(s, 0x00, 0, delta, left), P(s, 0x00, 1, delta, top), P(s, 0x00, 2, delta, width), P(s, 0x00, 3, delta, height)] +
           [B(rop)])
  {
    hide *;
    DstBltKinds(s);
    CoordRow(s, 0x00, 0, delta, left);
    CoordRow(s, 0x00, 1, delta, top);
    CoordRow(s, 0x00, 2, delta, width);
    CoordRow(s, 0x00, 3, delta, height);
    Rows4(s, 0x00, 0, delta, P(s, 0x00, 0, delta, left), P(s, 0x00, 1, delta, top), P(s, 0x00, 2, delta, width), P(s, 0x00, 3, delta, height));
    ByteRow(s, 0x00, 4, delta, rop);
    Rows1(s, 0x00, 4, delta, B(rop));
    var r0 := [P(s, 0x00, 0, delta, left), P(s, 0x00, 1, delta, top), P(s, 0x00, 2, delta, width), P(s, 0x00, 3, delta, height)];
    RowsConcat(s, 0x00, 0, delta, r0, [B(rop)]);
    var r1 := r0 + [B(rop)];
    Full5();
    AllFields(s, 0x00, delta, r1, [0x1F]);
    assert [if delta then 0x19 else 0x09, 0x00] + [0x1F] == [if delta then 0x19 else 0x09, 0x00, 0x1F];
  }

  lemma {:induction false} DstBltKinds(s: State)
    requires Valid(s)
    ensures Count(s, 0x00, 5)
    ensures IsKind(s, 0x00, 0, I16) && IsKind(s, 0x00, 1, I16) && IsKind(s, 0x00, 2, I16)
    ensures IsKind(s, 0x00, 3, I16) && IsKind(s, 0x00, 4, U8)
  {
    hide Valid, FieldsFit, Fits, IsKind, Count;
    KindCount(s, 0x00);
    KindAt(s, 0x00, 0, I16);
    KindAt(s, 0x00, 1, I16);
    KindAt(s, 0x00, 2, I16);
    KindAt(s, 0x00, 3, I16);
    KindAt(s, 0x00, 4, U8);
  }

  /** Pattern blit. */
  lemma {:induction false} PatBlt(
      s: State, delta: bool, left: int16, top: int16, width: int16, height: int16, rop: byte, backColor: color, foreColor: color, orgX: byte,
      orgY: byte, style: byte, hatch: byte, extra: seq<byte>)
    requires Valid(s) && |extra| == 7
    requires Near(s, 0x01, 0, delta, left) && Near(s, 0x01, 1, delta, top) && Near(s, 0x01, 2, delta, width) && Near(s, 0x01, 3, delta, height)
    ensures Decodes(s, 0x01, [if delta then 0x19 else 0x09, 0x01, 0xFF, 0x0F],
           [P(s, 0x01, 0, delta, left), P(s, 0x01, 1, delta, top), P(s, 0x01, 2, delta, width), P(s, 0x01, 3, delta, height)] +
           [B(rop), C(backColor), C(foreColor), B(orgX)] +
           [B(orgY), B(style), B(hatch), X(extra)])
  {
    hide *;
    PatBltKinds0(s);
    PatBltKinds1(s);
    CoordRow(s, 0x01, 0, delta, left);
    CoordRow(s, 0x01, 1, delta, top);
    CoordRow(s, 0x01, 2, delta, width);
    CoordRow(s, 0x01, 3, delta, height);
    Rows4(s, 0x01, 0, delta, P(s, 0x01, 0, delta, left), P(s, 0x01, 1, delta, top), P(s, 0x01, 2, delta, width), P(s, 0x01, 3, delta, height));
    ByteRow(s, 0x01, 4, delta, rop);
    ColorRow(s, 0x01, 5, delta, backColor);
    ColorRow(s, 0x01, 6, delta, foreColor);
    ByteRow(s, 0x01, 7, delta, orgX);
    Rows4(s, 0x01, 4, delta, B(rop), C(backColor), C(foreColor), B(orgX));
    ByteRow(s, 0x01, 8, delta, orgY);
    ByteRow(s, 0x01, 9, delta, style);
    ByteRow(s, 0x01, 10, delta, hatch);
    ExtraRow(s, 0x01, 11, delta, extra);
    Rows4(s, 0x01, 8, delta, B(orgY), B(style), B(hatch), X(extra));
    var r0 := [P(s, 0x01, 0, delta, left), P(s, 0x01, 1, delta, top), P(s, 0x01, 2, delta, width), P(s, 0x01, 3, delta, height)];
    RowsConcat(s, 0x01, 0, delta, r0, [B(rop), C(backColor), C(foreColor), B(orgX)]);
    var r1 := r0 + [B(rop), C(backColor), C(foreColor), B(orgX)];
    RowsConcat(s, 0x01, 0, delta, r1, [B(orgY), B(style), B(hatch), X(extra)]);
    var r2 := r1 + [B(orgY), B(style), B(hatch), X(extra)];
    Full12();
    AllFields(s, 0x01, delta, r2, [0xFF, 0x0F]);
    assert [if delta then 0x19 else 0x09, 0x01] + [0xFF, 0x0F] == [if delta then 0x19 else 0x09, 0x01, 0xFF, 0x0F];
  }

  lemma {:induction false} PatBltKinds0(s: State)
    requires Valid(s)
    ensures Count(s, 0x01, 12)
    ensures IsKind(s, 0x01, 0, I16) && IsKind(s, 0x01, 1, I16) && IsKind(s, 0x01, 2, I16)
    ensures IsKind(s, 0x01, 3, I16) && IsKind(s, 0x01, 4, U8) && IsKind(s, 0x01, 5, Color)
  {
    hide Valid, FieldsFit, Fits, IsKind, Count;
    KindCount(s, 0x01);
    KindAt(s, 0x01, 0, I16);
    KindAt(s, 0x01, 1, I16);
    KindAt(s, 0x01, 2, I16);
    KindAt(s, 0x01, 3, I16);
    KindAt(s, 0x01, 4, U8);
    KindAt(s, 0x01, 5, Color);
  }

  lemma {:induction false} PatBltKinds1(s: State)
    requires Valid(s)
    ensures IsKind(s, 0x01, 6, Color) && IsKind(s, 0x01, 7, U8) && IsKind(s, 0x01, 8, U8)
    ensures IsKind(s, 0x01, 9, U8) && IsKind(s, 0x01, 10, U8) && IsKind(s, 0x01, 11, Extra)
  {
    hide Valid, FieldsFit, Fits, IsKind, Count;
    KindAt(s, 0x01, 6, Color);
    KindAt(s, 0x01, 7, U8);
    KindAt(s, 0x01, 8, U8);
    KindAt(s, 0x01, 9, U8);
    KindAt(s, 0x01, 10, U8);
    KindAt(s, 0x01, 11, Extra);
  }

  /** Screen blit. */
  lemma {:induction false} ScrBlt(
      s: State, delta: bool, left: int16, top: int16, width: int16, height: int16, rop: byte, srcLeft: int16, srcTop: int16)
    requires Valid(s)
    requires Near(s, 0x02, 0, delta, left) && Near(s, 0x02, 1, delta, top) && Near(s, 0x02, 2, delta, width) && Near(s, 0x02, 3, delta, height)
    requires Near(s, 0x02, 5, delta, srcLeft) && Near(s, 0x02, 6, delta, srcTop)
    ensures Decodes(s, 0x02, [if delta then 0x19 else 0x09, 0x02, 0x7F],
           [P(s, 0x02, 0, delta, left), P(s, 0x02, 1, delta, top), P(s, 0x02, 2, delta, width), P(s, 0x02, 3, delta, height)] +
           [B(rop), P(s, 0x02, 5, delta, srcLeft), P(s, 0x02, 6, delta, srcTop)])
  {
    hide *;
    ScrBltKinds0(s);
    ScrBltKinds1(s);
    CoordRow(s, 0x02, 0, delta, left);
    CoordRow(s, 0x02, 1, delta, top);
    CoordRow(s, 0x02, 2, delta, width);
    CoordRow(s, 0x02, 3, delta, height);
    Rows4(s, 0x02, 0, delta, P(s, 0x02, 0, delta, left), P(s, 0x02, 1, delta, top), P(s, 0x02, 2, delta, width), P(s, 0x02, 3, delta, height));
    ByteRow(s, 0x02, 4, delta, rop);
    CoordRow(s, 0x02, 5, delta, srcLeft);
    CoordRow(s, 0x02, 6, delta, srcTop);
    Rows3(s, 0x02, 4, delta, B(rop), P(s, 0x02, 5, delta, srcLeft), P(s, 0x02, 6, delta, srcTop));
    var r0 := [P(s, 0x02, 0, delta, left), P(s, 0x02, 1, delta, top), P(s, 0x02, 2, delta, width), P(s, 0x02, 3, delta, height)];
    RowsConcat(s, 0x02, 0, delta, r0, [B(rop), P(s, 0x02, 5, delta, srcLeft), P(s, 0x02, 6, delta, srcTop)]);
    var r1 := r0 + [B(rop), P(s, 0x02, 5, delta, srcLeft), P(s, 0x02, 6, delta, srcTop)];
    Full7();
    AllFields(s, 0x02, delta, r1, [0x7F]);
    assert [if delta then 0x19 else 0x09, 0x02] + [0x7F] == [if delta then 0x19 else 0x09, 0x02, 0x7F];
  }

  lemma {:induction false} ScrBltKinds0(s: State)
    requires Valid(s)
    ensures Count(s, 0x02, 7)
    ensures IsKind(s, 0x02, 0, I16) && IsKind(s, 0x02, 1, I16) && IsKind(s, 0x02, 2, I16)
    ensures IsKind(s, 0x02, 3, I16) && IsKind(s, 0x02, 4, U8) && IsKind(s, 0x02, 5, I16)
  {
    hide Valid, FieldsFit, Fits, IsKind, Count;
    KindCount(s, 0x02);
    KindAt(s, 0x02, 0, I16);
    KindAt(s, 0x02, 1, I16);
    KindAt(s, 0x02, 2, I16);
    KindAt(s, 0x02, 3, I16);
    KindAt(s, 0x02, 4, U8);
    KindAt(s, 0x02, 5, I16);
  }

  lemma {:induction false} ScrBltKinds1(s: State)
    requires Valid(s)
    ensures IsKind(s, 0x02, 6, I16)
  {
    hide Valid, FieldsFit, Fits, IsKind, Count;
    KindAt(s, 0x02, 6, I16);
  }

  /** Line. */
  lemma {:induction false} LineTo(
      s: State, delta: bool, backMode: word, startX: int16, startY: int16, endX: int16, endY: int16, backColor: color, rop2: byte, penStyle: byte,
      penWidth: byte, penColor: color)
    requires Valid(s)
    requires Near(s, 0x09, 1, delta, startX) && Near(s, 0x09, 2, delta, startY) && Near(s, 0x09, 3, delta, endX) && Near(s, 0x09, 4, delta, endY)
    ensures Decodes(s, 0x09, [if delta then 0x19 else 0x09, 0x09, 0xFF, 0x03],
           [W(backMode), P(s, 0x09, 1, delta, startX), P(s, 0x09, 2, delta, startY), P(s, 0x09, 3, delta, endX)] +
           [P(s, 0x09, 4, delta, endY), C(backColor), B(rop2), B(penStyle)] +
           [B(penWidth), C(penColor)])
  {
    hide *;
    LineToKinds0(s);
    LineToKinds1(s);
    WordRow(s, 0x09, 0, delta, backMode);
    CoordRow(s, 0x09, 1, delta, startX);
    CoordRow(s, 0x09, 2, delta, startY);
    CoordRow(s, 0x09, 3, delta, endX);
    Rows4(s, 0x09, 0, delta, W(backMode), P(s, 0x09, 1, delta, startX), P(s, 0x09, 2, delta, startY), P(s, 0x09, 3, delta, endX));
    CoordRow(s, 0x09, 4, delta, endY);
    ColorRow(s, 0x09, 5, delta, backColor);
    ByteRow(s, 0x09, 6, delta, rop2);
    ByteRow(s, 0x09, 7, delta, penStyle);
    Rows4(s, 0x09, 4, delta, P(s, 0x09, 4, delta, endY), C(backColor), B(rop2), B(penStyle));
    ByteRow(s, 0x09, 8, delta, penWidth);
    ColorRow(s, 0x09, 9, delta, penColor);
    Rows2(s, 0x09, 8, delta, B(penWidth), C(penColor));
    var r0 := [W(backMode), P(s, 0x09, 1, delta, startX), P(s, 0x09, 2, delta, startY), P(s, 0x09, 3, delta, endX)];
    RowsConcat(s, 0x09, 0, delta, r0, [P(s, 0x09, 4, delta, endY), C(backColor), B(rop2), B(penStyle)]);
    var r1 := r0 + [P(s, 0x09, 4, delta, endY), C(backColor), B(rop2), B(penStyle)];
    RowsConcat(s, 0x09, 0, delta, r1, [B(penWidth), C(penColor)]);
    var r2 := r1 + [B(penWidth), C(penColor)];
    Full10();
    AllFields(s, 0x09, delta, r2, [0xFF, 0x03]);
    assert [if delta then 0x19 else 0x09, 0x09] + [0xFF, 0x03] == [if delta then 0x19 else 0x09, 0x09, 0xFF, 0x03];
  }

  lemma {:induction false} LineToKinds0(s: State)
    requires Valid(s)
    ensures Count(s, 0x09, 10)
    ensures IsKind(s, 0x09, 0, U16) && IsKind(s, 0x09, 1, I16) && IsKind(s, 0x09, 2, I16)
    ensures IsKind(s, 0x09, 3, I16) && IsKind(s, 0x09, 4, I16) && IsKind(s, 0x09, 5, Color)
  {
    hide Valid, FieldsFit, Fits, IsKind, Count;
    KindCount(s, 0x09);
    KindAt(s, 0x09, 0, U16);
    KindAt(s, 0x09, 1, I16);
    KindAt(s, 0x09, 2, I16);
    KindAt(s, 0x09, 3, I16);
    KindAt(s, 0x09, 4, I16);
    KindAt(s, 0x09, 5, Color);
  }

  lemma {:induction false} LineToKinds1(s: State)
    requires Valid(s)
    ensures IsKind(s, 0x09, 6, U8) && IsKind(s, 0x09, 7, U8) && IsKind(s, 0x09, 8, U8)
    ensures IsKind(s, 0x09, 9, Color)
  {
    hide Valid, FieldsFit, Fits, IsKind, Count;
    KindAt(s, 0x09, 6, U8);
    KindAt(s, 0x09, 7, U8);
    KindAt(s, 0x09, 8, U8);
    KindAt(s, 0x09, 9, Color);
  }

  /** Opaque rectangle. */
  lemma {:induction false} OpaqueRect(
      s: State, delta: bool, left: int16, top: int16, width: int16, height: int16, red: byte, green: byte, blue: byte)
    requires Valid(s)
    requires Near(s, 0x0A, 0, delta, left) && Near(s, 0x0A, 1, delta, top) && Near(s, 0x0A, 2, delta, width) && Near(s, 0x0A, 3, delta, height)
    ensures Decodes(s, 0x0A, [if delta then 0x19 else 0x09, 0x0A, 0x7F],
           [P(s, 0x0A, 0, delta, left), P(s, 0x0A, 1, delta, top), P(s, 0x0A, 2, delta, width), P(s, 0x0A, 3, delta, height)] +
           [B(red), B(green), B(blue)])
  {
    hide *;
    OpaqueRectKinds0(s);
    OpaqueRectKinds1(s);
    CoordRow(s, 0x0A, 0, delta, left);
    CoordRow(s, 0x0A, 1, delta, top);
    CoordRow(s, 0x0A, 2, delta, width);
    CoordRow(s, 0x0A, 3, delta, height);
    Rows4(s, 0x0A, 0, delta, P(s, 0x0A, 0, delta, left), P(s, 0x0A, 1, delta, top), P(s, 0x0A, 2, delta, width), P(s, 0x0A, 3, delta, height));
    ByteRow(s, 0x0A, 4, delta, red);
    ByteRow(s, 0x0A, 5, delta, green);
    ByteRow(s, 0x0A, 6, delta, blue);
    Rows3(s, 0x0A, 4, delta, B(red), B(green), B(blue));
    var r0 := [P(s, 0x0A, 0, delta, left), P(s, 0x0A, 1, delta, top), P(s, 0x0A, 2, delta, width), P(s, 0x0A, 3, delta, height)];
    RowsConcat(s, 0x0A, 0, delta, r0, [B(red), B(green), B(blue)]);
    var r1 := r0 + [B(red), B(green), B(blue)];
    Full7();
    AllFields(s, 0x0A, delta, r1, [0x7F]);
    assert [if delta then 0x19 else 0x09, 0x0A] + [0x7F] == [if delta then 0x19 else 0x09, 0x0A, 0x7F];
  }

  lemma {:induction false} OpaqueRectKinds0(s: State)
    requires Valid(s)
    ensures Count(s, 0x0A, 7)
    ensures IsKind(s, 0x0A, 0, I16) && IsKind(s, 0x0A, 1, I16) && IsKind(s, 0x0A, 2, I16)
    ensures IsKind(s, 0x0A, 3, I16) && IsKind(s, 0x0A, 4, U8) && IsKind(s, 0x0A, 5, U8)
  {
    hide Valid, FieldsFit, Fits, IsKind, Count;
    KindCount(s, 0x0A);
    KindAt(s, 0x0A, 0, I16);
    KindAt(s, 0x0A, 1, I16);
    KindAt(s, 0x0A, 2, I16);
    KindAt(s, 0x0A, 3, I16);
    KindAt(s, 0x0A, 4, U8);
    KindAt(s, 0x0A, 5, U8);
  }

  lemma {:induction false} OpaqueRectKinds1(s: State)
    requires Valid(s)
    ensures IsKind(s, 0x0A, 6, U8)
  {
    hide Valid, FieldsFit, Fits, IsKind, Count;
    KindAt(s, 0x0A, 6, U8);
  }

  /** Save or restore the desktop. */
  lemma {:induction false} SaveBitmap(
      s: State, delta: bool, offset: dword, left: int16, top: int16, right: int16, bottom: int16, action: byte)
    requires Valid(s)
    requires Near(s, 0x0B, 1, delta, left) && Near(s, 0x0B, 2, delta, top) && Near(s, 0x0B, 3, delta, right) && Near(s, 0x0B, 4, delta, bottom)
    ensures Decodes(s, 0x0B, [if delta then 0x19 else 0x09, 0x0B, 0x3F],
           [D(offset), P(s, 0x0B, 1, delta, left), P(s, 0x0B, 2, delta, top), P(s, 0x0B, 3, delta, right)] +
           [P(s, 0x0B, 4, delta, bottom), B(action)])
  {
    hide *;
    SaveBitmapKinds(s);
    DwordRow(s, 0x0B, 0, delta, offset);
    CoordRow(s, 0x0B, 1, delta, left);
    CoordRow(s, 0x0B, 2, delta, top);
    CoordRow(s, 0x0B, 3, delta, right);
    Rows4(s, 0x0B, 0, delta, D(offset), P(s, 0x0B, 1, delta, left), P(s, 0x0B, 2, delta, top), P(s, 0x0B, 3, delta, right));
    CoordRow(s, 0x0B, 4, delta, bottom);
    ByteRow(s, 0x0B, 5, delta, action);
    Rows2(s, 0x0B, 4, delta, P(s, 0x0B, 4, delta, bottom), B(action));
    var r0 := [D(offset), P(s, 0x0B, 1, delta, left), P(s, 0x0B, 2, delta, top), P(s, 0x0B, 3, delta, right)];
    RowsConcat(s, 0x0B, 0, delta, r0, [P(s, 0x0B, 4, delta, bottom), B(action)]);
    var r1 := r0 + [P(s, 0x0B, 4, delta, bottom), B(action)];
    Full6();
    AllFields(s, 0x0B, delta, r1, [0x3F]);
    assert [if delta then 0x19 else 0x09, 0x0B] + [0x3F] == [if delta then 0x19 else 0x09, 0x0B, 0x3F];
  }

  lemma {:induction false} SaveBitmapKinds(s: State)
    requires Valid(s)
    ensures Count(s, 0x0B, 6)
    ensures IsKind(s, 0x0B, 0, U32) && IsKind(s, 0x0B, 1, I16) && IsKind(s, 0x0B, 2, I16)
    ensures IsKind(s, 0x0B, 3, I16) && IsKind(s, 0x0B, 4, I16) && IsKind(s, 0x0B, 5, U8)
  {
    hide Valid, FieldsFit, Fits, IsKind, Count;
    KindCount(s, 0x0B);
    KindAt(s, 0x0B, 0, U32);
    KindAt(s, 0x0B, 1, I16);
    KindAt(s, 0x0B, 2, I16);
    KindAt(s, 0x0B, 3, I16);
    KindAt(s, 0x0B, 4, I16);
    KindAt(s, 0x0B, 5, U8);
  }

  /** Memory blit. */
  lemma {:induction false} MemBlt(
      s: State, delta: bool, cacheId: word, left: int16, top: int16, width: int16, height: int16, rop: byte, srcLeft: int16, srcTop: int16,
      cacheIndex: word)
    requires Valid(s)
    requires Near(s, 0x0D, 1, delta, left) && Near(s, 0x0D, 2, delta, top) && Near(s, 0x0D, 3, delta, width) && Near(s, 0x0D, 4, delta, height)
    requires Near(s, 0x0D, 6, delta, srcLeft) && Near(s, 0x0D, 7, delta, srcTop)
    ensures Decodes(s, 0x0D, [if delta then 0x19 else 0x09, 0x0D, 0xFF, 0x01],
           [W(cacheId), P(s, 0x0D, 1, delta, left), P(s, 0x0D, 2, delta, top), P(s, 0x0D, 3, delta, width)] +
           [P(s, 0x0D, 4, delta, height), B(rop), P(s, 0x0D, 6, delta, srcLeft), P(s, 0x0D, 7, delta, srcTop)] +
           [W(cacheIndex)])
  {
    hide *;
    MemBltKinds0(s);
    MemBltKinds1(s);
    WordRow(s, 0x0D, 0, delta, cacheId);
    CoordRow(s, 0x0D, 1, delta, left);
    CoordRow(s, 0x0D, 2, delta, top);
    CoordRow(s, 0x0D, 3, delta, width);
    Rows4(s, 0x0D, 0, delta, W(cacheId), P(s, 0x0D, 1, delta, left), P(s, 0x0D, 2, delta, top), P(s, 0x0D, 3, delta, width));
    CoordRow(s, 0x0D, 4, delta, height);
    ByteRow(s, 0x0D, 5, delta, rop);
    CoordRow(s, 0x0D, 6, delta, srcLeft);
    CoordRow(s, 0x0D, 7, delta, srcTop);
    Rows4(s, 0x0D, 4, delta, P(s, 0x0D, 4, delta, height), B(rop), P(s, 0x0D, 6, delta, srcLeft), P(s, 0x0D, 7, delta, srcTop));
    WordRow(s, 0x0D, 8, delta, cacheIndex);
    Rows1(s, 0x0D, 8, delta, W(cacheIndex));
    var r0 := [W(cacheId), P(s, 0x0D, 1, delta, left), P(s, 0x0D, 2, delta, top), P(s, 0x0D, 3, delta, width)];
    RowsConcat(s, 0x0D, 0, delta, r0, [P(s, 0x0D, 4, delta, height), B(rop), P(s, 0x0D, 6, delta, srcLeft), P(s, 0x0D, 7, delta, srcTop)]);
    var r1 := r0 + [P(s, 0x0D, 4, delta, height), B(rop), P(s, 0x0D, 6, delta, srcLeft), P(s, 0x0D, 7, delta, srcTop)];
    RowsConcat(s, 0x0D, 0, delta, r1, [W(cacheIndex)]);
    var r2 := r1 + [W(cacheIndex)];
    Full9();
    AllFields(s, 0x0D, delta, r2, [0xFF, 0x01]);
    assert [if delta then 0x19 else 0x09, 0x0D] + [0xFF, 0x01] == [if delta then 0x19 else 0x09, 0x0D, 0xFF, 0x01];
  }

  lemma {:induction false} MemBltKinds0(s: State)
    requires Valid(s)
    ensures Count(s, 0x0D, 9)
    ensures IsKind(s, 0x0D, 0, U16) && IsKind(s, 0x0D, 1, I16) && IsKind(s, 0x0D, 2, I16)
    ensures IsKind(s, 0x0D, 3, I16) && IsKind(s, 0x0D, 4, I16) && IsKind(s, 0x0D, 5, U8)
  {
    hide Valid, FieldsFit, Fits, IsKind, Count;
    KindCount(s, 0x0D);
    KindAt(s, 0x0D, 0, U16);
    KindAt(s, 0x0D, 1, I16);
    KindAt(s, 0x0D, 2, I16);
    KindAt(s, 0x0D, 3, I16);
    KindAt(s, 0x0D, 4, I16);
    KindAt(s, 0x0D, 5, U8);
  }

  lemma {:induction false} MemBltKinds1(s: State)
    requires Valid(s)
    ensures IsKind(s, 0x0D, 6, I16) && IsKind(s, 0x0D, 7, I16) && IsKind(s, 0x0D, 8, U16)
  {
    hide Valid, FieldsFit, Fits, IsKind, Count;
    KindAt(s, 0x0D, 6, I16);
    KindAt(s, 0x0D, 7, I16);
    KindAt(s, 0x0D, 8, U16);
  }

  /** Memory blit with a pattern. */
  lemma {:induction false} Mem3Blt(
      s: State, delta: bool, cacheId: word, left: int16, top: int16, width: int16, height: int16, rop: byte, srcLeft: int16, srcTop: int16,
      backColor: color, foreColor: color, orgX: byte, orgY: byte, style: byte, hatch: byte, extra: seq<byte>, cacheIndex: word, unknown: word)
    requires Valid(s) && |extra| == 7
    requires Near(s, 0x0E, 1, delta, left) && Near(s, 0x0E, 2, delta, top) && Near(s, 0x0E, 3, delta, width) && Near(s, 0x0E, 4, delta, height)
    requires Near(s, 0x0E, 6, delta, srcLeft) && Near(s, 0x0E, 7, delta, srcTop)
    ensures Decodes(s, 0x0E, [if delta then 0x19 else 0x09, 0x0E, 0xFF, 0xFF, 0x01],
           [W(cacheId), P(s, 0x0E, 1, delta, left), P(s, 0x0E, 2, delta, top), P(s, 0x0E, 3, delta, width)] +
           [P(s, 0x0E, 4, delta, height), B(rop), P(s, 0x0E, 6, delta, srcLeft), P(s, 0x0E, 7, delta, srcTop)] +
           [C(backColor), C(foreColor), B(orgX), B(orgY)] +
           [B(style), B(hatch), X(extra), W(cacheIndex)] +
           [W(unknown)])
  {
    hide *;
    Mem3BltKinds0(s);
    Mem3BltKinds1(s);
    Mem3BltKinds2(s);
    WordRow(s, 0x0E, 0, delta, cacheId);
    CoordRow(s, 0x0E, 1, delta, left);
    CoordRow(s, 0x0E, 2, delta, top);
    CoordRow(s, 0x0E, 3, delta, width);
    Rows4(s, 0x0E, 0, delta, W(cacheId), P(s, 0x0E, 1, delta, left), P(s, 0x0E, 2, delta, top), P(s, 0x0E, 3, delta, width));
    CoordRow(s, 0x0E, 4, delta, height);
    ByteRow(s, 0x0E, 5, delta, rop);
    CoordRow(s, 0x0E, 6, delta, srcLeft);
    CoordRow(s, 0x0E, 7, delta, srcTop);
    Rows4(s, 0x0E, 4, delta, P(s, 0x0E, 4, delta, height), B(rop), P(s, 0x0E, 6, delta, srcLeft), P(s, 0x0E, 7, delta, srcTop));
    ColorRow(s, 0x0E, 8, delta, backColor);
    ColorRow(s, 0x0E, 9, delta, foreColor);
    ByteRow(s, 0x0E, 10, delta, orgX);
    ByteRow(s, 0x0E, 11, delta, orgY);
    Rows4(s, 0x0E, 8, delta, C(backColor), C(foreColor), B(orgX), B(orgY));
    ByteRow(s, 0x0E, 12, delta, style);
    ByteRow(s, 0x0E, 13, delta, hatch);
    ExtraRow(s, 0x0E, 14, delta, extra);
    WordRow(s, 0x0E, 15, delta, cacheIndex);
    Rows4(s, 0x0E, 12, delta, B(style), B(hatch), X(extra), W(cacheIndex));
    WordRow(s, 0x0E, 16, delta, unknown);
    Rows1(s, 0x0E, 16, delta, W(unknown));
    var r0 := [W(cacheId), P(s, 0x0E, 1, delta, left), P(s, 0x0E, 2, delta, top), P(s, 0x0E, 3, delta, width)];
    RowsConcat(s, 0x0E, 0, delta, r0, [P(s, 0x0E, 4, delta, height), B(rop), P(s, 0x0E, 6, delta, srcLeft), P(s, 0x0E, 7, delta, srcTop)]);
    var r1 := r0 + [P(s, 0x0E, 4, delta, height), B(rop), P(s, 0x0E, 6, delta, srcLeft), P(s, 0x0E, 7, delta, srcTop)];
    RowsConcat(s, 0x0E, 0, delta, r1, [C(backColor), C(foreColor), B(orgX), B(orgY)]);
    var r2 := r1 + [C(backColor), C(foreColor), B(orgX), B(orgY)];
    RowsConcat(s, 0x0E, 0, delta, r2, [B(style), B(hatch), X(extra), W(cacheIndex)]);
    var r3 := r2 + [B(style), B(hatch), X(extra), W(cacheIndex)];
    RowsConcat(s, 0x0E, 0, delta, r3, [W(unknown)]);
    var r4 := r3 + [W(unknown)];
    Full17();
    AllFields(s, 0x0E, delta, r4, [0xFF, 0xFF, 0x01]);
    assert [if delta then 0x19 else 0x09, 0x0E] + [0xFF, 0xFF, 0x01] == [if delta then 0x19 else 0x09, 0x0E, 0xFF, 0xFF, 0x01];
  }

  lemma {:induction false} Mem3BltKinds0(s: State)
    requires Valid(s)
    ensures Count(s, 0x0E, 17)
    ensures IsKind(s, 0x0E, 0, U16) && IsKind(s, 0x0E, 1, I16) && IsKind(s, 0x0E, 2, I16)
    ensures IsKind(s, 0x0E, 3, I16) && IsKind(s, 0x0E, 4, I16) && IsKind(s, 0x0E, 5, U8)
  {
    hide Valid, FieldsFit, Fits, IsKind, Count;
    KindCount(s, 0x0E);
    KindAt(s, 0x0E, 0, U16);
    KindAt(s, 0x0E, 1, I16);
    KindAt(s, 0x0E, 2, I16);
    KindAt(s, 0x0E, 3, I16);
    KindAt(s, 0x0E, 4, I16);
    KindAt(s, 0x0E, 5, U8);
  }

  lemma {:induction false} Mem3BltKinds1(s: State)
    requires Valid(s)
    ensures IsKind(s, 0x0E, 6, I16) && IsKind(s, 0x0E, 7, I16) && IsKind(s, 0x0E, 8, Color)
    ensures IsKind(s, 0x0E, 9, Color) && IsKind(s, 0x0E, 10, U8) && IsKind(s, 0x0E, 11, U8)
  {
    hide Valid, FieldsFit, Fits, IsKind, Count;
    KindAt(s, 0x0E, 6, I16);
    KindAt(s, 0x0E, 7, I16);
    KindAt(s, 0x0E, 8, Color);
    KindAt(s, 0x0E, 9, Color);
    KindAt(s, 0x0E, 10, U8);
    KindAt(s, 0x0E, 11, U8);
  }

  lemma {:induction false} Mem3BltKinds2(s: State)
    requires Valid(s)
    ensures IsKind(s, 0x0E, 12, U8) && IsKind(s, 0x0E, 13, U8) && IsKind(s, 0x0E, 14, Extra)
    ensures IsKind(s, 0x0E, 15, U16) && IsKind(s, 0x0E, 16, U16)
  {
    hide Valid, FieldsFit, Fits, IsKind, Count;
    KindAt(s, 0x0E, 12, U8);
    KindAt(s, 0x0E, 13, U8);
    KindAt(s, 0x0E, 14, Extra);
    KindAt(s, 0x0E, 15, U16);
    KindAt(s, 0x0E, 16, U16);
  }

  /** Glyphs by index. */
  lemma {:induction false} FastIndex(
      s: State, delta: bool, cacheId: byte, drawing: word, backColor: color, foreColor: color, bkLeft: int16, bkTop: int16, bkRight: int16,
      bkBottom: int16, opLeft: int16, opTop: int16, opRight: int16, opBottom: int16, x: int16, y: int16, text: seq<byte>)
    requires Valid(s) && |text| < 256
    requires Near(s, 0x13, 4, delta, bkLeft) && Near(s, 0x13, 5, delta, bkTop) && Near(s, 0x13, 6, delta, bkRight) && Near(s, 0x13, 7, delta, bkBottom)
    requires Near(s, 0x13, 8, delta, opLeft) && Near(s, 0x13, 9, delta, opTop) && Near(s, 0x13, 10, delta, opRight) && Near(s, 0x13, 11, delta, opBottom)
    requires Near(s, 0x13, 12, delta, x) && Near(s, 0x13, 13, delta, y)
    ensures Decodes(s, 0x13, [if delta then 0x19 else 0x09, 0x13, 0xFF, 0x7F],
           [B(cacheId), W(drawing), C(backColor), C(foreColor)] +
           [P(s, 0x13, 4, delta, bkLeft), P(s, 0x13, 5, delta, bkTop), P(s, 0x13, 6, delta, bkRight), P(s, 0x13, 7, delta, bkBottom)] +
           [P(s, 0x13, 8, delta, opLeft), P(s, 0x13, 9, delta, opTop), P(s, 0x13, 10, delta, opRight), P(s, 0x13, 11, delta, opBottom)] +
           [P(s, 0x13, 12, delta, x), P(s, 0x13, 13, delta, y), T(s, 0x13, 14, text)])
  {
    hide *;
    FastIndexKinds0(s);
    FastIndexKinds1(s);
    FastIndexKinds2(s);
    ByteRow(s, 0x13, 0, delta, cacheId);
    WordRow(s, 0x13, 1, delta, drawing);
    ColorRow(s, 0x13, 2, delta, backColor);
    ColorRow(s, 0x13, 3, delta, foreColor);
    Rows4(s, 0x13, 0, delta, B(cacheId), W(drawing), C(backColor), C(foreColor));
    CoordRow(s, 0x13, 4, delta, bkLeft);
    CoordRow(s, 0x13, 5, delta, bkTop);
    CoordRow(s, 0x13, 6, delta, bkRight);
    CoordRow(s, 0x13, 7, delta, bkBottom);
    Rows4(s, 0x13, 4, delta, P(s, 0x13, 4, delta, bkLeft), P(s, 0x13, 5, delta, bkTop), P(s, 0x13, 6, delta, bkRight), P(s, 0x13, 7, delta, bkBottom));
    CoordRow(s, 0x13, 8, delta, opLeft);
    CoordRow(s, 0x13, 9, delta, opTop);
    CoordRow(s, 0x13, 10, delta, opRight);
    CoordRow(s, 0x13, 11, delta, opBottom);
    Rows4(s, 0x13, 8, delta, P(s, 0x13, 8, delta, opLeft), P(s, 0x13, 9, delta, opTop), P(s, 0x13, 10, delta, opRight), P(s, 0x13, 11, delta, opBottom));
    CoordRow(s, 0x13, 12, delta, x);
    CoordRow(s, 0x13, 13, delta, y);
    TextRow(s, 0x13, 14, delta, text);
    Rows3(s, 0x13, 12, delta, P(s, 0x13, 12, delta, x), P(s, 0x13, 13, delta, y), T(s, 0x13, 14, text));
    var r0 := [B(cacheId), W(drawing), C(backColor), C(foreColor)];
    RowsConcat(s, 0x13, 0, delta, r0, [P(s, 0x13, 4, delta, bkLeft), P(s, 0x13, 5, delta, bkTop), P(s, 0x13, 6, delta, bkRight), P(s, 0x13, 7, delta, bkBottom)]);
    var r1 := r0 + [P(s, 0x13, 4, delta, bkLeft), P(s, 0x13, 5, delta, bkTop), P(s, 0x13, 6, delta, bkRight), P(s, 0x13, 7, delta, bkBottom)];
    RowsConcat(s, 0x13, 0, delta, r1, [P(s, 0x13, 8, delta, opLeft), P(s, 0x13, 9, delta, opTop), P(s, 0x13, 10, delta, opRight), P(s, 0x13, 11, delta, opBottom)]);
    var r2 := r1 + [P(s, 0x13, 8, delta, opLeft), P(s, 0x13, 9, delta, opTop), P(s, 0x13, 10, delta, opRight), P(s, 0x13, 11, delta, opBottom)];
    RowsConcat(s, 0x13, 0, delta, r2, [P(s, 0x13, 12, delta, x), P(s, 0x13, 13, delta, y), T(s, 0x13, 14, text)]);
    var r3 := r2 + [P(s, 0x13, 12, delta, x), P(s, 0x13, 13, delta, y), T(s, 0x13, 14, text)];
    Full15();
    AllFields(s, 0x13, delta, r3, [0xFF, 0x7F]);
    assert [if delta then 0x19 else 0x09, 0x13] + [0xFF, 0x7F] == [if delta then 0x19 else 0x09, 0x13, 0xFF, 0x7F];
  }

  lemma {:induction false} FastIndexKinds0(s: State)
    requires Valid(s)
    ensures Count(s, 0x13, 15)
    ensures IsKind(s, 0x13, 0, U8) && IsKind(s, 0x13, 1, U16) && IsKind(s, 0x13, 2, Color)
    ensures IsKind(s, 0x13, 3, Color) && IsKind(s, 0x13, 4, I16) && IsKind(s, 0x13, 5, I16)
  {
    hide Valid, FieldsFit, Fits, IsKind, Count;
    KindCount(s, 0x13);
    KindAt(s, 0x13, 0, U8);
    KindAt(s, 0x13, 1, U16);
    KindAt(s, 0x13, 2, Color);
    KindAt(s, 0x13, 3, Color);
    KindAt(s, 0x13, 4, I16);
    KindAt(s, 0x13, 5, I16);
  }

  lemma {:induction false} FastIndexKinds1(s: State)
    requires Valid(s)
    ensures IsKind(s, 0x13, 6, I16) && IsKind(s, 0x13, 7, I16) && IsKind(s, 0x13, 8, I16)
    ensures IsKind(s, 0x13, 9, I16) && IsKind(s, 0x13, 10, I16) && IsKind(s, 0x13, 11, I16)
  {
    hide Valid, FieldsFit, Fits, IsKind, Count;
    KindAt(s, 0x13, 6, I16);
    KindAt(s, 0x13, 7, I16);
    KindAt(s, 0x13, 8, I16);
    KindAt(s, 0x13, 9, I16);
    KindAt(s, 0x13, 10, I16);
    KindAt(s, 0x13, 11, I16);
  }

  lemma {:induction false} FastIndexKinds2(s: State)
    requires Valid(s)
    ensures IsKind(s, 0x13, 12, I16) && IsKind(s, 0x13, 13, I16) && IsKind(s, 0x13, 14, Var)
  {
    hide Valid, FieldsFit, Fits, IsKind, Count;
    KindAt(s, 0x13, 12, I16);
    KindAt(s, 0x13, 13, I16);
    KindAt(s, 0x13, 14, Var);
  }

  /** Polygon in one colour. */
  lemma {:induction false} PolygonSC(
      s: State, delta: bool, x: int16, y: int16, rop2: byte, fillMode: byte, color: color, entries: byte, text: seq<byte>)
    requires Valid(s) && |text| < 256
    requires Near(s, 0x14, 0, delta, x) && Near(s, 0x14, 1, delta, y)
    ensures Decodes(s, 0x14, [if delta then 0x19 else 0x09, 0x14, 0x7F],
           [P(s, 0x14, 0, delta, x), P(s, 0x14, 1, delta, y), B(rop2), B(fillMode)] +
           [C(color), B(entries), T(s, 0x14, 6, text)])
  {
    hide *;
    PolygonSCKinds0(s);
    PolygonSCKinds1(s);
    CoordRow(s, 0x14, 0, delta, x);
    CoordRow(s, 0x14, 1, delta, y);
    ByteRow(s, 0x14, 2, delta, rop2);
    ByteRow(s, 0x14, 3, delta, fillMode);
    Rows4(s, 0x14, 0, delta, P(s, 0x14, 0, delta, x), P(s, 0x14, 1, delta, y), B(rop2), B(fillMode));
    ColorRow(s, 0x14, 4, delta, color);
    ByteRow(s, 0x14, 5, delta, entries);
    TextRow(s, 0x14, 6, delta, text);
    Rows3(s, 0x14, 4, delta, C(color), B(entries), T(s, 0x14, 6, text));
    var r0 := [P(s, 0x14, 0, delta, x), P(s, 0x14, 1, delta, y), B(rop2), B(fillMode)];
    RowsConcat(s, 0x14, 0, delta, r0, [C(color), B(entries), T(s, 0x14, 6, text)]);
    var r1 := r0 + [C(color), B(entries), T(s, 0x14, 6, text)];
    Full7();
    AllFields(s, 0x14, delta, r1, [0x7F]);
    assert [if delta then 0x19 else 0x09, 0x14] + [0x7F] == [if delta then 0x19 else 0x09, 0x14, 0x7F];
  }

  lemma {:induction false} PolygonSCKinds0(s: State)
    requires Valid(s)
    ensures Count(s, 0x14, 7)
    ensures IsKind(s, 0x14, 0, I16) && IsKind(s, 0x14, 1, I16) && IsKind(s, 0x14, 2, U8)
    ensures IsKind(s, 0x14, 3, U8) && IsKind(s, 0x14, 4, Color) && IsKind(s, 0x14, 5, U8)
  {
    hide Valid, FieldsFit, Fits, IsKind, Count;
    KindCount(s, 0x14);
    KindAt(s, 0x14, 0, I16);
    KindAt(s, 0x14, 1, I16);
    KindAt(s, 0x14, 2, U8);
    KindAt(s, 0x14, 3, U8);
    KindAt(s, 0x14, 4, Color);
    KindAt(s, 0x14, 5, U8);
  }

  lemma {:induction false} PolygonSCKinds1(s: State)
    requires Valid(s)
    ensures IsKind(s, 0x14, 6, Var)
  {
    hide Valid, FieldsFit, Fits, IsKind, Count;
    KindAt(s, 0x14, 6, Var);
  }

  /** Polygon with a brush. */
  lemma {:induction false} PolygonCB(
      s: State, delta: bool, x: int16, y: int16, rop2: byte, fillMode: byte, backColor: color, foreColor: color, orgX: byte, orgY: byte, style: byte,
      hatch: byte, extra: seq<byte>, entries: byte, text: seq<byte>)
    requires Valid(s) && |extra| == 7 && |text| < 256
    requires Near(s, 0x15, 0, delta, x) && Near(s, 0x15, 1, delta, y)
    ensures Decodes(s, 0x15, [if delta then 0x19 else 0x09, 0x15, 0xFF, 0x1F],
           [P(s, 0x15, 0, delta, x), P(s, 0x15, 1, delta, y), B(rop2), B(fillMode)] +
           [C(backColor), C(foreColor), B(orgX), B(orgY)] +
           [B(style), B(hatch), X(extra), B(entries)] +
           [T(s, 0x15, 12, text)])
  {
    hide *;
    PolygonCBKinds0(s);
    PolygonCBKinds1(s);
    PolygonCBKinds2(s);
    CoordRow(s, 0x15, 0, delta, x);
    CoordRow(s, 0x15, 1, delta, y);
    ByteRow(s, 0x15, 2, delta, rop2);
    ByteRow(s, 0x15, 3, delta, fillMode);
    Rows4(s, 0x15, 0, delta, P(s, 0x15, 0, delta, x), P(s, 0x15, 1, delta, y), B(rop2), B(fillMode));
    ColorRow(s, 0x15, 4, delta, backColor);
    ColorRow(s, 0x15, 5, delta, foreColor);
    ByteRow(s, 0x15, 6, delta, orgX);
    ByteRow(s, 0x15, 7, delta, orgY);
    Rows4(s, 0x15, 4, delta, C(backColor), C(foreColor), B(orgX), B(orgY));
    ByteRow(s, 0x15, 8, delta, style);
    ByteRow(s, 0x15, 9, delta, hatch);
    ExtraRow(s, 0x15, 10, delta, extra);
    ByteRow(s, 0x15, 11, delta, entries);
    Rows4(s, 0x15, 8, delta, B(style), B(hatch), X(extra), B(entries));
    TextRow(s, 0x15, 12, delta, text);
    Rows1(s, 0x15, 12, delta, T(s, 0x15, 12, text));
    var r0 := [P(s, 0x15, 0, delta, x), P(s, 0x15, 1, delta, y), B(rop2), B(fillMode)];
    RowsConcat(s, 0x15, 0, delta, r0, [C(backColor), C(foreColor), B(orgX), B(orgY)]);
    var r1 := r0 + [C(backColor), C(foreColor), B(orgX), B(orgY)];
    RowsConcat(s, 0x15, 0, delta, r1, [B(style), B(hatch), X(extra), B(entries)]);
    var r2 := r1 + [B(style), B(hatch), X(extra), B(entries)];
    RowsConcat(s, 0x15, 0, delta, r2, [T(s, 0x15, 12, text)]);
    var r3 := r2 + [T(s, 0x15, 12, text)];
    Full13();
    AllFields(s, 0x15, delta, r3, [0xFF, 0x1F]);
    assert [if delta then 0x19 else 0x09, 0x15] + [0xFF, 0x1F] == [if delta then 0x19 else 0x09, 0x15, 0xFF, 0x1F];
  }

  lemma {:induction false} PolygonCBKinds0(s: State)
    requires Valid(s)
    ensures Count(s, 0x15, 13)
    ensures IsKind(s, 0x15, 0, I16) && IsKind(s, 0x15, 1, I16) && IsKind(s, 0x15, 2, U8)
    ensures IsKind(s, 0x15, 3, U8) && IsKind(s, 0x15, 4, Color) && IsKind(s, 0x15, 5, Color)
  {
    hide Valid, FieldsFit, Fits, IsKind, Count;
    KindCount(s, 0x15);
    KindAt(s, 0x15, 0, I16);
    KindAt(s, 0x15, 1, I16);
    KindAt(s, 0x15, 2, U8);
    KindAt(s, 0x15, 3, U8);
    KindAt(s, 0x15, 4, Color);
    KindAt(s, 0x15, 5, Color);
  }

  lemma {:induction false} PolygonCBKinds1(s: State)
    requires Valid(s)
    ensures IsKind(s, 0x15, 6, U8) && IsKind(s, 0x15, 7, U8) && IsKind(s, 0x15, 8, U8)
    ensures IsKind(s, 0x15, 9, U8) && IsKind(s, 0x15, 10, Extra) && IsKind(s, 0x15, 11, U8)
  {
    hide Valid, FieldsFit, Fits, IsKind, Count;
    KindAt(s, 0x15, 6, U8);
    KindAt(s, 0x15, 7, U8);
    KindAt(s, 0x15, 8, U8);
    KindAt(s, 0x15, 9, U8);
    KindAt(s, 0x15, 10, Extra);
    KindAt(s, 0x15, 11, U8);
  }

  lemma {:induction false} PolygonCBKinds2(s: State)
    requires Valid(s)
    ensures IsKind(s, 0x15, 12, Var)
  {
    hide Valid, FieldsFit, Fits, IsKind, Count;
    KindAt(s, 0x15, 12, Var);
  }

  /** Polyline. */
  lemma {:induction false} Polyline(
      s: State, delta: bool, startX: int16, startY: int16, rop2: byte, brushCacheEntry: word, penColor: color, entries: byte, text: seq<byte>)
    requires Valid(s) && |text| < 256
    requires Near(s, 0x16, 0, delta, startX) && Near(s, 0x16, 1, delta, startY)
    ensures Decodes(s, 0x16, [if delta then 0x19 else 0x09, 0x16, 0x7F],
           [P(s, 0x16, 0, delta, startX), P(s, 0x16, 1, delta, startY), B(rop2), W(brushCacheEntry)] +
           [C(penColor), B(entries), T(s, 0x16, 6, text)])
  {
    hide *;
    PolylineKinds0(s);
    PolylineKinds1(s);
    CoordRow(s, 0x16, 0, delta, startX);
    CoordRow(s, 0x16, 1, delta, startY);
    ByteRow(s, 0x16, 2, delta, rop2);
    WordRow(s, 0x16, 3, delta, brushCacheEntry);
    Rows4(s, 0x16, 0, delta, P(s, 0x16, 0, delta, startX), P(s, 0x16, 1, delta, startY), B(rop2), W(brushCacheEntry));
    ColorRow(s, 0x16, 4, delta, penColor);
    ByteRow(s, 0x16, 5, delta, entries);
    TextRow(s, 0x16, 6, delta, text);
    Rows3(s, 0x16, 4, delta, C(penColor), B(entries), T(s, 0x16, 6, text));
    var r0 := [P(s, 0x16, 0, delta, startX), P(s, 0x16, 1, delta, startY), B(rop2), W(brushCacheEntry)];
    RowsConcat(s, 0x16, 0, delta, r0, [C(penColor), B(entries), T(s, 0x16, 6, text)]);
    var r1 := r0 + [C(penColor), B(entries), T(s, 0x16, 6, text)];
    Full7();
    AllFields(s, 0x16, delta, r1, [0x7F]);
    assert [if delta then 0x19 else 0x09, 0x16] + [0x7F] == [if delta then 0x19 else 0x09, 0x16, 0x7F];
  }

  lemma {:induction false} PolylineKinds0(s: State)
    requires Valid(s)
    ensures Count(s, 0x16, 7)
    ensures IsKind(s, 0x16, 0, I16) && IsKind(s, 0x16, 1, I16) && IsKind(s, 0x16, 2, U8)
    ensures IsKind(s, 0x16, 3, U16) && IsKind(s, 0x16, 4, Color) && IsKind(s, 0x16, 5, U8)
  {
    hide Valid, FieldsFit, Fits, IsKind, Count;
    KindCount(s, 0x16);
    KindAt(s, 0x16, 0, I16);
    KindAt(s, 0x16, 1, I16);
    KindAt(s, 0x16, 2, U8);
    KindAt(s, 0x16, 3, U16);
    KindAt(s, 0x16, 4, Color);
    KindAt(s, 0x16, 5, U8);
  }

  lemma {:induction false} PolylineKinds1(s: State)
    requires Valid(s)
    ensures IsKind(s, 0x16, 6, Var)
  {
    hide Valid, FieldsFit, Fits, IsKind, Count;
    KindAt(s, 0x16, 6, Var);
  }

  /** One glyph. */
  lemma {:induction false} FastGlyph(
      s: State, delta: bool, cacheId: byte, drawing: word, backColor: color, foreColor: color, bkLeft: int16, bkTop: int16, bkRight: int16,
      bkBottom: int16, opLeft: int16, opTop: int16, opRight: int16, opBottom: int16, x: int16, y: int16, text: seq<byte>)
    requires Valid(s) && |text| < 256
    requires Near(s, 0x18, 4, delta, bkLeft) && Near(s, 0x18, 5, delta, bkTop) && Near(s, 0x18, 6, delta, bkRight) && Near(s, 0x18, 7, delta, bkBottom)
    requires Near(s, 0x18, 8, delta, opLeft) && Near(s, 0x18, 9, delta, opTop) && Near(s, 0x18, 10, delta, opRight) && Near(s, 0x18, 11, delta, opBottom)
    requires Near(s, 0x18, 12, delta, x) && Near(s, 0x18, 13, delta, y)
    ensures Decodes(s, 0x18, [if delta then 0x19 else 0x09, 0x18, 0xFF, 0x7F],
           [B(cacheId), W(drawing), C(backColor), C(foreColor)] +
           [P(s, 0x18, 4, delta, bkLeft), P(s, 0x18, 5, delta, bkTop), P(s, 0x18, 6, delta, bkRight), P(s, 0x18, 7, delta, bkBottom)] +
           [P(s, 0x18, 8, delta, opLeft), P(s, 0x18, 9, delta, opTop), P(s, 0x18, 10, delta, opRight), P(s, 0x18, 11, delta, opBottom)] +
           [P(s, 0x18, 12, delta, x), P(s, 0x18, 13, delta, y), T(s, 0x18, 14, text)])
  {
    hide *;
    FastGlyphKinds0(s);
    FastGlyphKinds1(s);
    FastGlyphKinds2(s);
    ByteRow(s, 0x18, 0, delta, cacheId);
    WordRow(s, 0x18, 1, delta, drawing);
    ColorRow(s, 0x18, 2, delta, backColor);
    ColorRow(s, 0x18, 3, delta, foreColor);
    Rows4(s, 0x18, 0, delta, B(cacheId), W(drawing), C(backColor), C(foreColor));
    CoordRow(s, 0x18, 4, delta, bkLeft);
    CoordRow(s, 0x18, 5, delta, bkTop);
    CoordRow(s, 0x18, 6, delta, bkRight);
    CoordRow(s, 0x18, 7, delta, bkBottom);
    Rows4(s, 0x18, 4, delta, P(s, 0x18, 4, delta, bkLeft), P(s, 0x18, 5, delta, bkTop), P(s, 0x18, 6, delta, bkRight), P(s, 0x18, 7, delta, bkBottom));
    CoordRow(s, 0x18, 8, delta, opLeft);
    CoordRow(s, 0x18, 9, delta, opTop);
    CoordRow(s, 0x18, 10, delta, opRight);
    CoordRow(s, 0x18, 11, delta, opBottom);
    Rows4(s, 0x18, 8, delta, P(s, 0x18, 8, delta, opLeft), P(s, 0x18, 9, delta, opTop), P(s, 0x18, 10, delta, opRight), P(s, 0x18, 11, delta, opBottom));
    CoordRow(s, 0x18, 12, delta, x);
    CoordRow(s, 0x18, 13, delta, y);
    TextRow(s, 0x18, 14, delta, text);
    Rows3(s, 0x18, 12, delta, P(s, 0x18, 12, delta, x), P(s, 0x18, 13, delta, y), T(s, 0x18, 14, text));
    var r0 := [B(cacheId), W(drawing), C(backColor), C(foreColor)];
    RowsConcat(s, 0x18, 0, delta, r0, [P(s, 0x18, 4, delta, bkLeft), P(s, 0x18, 5, delta, bkTop), P(s, 0x18, 6, delta, bkRight), P(s, 0x18, 7, delta, bkBottom)]);
    var r1 := r0 + [P(s, 0x18, 4, delta, bkLeft), P(s, 0x18, 5, delta, bkTop), P(s, 0x18, 6, delta, bkRight), P(s, 0x18, 7, delta, bkBottom)];
    RowsConcat(s, 0x18, 0, delta, r1, [P(s, 0x18, 8, delta, opLeft), P(s, 0x18, 9, delta, opTop), P(s, 0x18, 10, delta, opRight), P(s, 0x18, 11, delta, opBottom)]);
    var r2 := r1 + [P(s, 0x18, 8, delta, opLeft), P(s, 0x18, 9, delta, opTop), P(s, 0x18, 10, delta, opRight), P(s, 0x18, 11, delta, opBottom)];
    RowsConcat(s, 0x18, 0, delta, r2, [P(s, 0x18, 12, delta, x), P(s, 0x18, 13, delta, y), T(s, 0x18, 14, text)]);
    var r3 := r2 + [P(s, 0x18, 12, delta, x), P(s, 0x18, 13, delta, y), T(s, 0x18, 14, text)];
    Full15();
    AllFields(s, 0x18, delta, r3, [0xFF, 0x7F]);
    assert [if delta then 0x19 else 0x09, 0x18] + [0xFF, 0x7F] == [if delta then 0x19 else 0x09, 0x18, 0xFF, 0x7F];
  }

  lemma {:induction false} FastGlyphKinds0(s: State)
    requires Valid(s)
    ensures Count(s, 0x18, 15)
    ensures IsKind(s, 0x18, 0, U8) && IsKind(s, 0x18, 1, U16) && IsKind(s, 0x18, 2, Color)
    ensures IsKind(s, 0x18, 3, Color) && IsKind(s, 0x18, 4, I16) && IsKind(s, 0x18, 5, I16)
  {
    hide Valid, FieldsFit, Fits, IsKind, Count;
    KindCount(s, 0x18);
    KindAt(s, 0x18, 0, U8);
    KindAt(s, 0x18, 1, U16);
    KindAt(s, 0x18, 2, Color);
    KindAt(s, 0x18, 3, Color);
    KindAt(s, 0x18, 4, I16);
    KindAt(s, 0x18, 5, I16);
  }

  lemma {:induction false} FastGlyphKinds1(s: State)
    requires Valid(s)
    ensures IsKind(s, 0x18, 6, I16) && IsKind(s, 0x18, 7, I16) && IsKind(s, 0x18, 8, I16)
    ensures IsKind(s, 0x18, 9, I16) && IsKind(s, 0x18, 10, I16) && IsKind(s, 0x18, 11, I16)
  {
    hide Valid, FieldsFit, Fits, IsKind, Count;
    KindAt(s, 0x18, 6, I16);
    KindAt(s, 0x18, 7, I16);
    KindAt(s, 0x18, 8, I16);
    KindAt(s, 0x18, 9, I16);
    KindAt(s, 0x18, 10, I16);
    KindAt(s, 0x18, 11, I16);
  }

  lemma {:induction false} FastGlyphKinds2(s: State)
    requires Valid(s)
    ensures IsKind(s, 0x18, 12, I16) && IsKind(s, 0x18, 13, I16) && IsKind(s, 0x18, 14, Var)
  {
    hide Valid, FieldsFit, Fits, IsKind, Count;
    KindAt(s, 0x18, 12, I16);
    KindAt(s, 0x18, 13, I16);
    KindAt(s, 0x18, 14, Var);
  }

  /** Ellipse in one colour. */
  lemma {:induction false} EllipseSC(
      s: State, delta: bool, left: int16, top: int16, right: int16, bottom: int16, rop2: byte, fillMode: byte, color: color)
    requires Valid(s)
    requires Near(s, 0x19, 0, delta, left) && Near(s, 0x19, 1, delta, top) && Near(s, 0x19, 2, delta, right) && Near(s, 0x19, 3, delta, bottom)
    ensures Decodes(s, 0x19, [if delta then 0x19 else 0x09, 0x19, 0x7F],
           [P(s, 0x19, 0, delta, left), P(s, 0x19, 1, delta, top), P(s, 0x19, 2, delta, right), P(s, 0x19, 3, delta, bottom)] +
           [B(rop2), B(fillMode), C(color)])
  {
    hide *;
    EllipseSCKinds0(s);
    EllipseSCKinds1(s);
    CoordRow(s, 0x19, 0, delta, left);
    CoordRow(s, 0x19, 1, delta, top);
    CoordRow(s, 0x19, 2, delta, right);
    CoordRow(s, 0x19, 3, delta, bottom);
    Rows4(s, 0x19, 0, delta, P(s, 0x19, 0, delta, left), P(s, 0x19, 1, delta, top), P(s, 0x19, 2, delta, right), P(s, 0x19, 3, delta, bottom));
    ByteRow(s, 0x19, 4, delta, rop2);
    ByteRow(s, 0x19, 5, delta, fillMode);
    ColorRow(s, 0x19, 6, delta, color);
    Rows3(s, 0x19, 4, delta, B(rop2), B(fillMode), C(color));
    var r0 := [P(s, 0x19, 0, delta, left), P(s, 0x19, 1, delta, top), P(s, 0x19, 2, delta, right), P(s, 0x19, 3, delta, bottom)];
    RowsConcat(s, 0x19, 0, delta, r0, [B(rop2), B(fillMode), C(color)]);
    var r1 := r0 + [B(rop2), B(fillMode), C(color)];
    Full7();
    AllFields(s, 0x19, delta, r1, [0x7F]);
    assert [if delta then 0x19 else 0x09, 0x19] + [0x7F] == [if delta then 0x19 else 0x09, 0x19, 0x7F];
  }

  lemma {:induction false} EllipseSCKinds0(s: State)
    requires Valid(s)
    ensures Count(s, 0x19, 7)
    ensures IsKind(s, 0x19, 0, I16) && IsKind(s, 0x19, 1, I16) && IsKind(s, 0x19, 2, I16)
    ensures IsKind(s, 0x19, 3, I16) && IsKind(s, 0x19, 4, U8) && IsKind(s, 0x19, 5, U8)
  {
    hide Valid, FieldsFit, Fits, IsKind, Count;
    KindCount(s, 0x19);
    KindAt(s, 0x19, 0, I16);
    KindAt(s, 0x19, 1, I16);
    KindAt(s, 0x19, 2, I16);
    KindAt(s, 0x19, 3, I16);
    KindAt(s, 0x19, 4, U8);
    KindAt(s, 0x19, 5, U8);
  }

  lemma {:induction false} EllipseSCKinds1(s: State)
    requires Valid(s)
    ensures IsKind(s, 0x19, 6, Color)
  {
    hide Valid, FieldsFit, Fits, IsKind, Count;
    KindAt(s, 0x19, 6, Color);
  }

  /** Ellipse with a brush. */
  lemma {:induction false} EllipseCB(
      s: State, delta: bool, left: int16, top: int16, right: int16, bottom: int16, rop2: byte, fillMode: byte, backColor: color, foreColor: color,
      orgX: byte, orgY: byte, style: byte, hatch: byte, extra: seq<byte>)
    requires Valid(s) && |extra| == 7
    requires Near(s, 0x1A, 0, delta, left) && Near(s, 0x1A, 1, delta, top) && Near(s, 0x1A, 2, delta, right) && Near(s, 0x1A, 3, delta, bottom)
    ensures Decodes(s, 0x1A, [if delta then 0x19 else 0x09, 0x1A, 0xFF, 0x1F],
           [P(s, 0x1A, 0, delta, left), P(s, 0x1A, 1, delta, top), P(s, 0x1A, 2, delta, right), P(s, 0x1A, 3, delta, bottom)] +
           [B(rop2), B(fillMode), C(backColor), C(foreColor)] +
           [B(orgX), B(orgY), B(style), B(hatch)] +
           [X(extra)])
  {
    hide *;
    EllipseCBKinds0(s);
    EllipseCBKinds1(s);
    EllipseCBKinds2(s);
    CoordRow(s, 0x1A, 0, delta, left);
    CoordRow(s, 0x1A, 1, delta, top);
    CoordRow(s, 0x1A, 2, delta, right);
    CoordRow(s, 0x1A, 3, delta, bottom);
    Rows4(s, 0x1A, 0, delta, P(s, 0x1A, 0, delta, left), P(s, 0x1A, 1, delta, top), P(s, 0x1A, 2, delta, right), P(s, 0x1A, 3, delta, bottom));
    ByteRow(s, 0x1A, 4, delta, rop2);
    ByteRow(s, 0x1A, 5, delta, fillMode);
    ColorRow(s, 0x1A, 6, delta, backColor);
    ColorRow(s, 0x1A, 7, delta, foreColor);
    Rows4(s, 0x1A, 4, delta, B(rop2), B(fillMode), C(backColor), C(foreColor));
    ByteRow(s, 0x1A, 8, delta, orgX);
    ByteRow(s, 0x1A, 9, delta, orgY);
    ByteRow(s, 0x1A, 10, delta, style);
    ByteRow(s, 0x1A, 11, delta, hatch);
    Rows4(s, 0x1A, 8, delta, B(orgX), B(orgY), B(style), B(hatch));
    ExtraRow(s, 0x1A, 12, delta, extra);
    Rows1(s, 0x1A, 12, delta, X(extra));
    var r0 := [P(s, 0x1A, 0, delta, left), P(s, 0x1A, 1, delta, top), P(s, 0x1A, 2, delta, right), P(s, 0x1A, 3, delta, bottom)];
    RowsConcat(s, 0x1A, 0, delta, r0, [B(rop2), B(fillMode), C(backColor), C(foreColor)]);
    var r1 := r0 + [B(rop2), B(fillMode), C(backColor), C(foreColor)];
    RowsConcat(s, 0x1A, 0, delta, r1, [B(orgX), B(orgY), B(style), B(hatch)]);
    var r2 := r1 + [B(orgX), B(orgY), B(style), B(hatch)];
    RowsConcat(s, 0x1A, 0, delta, r2, [X(extra)]);
    var r3 := r2 + [X(extra)];
    Full13();
    AllFields(s, 0x1A, delta, r3, [0xFF, 0x1F]);
    assert [if delta then 0x19 else 0x09, 0x1A] + [0xFF, 0x1F] == [if delta then 0x19 else 0x09, 0x1A, 0xFF, 0x1F];
  }

  lemma {:induction false} EllipseCBKinds0(s: State)
    requires Valid(s)
    ensures Count(s, 0x1A, 13)
    ensures IsKind(s, 0x1A, 0, I16) && IsKind(s, 0x1A, 1, I16) && IsKind(s, 0x1A, 2, I16)
    ensures IsKind(s, 0x1A, 3, I16) && IsKind(s, 0x1A, 4, U8) && IsKind(s, 0x1A, 5, U8)
  {
    hide Valid, FieldsFit, Fits, IsKind, Count;
    KindCount(s, 0x1A);
    KindAt(s, 0x1A, 0, I16);
    KindAt(s, 0x1A, 1, I16);
    KindAt(s, 0x1A, 2, I16);
    KindAt(s, 0x1A, 3, I16);
    KindAt(s, 0x1A, 4, U8);
    KindAt(s, 0x1A, 5, U8);
  }

  lemma {:induction false} EllipseCBKinds1(s: State)
    requires Valid(s)
    ensures IsKind(s, 0x1A, 6, Color) && IsKind(s, 0x1A, 7, Color) && IsKind(s, 0x1A, 8, U8)
    ensures IsKind(s, 0x1A, 9, U8) && IsKind(s, 0x1A, 10, U8) && IsKind(s, 0x1A, 11, U8)
  {
    hide Valid, FieldsFit, Fits, IsKind, Count;
    KindAt(s, 0x1A, 6, Color);
    KindAt(s, 0x1A, 7, Color);
    KindAt(s, 0x1A, 8, U8);
    KindAt(s, 0x1A, 9, U8);
    KindAt(s, 0x1A, 10, U8);
    KindAt(s, 0x1A, 11, U8);
  }

  lemma {:induction false} EllipseCBKinds2(s: State)
    requires Valid(s)
    ensures IsKind(s, 0x1A, 12, Extra)
  {
    hide Valid, FieldsFit, Fits, IsKind, Count;
    KindAt(s, 0x1A, 12, Extra);
  }

  /** Glyphs with a brush. */
  lemma {:induction false} GlyphIndex(
      s: State, delta: bool, cacheId: byte, flAccel: byte, charInc: byte, opRedundant: byte, backColor: color, foreColor: color, bkLeft: int16,
      bkTop: int16, bkRight: int16, bkBottom: int16, opLeft: int16, opTop: int16, opRight: int16, opBottom: int16, orgX: byte, orgY: byte,
      style: byte, hatch: byte, extra: seq<byte>, x: int16, y: int16, text: seq<byte>)
    requires Valid(s) && |extra| == 7 && |text| < 256
    requires Near(s, 0x1B, 6, delta, bkLeft) && Near(s, 0x1B, 7, delta, bkTop) && Near(s, 0x1B, 8, delta, bkRight) && Near(s, 0x1B, 9, delta, bkBottom)
    requires Near(s, 0x1B, 10, delta, opLeft) && Near(s, 0x1B, 11, delta, opTop) && Near(s, 0x1B, 12, delta, opRight) && Near(s, 0x1B, 13, delta, opBottom)
    requires Near(s, 0x1B, 19, delta, x) && Near(s, 0x1B, 20, delta, y)
    ensures Decodes(s, 0x1B, [if delta then 0x19 else 0x09, 0x1B, 0xFF, 0xFF, 0x3F],
           [B(cacheId), B(flAccel), B(charInc), B(opRedundant)] +
           [C(backColor), C(foreColor), P(s, 0x1B, 6, delta, bkLeft), P(s, 0x1B, 7, delta, bkTop)] +
           [P(s, 0x1B, 8, delta, bkRight), P(s, 0x1B, 9, delta, bkBottom), P(s, 0x1B, 10, delta, opLeft), P(s, 0x1B, 11, delta, opTop)] +
           [P(s, 0x1B, 12, delta, opRight), P(s, 0x1B, 13, delta, opBottom), B(orgX), B(orgY)] +
           [B(style), B(hatch), X(extra), P(s, 0x1B, 19, delta, x)] +
           [P(s, 0x1B, 20, delta, y), T(s, 0x1B, 21, text)])
  {
    hide *;
    GlyphIndexKinds0(s);
    GlyphIndexKinds1(s);
    GlyphIndexKinds2(s);
    GlyphIndexKinds3(s);
    ByteRow(s, 0x1B, 0, delta, cacheId);
    ByteRow(s, 0x1B, 1, delta, flAccel);
    ByteRow(s, 0x1B, 2, delta, charInc);
    ByteRow(s, 0x1B, 3, delta, opRedundant);
    Rows4(s, 0x1B, 0, delta, B(cacheId), B(flAccel), B(charInc), B(opRedundant));
    ColorRow(s, 0x1B, 4, delta, backColor);
    ColorRow(s, 0x1B, 5, delta, foreColor);
    CoordRow(s, 0x1B, 6, delta, bkLeft);
    CoordRow(s, 0x1B, 7, delta, bkTop);
    Rows4(s, 0x1B, 4, delta, C(backColor), C(foreColor), P(s, 0x1B, 6, delta, bkLeft), P(s, 0x1B, 7, delta, bkTop));
    CoordRow(s, 0x1B, 8, delta, bkRight);
    CoordRow(s, 0x1B, 9, delta, bkBottom);
    CoordRow(s, 0x1B, 10, delta, opLeft);
    CoordRow(s, 0x1B, 11, delta, opTop);
    Rows4(s, 0x1B, 8, delta, P(s, 0x1B, 8, delta, bkRight), P(s, 0x1B, 9, delta, bkBottom), P(s, 0x1B, 10, delta, opLeft), P(s, 0x1B, 11, delta, opTop));
    CoordRow(s, 0x1B, 12, delta, opRight);
    CoordRow(s, 0x1B, 13, delta, opBottom);
    ByteRow(s, 0x1B, 14, delta, orgX);
    ByteRow(s, 0x1B, 15, delta, orgY);
    Rows4(s, 0x1B, 12, delta, P(s, 0x1B, 12, delta, opRight), P(s, 0x1B, 13, delta, opBottom), B(orgX), B(orgY));
    ByteRow(s, 0x1B, 16, delta, style);
    ByteRow(s, 0x1B, 17, delta, hatch);
    ExtraRow(s, 0x1B, 18, delta, extra);
    CoordRow(s, 0x1B, 19, delta, x);
    Rows4(s, 0x1B, 16, delta, B(style), B(hatch), X(extra), P(s, 0x1B, 19, delta, x));
    CoordRow(s, 0x1B, 20, delta, y);
    TextRow(s, 0x1B, 21, delta, text);
    Rows2(s, 0x1B, 20, delta, P(s, 0x1B, 20, delta, y), T(s, 0x1B, 21, text));
    var r0 := [B(cacheId), B(flAccel), B(charInc), B(opRedundant)];
    RowsConcat(s, 0x1B, 0, delta, r0, [C(backColor), C(foreColor), P(s, 0x1B, 6, delta, bkLeft), P(s, 0x1B, 7, delta, bkTop)]);
    var r1 := r0 + [C(backColor), C(foreColor), P(s, 0x1B, 6, delta, bkLeft), P(s, 0x1B, 7, delta, bkTop)];
    RowsConcat(s, 0x1B, 0, delta, r1, [P(s, 0x1B, 8, delta, bkRight), P(s, 0x1B, 9, delta, bkBottom), P(s, 0x1B, 10, delta, opLeft), P(s, 0x1B, 11, delta, opTop)]);
    var r2 := r1 + [P(s, 0x1B, 8, delta, bkRight), P(s, 0x1B, 9, delta, bkBottom), P(s, 0x1B, 10, delta, opLeft), P(s, 0x1B, 11, delta, opTop)];
    RowsConcat(s, 0x1B, 0, delta, r2, [P(s, 0x1B, 12, delta, opRight), P(s, 0x1B, 13, delta, opBottom), B(orgX), B(orgY)]);
    var r3 := r2 + [P(s, 0x1B, 12, delta, opRight), P(s, 0x1B, 13, delta, opBottom), B(orgX), B(orgY)];
    RowsConcat(s, 0x1B, 0, delta, r3, [B(style), B(hatch), X(extra), P(s, 0x1B, 19, delta, x)]);
    var r4 := r3 + [B(style), B(hatch), X(extra), P(s, 0x1B, 19, delta, x)];
    RowsConcat(s, 0x1B, 0, delta, r4, [P(s, 0x1B, 20, delta, y), T(s, 0x1B, 21, text)]);
    var r5 := r4 + [P(s, 0x1B, 20, delta, y), T(s, 0x1B, 21, text)];
    Full22();
    AllFields(s, 0x1B, delta, r5, [0xFF, 0xFF, 0x3F]);
    assert [if delta then 0x19 else 0x09, 0x1B] + [0xFF, 0xFF, 0x3F] == [if delta then 0x19 else 0x09, 0x1B, 0xFF, 0xFF, 0x3F];
  }

  lemma {:induction false} GlyphIndexKinds0(s: State)
    requires Valid(s)
    ensures Count(s, 0x1B, 22)
    ensures IsKind(s, 0x1B, 0, U8) && IsKind(s, 0x1B, 1, U8) && IsKind(s, 0x1B, 2, U8)
    ensures IsKind(s, 0x1B, 3, U8) && IsKind(s, 0x1B, 4, Color) && IsKind(s, 0x1B, 5, Color)
  {
    hide Valid, FieldsFit, Fits, IsKind, Count;
    KindCount(s, 0x1B);
    KindAt(s, 0x1B, 0, U8);
    KindAt(s, 0x1B, 1, U8);
    KindAt(s, 0x1B, 2, U8);
    KindAt(s, 0x1B, 3, U8);
    KindAt(s, 0x1B, 4, Color);
    KindAt(s, 0x1B, 5, Color);
  }

  lemma {:induction false} GlyphIndexKinds1(s: State)
    requires Valid(s)
    ensures IsKind(s, 0x1B, 6, I16) && IsKind(s, 0x1B, 7, I16) && IsKind(s, 0x1B, 8, I16)
    ensures IsKind(s, 0x1B, 9, I16) && IsKind(s, 0x1B, 10, I16) && IsKind(s, 0x1B, 11, I16)
  {
    hide Valid, FieldsFit, Fits, IsKind, Count;
    KindAt(s, 0x1B, 6, I16);
    KindAt(s, 0x1B, 7, I16);
    KindAt(s, 0x1B, 8, I16);
    KindAt(s, 0x1B, 9, I16);
    KindAt(s, 0x1B, 10, I16);
    KindAt(s, 0x1B, 11, I16);
  }

  lemma {:induction false} GlyphIndexKinds2(s: State)
    requires Valid(s)
    ensures IsKind(s, 0x1B, 12, I16) && IsKind(s, 0x1B, 13, I16) && IsKind(s, 0x1B, 14, U8)
    ensures IsKind(s, 0x1B, 15, U8) && IsKind(s, 0x1B, 16, U8) && IsKind(s, 0x1B, 17, U8)
  {
    hide Valid, FieldsFit, Fits, IsKind, Count;
    KindAt(s, 0x1B, 12, I16);
    KindAt(s, 0x1B, 13, I16);
    KindAt(s, 0x1B, 14, U8);
    KindAt(s, 0x1B, 15, U8);
    KindAt(s, 0x1B, 16, U8);
    KindAt(s, 0x1B, 17, U8);
  }

  lemma {:induction false} GlyphIndexKinds3(s: State)
    requires Valid(s)
    ensures IsKind(s, 0x1B, 18, Extra) && IsKind(s, 0x1B, 19, I16) && IsKind(s, 0x1B, 20, I16)
    ensures IsKind(s, 0x1B, 21, Var)
  {
    hide Valid, FieldsFit, Fits, IsKind, Count;
    KindAt(s, 0x1B, 18, Extra);
    KindAt(s, 0x1B, 19, I16);
    KindAt(s, 0x1B, 20, I16);
    KindAt(s, 0x1B, 21, Var);
  }

  // ---------- the framing of orders ----------

  /** Bytes of the bounds: which sides follow and how, then the sides, each in two bytes or
      as a step in one. */
  function SideBytes(last: int16, next: int16, how: Side): seq<byte> {
    match how
    case Keep => []
    case Absolute => [next % 0x100, next % 0x1_0000 / 0x100]
    case Relative => [(next - last) % 0x100]
  }

  function BoundsBytes(last: seq<int16>, b: Bounding): seq<byte>
    requires b.NewBounds? ==> |last| == |b.sides| == |b.how| == 4
  {
    if !b.NewBounds? then []
    else
      [Eight(b.how[0].Absolute?, b.how[1].Absolute?, b.how[2].Absolute?, b.how[3].Absolute?,
             b.how[0].Relative?, b.how[1].Relative?, b.how[2].Relative?, b.how[3].Relative?)]
      + SideBytes(last[0], b.sides[0], b.how[0]) + SideBytes(last[1], b.sides[1], b.how[1])
      + SideBytes(last[2], b.sides[2], b.how[2]) + SideBytes(last[3], b.sides[3], b.how[3])
  }

  /** A primary order with all choices: the control byte, the type if it is sent, the flag
      bytes that are not dropped, one bit per field, the bounds, and the fields. */
  lemma {:induction false} DrawBytes(s: State, o: Order)
    requires Valid(s) && o.Draw? && Legal(s, o)
    ensures |s.bounds| == 4 && (o.bounding.NewBounds? ==> |o.bounding.sides| == |o.bounding.how| == 4)
    ensures |o.present| <= 24
    ensures var b := o.bounding;
            var count: int := (|o.present| + 7) / 8 - Unit(o.drop0) - 2 * Unit(o.drop1);
            exists flags: seq<byte> ::
              && |flags| == (if count < 0 then 0 else count)
              && (forall j, k :: 0 <= j < |flags| && 0 <= k < 8 ==>
                    (Bit(flags[j], k) == 1 <==> 8 * j + k < |o.present| && o.present[8 * j + k]))
              && EncodeOrder(s, o) ==
                   [Eight(true, false, !b.Unbounded?, o.typed, o.delta, b.LastBounds?, o.drop0, o.drop1)]
                   + (if o.typed then [o.t] else [])
                   + (flags + (BoundsBytes(s.bounds, b) + EncodeFields(Schema(o.t), 0, s.regs[o.t], o.fields, o.present, o.delta)))
  {
    hide *;
    LegalSizes(s, o);
    var n := FlagBytesSent(|o.present|, Control(o));
    SentCount(o);
    var flags := FlagBytes(Flags(o.present), n);
    forall j, k | 0 <= j < n && 0 <= k < 8
      ensures Bit(flags[j], k) == 1 <==> 8 * j + k < |o.present| && o.present[8 * j + k]
    {
      FlagBit(o.present, n, j, k);
    }
    ControlBytes(o);
    BoundsAre(s, o);
    DrawIs(s, o, n);
    TailIs(s, o);
  }

  lemma {:induction false} TailIs(s: State, o: Order)
    requires Valid(s) && o.Draw? && Legal(s, o)
    ensures o.t in s.regs && LegalFields(Schema(o.t), s.regs[o.t], o.fields, o.present, o.delta)
    ensures Tail(s, o) == EncodeFields(Schema(o.t), 0, s.regs[o.t], o.fields, o.present, o.delta)
  {
    hide Schema, EncodeFields, LegalFields;
  }

  lemma {:induction false} LegalSizes(s: State, o: Order)
    requires Valid(s) && o.Draw? && Legal(s, o)
    ensures |s.bounds| == 4 && |o.present| == |Schema(o.t)| <= 22
    ensures o.bounding.NewBounds? ==> LegalSides(s.bounds, o.bounding.sides, o.bounding.how) && |o.bounding.sides| == |o.bounding.how| == 4
  {
    SchemaSize(o.t);
    hide Schema, LegalSide, LegalField;
  }

  lemma {:induction false} SentCount(o: Order)
    requires o.Draw? && |o.present| <= 22
    ensures var count: int := (|o.present| + 7) / 8 - Unit(o.drop0) - 2 * Unit(o.drop1);
            FlagBytesSent(|o.present|, Control(o)) == (if count < 0 then 0 else count) <= 3
  {
  }

  lemma {:induction false} FlagBit(present: seq<bool>, n: nat, j: nat, k: nat)
    requires |present| <= 24 && n <= 4 && j < n && k < 8
    ensures Bit(FlagBytes(Flags(present), n)[j], k) == 1 <==> 8 * j + k < |present| && present[8 * j + k]
  {
    hide *;
    FlagByte(Flags(present), n, j);
    var bits := Flags(present)[8 * j..8 * j + 8];
    BitsOfByteOf(bits);
    BitsAreBits(ByteOf(bits), k);
    FlagAt(present, 8 * j + k);
  }

  lemma {:induction false} FlagAt(present: seq<bool>, i: nat)
    requires |present| <= 24 && i < 32
    ensures Flags(present)[i] == (i < |present| && present[i])
  {
  }

  lemma {:induction false} FlagByte(bits: seq<bool>, n: nat, j: nat)
    requires 8 * n <= |bits| && j < n
    ensures FlagBytes(bits, n)[j] == ByteOf(bits[8 * j..8 * j + 8])
    decreases n
  {
    hide ByteOf;
    if j > 0 {
      FlagByte(bits[8..], n - 1, j - 1);
      assert bits[8..][8 * (j - 1)..8 * (j - 1) + 8] == bits[8 * j..8 * j + 8];
    }
  }

  lemma {:induction false} ControlBytes(o: Order)
    requires o.Draw?
    ensures var b := o.bounding;
            ByteOf(Control(o)) ==
              Eight(true, false, !b.Unbounded?, o.typed, o.delta, b.LastBounds?, o.drop0, o.drop1)
  {
    var b := o.bounding;
    EightBits(true, false, !b.Unbounded?, o.typed, o.delta, b.LastBounds?, o.drop0, o.drop1);
    assert Control(o) == [true, false, !b.Unbounded?, o.typed, o.delta, b.LastBounds?, o.drop0, o.drop1];
    hide ByteOf, Control;
  }

  lemma {:induction false} BoundsAre(s: State, o: Order)
    requires Valid(s) && |s.bounds| == 4 && o.Draw?
    requires o.bounding.NewBounds? ==> LegalSides(s.bounds, o.bounding.sides, o.bounding.how) && |o.bounding.sides| == |o.bounding.how| == 4
    ensures EncodeBounding(s, o.bounding) == BoundsBytes(s.bounds, o.bounding)
  {
    hide *;
    var b := o.bounding;
    BoundingBytes(s, b);
    if b.NewBounds? {
      SideByte(b.how);
      SidesUnroll(s.bounds, b.sides, b.how);
      var c0, c1 := SideBytes(s.bounds[0], b.sides[0], b.how[0]), SideBytes(s.bounds[1], b.sides[1], b.how[1]);
      var c2, c3 := SideBytes(s.bounds[2], b.sides[2], b.how[2]), SideBytes(s.bounds[3], b.sides[3], b.how[3]);
      var flags := [ByteOf(SideFlags(b.how))];
      assert flags + (c0 + c1 + c2 + c3) == flags + c0 + c1 + c2 + c3;
    }
  }

  lemma {:induction false} BoundingBytes(s: State, b: Bounding)
    requires |s.bounds| == 4 && (b.NewBounds? ==> LegalSides(s.bounds, b.sides, b.how) && |b.sides| == |b.how| == 4)
    ensures !b.NewBounds? ==> EncodeBounding(s, b) == [] && BoundsBytes(s.bounds, b) == []
    ensures b.NewBounds? ==>
              && EncodeBounding(s, b) == [ByteOf(SideFlags(b.how))] + EncodeSides(0, s.bounds, b.sides, b.how)
              && BoundsBytes(s.bounds, b) ==
                   [Eight(b.how[0].Absolute?, b.how[1].Absolute?, b.how[2].Absolute?, b.how[3].Absolute?,
             b.how[0].Relative?, b.how[1].Relative?, b.how[2].Relative?, b.how[3].Relative?)]
                   + SideBytes(s.bounds[0], b.sides[0], b.how[0]) + SideBytes(s.bounds[1], b.sides[1], b.how[1])
                   + SideBytes(s.bounds[2], b.sides[2], b.how[2]) + SideBytes(s.bounds[3], b.sides[3], b.how[3])
  {
    hide SideFlags, ByteOf, EncodeSides, SideBytes, LegalSides;
  }

  lemma {:induction false} SideByte(h: seq<Side>)
    requires |h| == 4
    ensures ByteOf(SideFlags(h)) ==
              Eight(h[0].Absolute?, h[1].Absolute?, h[2].Absolute?, h[3].Absolute?, h[0].Relative?, h[1].Relative?, h[2].Relative?, h[3].Relative?)
  {
    hide *;
    EightBits(h[0].Absolute?, h[1].Absolute?, h[2].Absolute?, h[3].Absolute?, h[0].Relative?, h[1].Relative?, h[2].Relative?, h[3].Relative?);
    SideFlagsAre(h);
  }

  lemma {:induction false} SideFlagsAre(h: seq<Side>)
    requires |h| == 4
    ensures SideFlags(h) == [h[0].Absolute?, h[1].Absolute?, h[2].Absolute?, h[3].Absolute?, h[0].Relative?, h[1].Relative?, h[2].Relative?, h[3].Relative?]
  {
  }

  lemma {:induction false} OneSide(last: int16, next: int16, how: Side)
    requires LegalSide(last, next, how)
    ensures EncodeSide(last, next, how) == SideBytes(last, next, how)
  {
    hide PutLe16, Word, StepByte, Reachable;
    match how
    case Keep =>
    case Absolute => WordBytes(next);
    case Relative => RelativeByte(last, next);
  }

  lemma {:induction false} RelativeByte(last: int16, next: int16)
    requires Reachable(last, next)
    ensures StepByte(last, next) == (next - last) % 0x100
  {
    StepIs(last, next);
    hide StepOf;
  }

  lemma {:induction false} StepIs(last: int16, next: int16)
    ensures StepOf(last, next) % 0x100 == (next - last) % 0x100
  {
    var d := next - last;
    assert StepOf(last, next) == if d < -32768 then d + 65536 else if d > 32767 then d - 65536 else d;
    hide StepOf;
  }

  lemma {:induction false} WordBytes(n: int16)
    ensures PutLe16(Word(n)) == [n % 0x100, n % 0x1_0000 / 0x100]
  {
  }

  lemma {:induction false} SidesUnroll(last: seq<int16>, next: seq<int16>, how: seq<Side>)
    requires LegalSides(last, next, how) && |last| == |next| == |how| == 4
    ensures EncodeSides(0, last, next, how) ==
              SideBytes(last[0], next[0], how[0]) + SideBytes(last[1], next[1], how[1]) + SideBytes(last[2], next[2], how[2]) + SideBytes(last[3], next[3], how[3])
  {
    hide *;
    SideCount(last, next, how);
    FirstSide(0, last, next, how);
    FirstSide(1, last, next, how);
    FirstSide(2, last, next, how);
    FirstSide(3, last, next, how);
    NoSides(last, next, how);
    OneSide(last[0], next[0], how[0]);
    OneSide(last[1], next[1], how[1]);
    OneSide(last[2], next[2], how[2]);
    OneSide(last[3], next[3], how[3]);
    var a, b, c, d := SideBytes(last[0], next[0], how[0]), SideBytes(last[1], next[1], how[1]), SideBytes(last[2], next[2], how[2]), SideBytes(last[3], next[3], how[3]);
    assert a + (b + (c + (d + []))) == a + b + c + d;
  }

  lemma {:induction false} NoSides(last: seq<int16>, next: seq<int16>, how: seq<Side>)
    requires LegalSides(last, next, how)
    ensures EncodeSides(4, last, next, how) == []
  {
    hide LegalSides;
  }

  /** A secondary order: the length less thirteen, extra flags and type behind the control
      byte, and the body. */
  lemma {:induction false} SecondaryBytes(s: State, ctl: byte, t: byte, extraFlags: word, body: seq<byte>, data: seq<byte>, off: nat)
    requires Valid(s) && ctl % 2 == 1 && ctl / 2 % 2 == 1 && |body| <= 32774 && off < |data|
    requires At(data, off, [ctl] + [(|body| - 7) % 0x100, (|body| - 7) % 0x1_0000 / 0x100] + Le2(extraFlags) + [t] + body)
    ensures DecodeOne(s, data, off) == Outcome(s, off + 6 + |body|, [Secondary(t, extraFlags, body)])
  {
    hide *;
    var o := Cache(BitsOf(ctl), t, extraFlags, body);
    ControlIs(ctl);
    CacheIs(s, o, ctl);
    WordBytes(|body| - 7);
    LeIs(extraFlags);
    var n := PutLe16(Word(|body| - 7));
    assert [ctl] + (n + PutLe16(extraFlags) + [t] + body) == [ctl] + n + PutLe16(extraFlags) + [t] + body;
    CacheRoundTrip(s, o, data, off);
  }

  lemma {:induction false} LeIs(v: word)
    ensures PutLe16(v) == Le2(v)
  {
  }

  lemma {:induction false} ControlIs(ctl: byte)
    ensures BitsOf(ctl)[STANDARD] == (ctl % 2 == 1) && BitsOf(ctl)[SECONDARY] == (ctl / 2 % 2 == 1) && ByteOf(BitsOf(ctl)) == ctl
  {
    BitsAreBits(ctl, 0);
    BitsAreBits(ctl, 1);
    ByteOfBitsOf(ctl);
    hide BitsOf, ByteOf;
  }

  lemma {:induction false} CacheIs(s: State, o: Order, ctl: byte)
    requires Valid(s) && o.Cache? && o.ctl == BitsOf(ctl) && o.ctl[STANDARD] && o.ctl[SECONDARY] && o.extraFlags < 0x1_0000 && |o.body| <= 32774
    requires ByteOf(BitsOf(ctl)) == ctl
    ensures Legal(s, o) && After(s, o) == s && Delivered(s, o) == [Secondary(o.t, o.extraFlags, o.body)]
    ensures EncodeOrder(s, o) == [ctl] + (PutLe16(Word(|o.body| - 7)) + PutLe16(o.extraFlags) + [o.t] + o.body)
  {
    hide BitsOf, ByteOf, PutLe16, Valid;
  }

  /** Any other order is skipped by the length behind its control byte. */
  lemma {:induction false} SkippedBytes(s: State, ctl: byte, data: seq<byte>, off: nat)
    requires Valid(s) && ctl % 2 == 0 && off + 1 < |data| && data[off] == ctl
    ensures DecodeOne(s, data, off) == Outcome(s, off + 2 + data[off + 1], [])
  {
    ControlIs(ctl);
    hide BitsOf, Valid, DecodePrimary;
  }
}
