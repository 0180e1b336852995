/** Drawing orders: the delta decoder of primary orders, and its framing of secondary and
    alternate secondary ones. */
module Orders {
  import opened Bits
  import opened Wire

  function Wrap16(n: int): int16 { (n + 32768) % 65536 - 32768 }

  // ---------- fields ----------

  datatype Kind = U8 | U16 | U32 | I16 | Color | Extra | Var

  /** A field's last value: a number, or a buffer and how much of it is in use. */
  datatype Field = Num(n: int) | Buf(buf: seq<byte>, used: nat)

  const VAR_CAP := 256

  ghost predicate Fits(k: Kind, f: Field) {
    match k
    case U8 => f.Num? && 0 <= f.n < 0x100
    case U16 => f.Num? && 0 <= f.n < 0x1_0000
    case U32 => f.Num? && 0 <= f.n < TWO_32
    case I16 => f.Num? && -32768 <= f.n <= 32767
    case Color => f.Num? && 0 <= f.n < 0x100_0000
    case Extra => f.Buf? && |f.buf| == f.used == 7
    case Var => f.Buf? && |f.buf| == VAR_CAP && f.used < VAR_CAP
  }

  function Num1(f: Field): int { if f.Num? then f.n else 0 }

  function Bytes(f: Field): seq<byte> { if f.Buf? then f.buf else [] }

  /** The fields of a primary order, in the order of their flag bits. */
  function Schema(t: byte): seq<Kind> {
    match t
    case 0x00 => [I16, I16, I16, I16, U8]
    case 0x01 => [I16, I16, I16, I16, U8, Color, Color, U8, U8, U8, U8, Extra]
    case 0x02 => [I16, I16, I16, I16, U8, I16, I16]
    case 0x09 => [U16, I16, I16, I16, I16, Color, U8, U8, U8, Color]
    case 0x0A => [I16, I16, I16, I16, U8, U8, U8]
    case 0x0B => [U32, I16, I16, I16, I16, U8]
    case 0x0D => [U16, I16, I16, I16, I16, U8, I16, I16, U16]
    case 0x0E => [U16, I16, I16, I16, I16, U8, I16, I16, Color, Color, U8, U8, U8, U8, Extra, U16, U16]
    case 0x13 => [U8, U16, Color, Color, I16, I16, I16, I16, I16, I16, I16, I16, I16, I16, Var]
    case 0x14 => [I16, I16, U8, U8, Color, U8, Var]
    case 0x15 => [I16, I16, U8, U8, Color, Color, U8, U8, U8, U8, Extra, U8, Var]
    case 0x16 => [I16, I16, U8, U16, Color, U8, Var]
    case 0x18 => [U8, U16, Color, Color, I16, I16, I16, I16, I16, I16, I16, I16, I16, I16, Var]
    case 0x19 => [I16, I16, I16, I16, U8, U8, Color]
    case 0x1A => [I16, I16, I16, I16, U8, U8, Color, Color, U8, U8, U8, U8, Extra]
    case 0x1B => [U8, U8, U8, U8, Color, Color, I16, I16, I16, I16, I16, I16, I16, I16, U8, U8, U8, U8, Extra, I16, I16, Var]
    case _ => []
  }

  const ORDER_TYPES := 0x1C

  /** A field read: its value and the offset behind it, or nothing when the data ends. */
  datatype Read = Short | Got(f: Field, off: nat)

  function ReadField(k: Kind, data: seq<byte>, off: nat, delta: bool, last: Field): Read
    requires off <= |data|
  {
    match k
    case U8 => if off >= |data| then Short else Got(Num(data[off]), off + 1)
    case U16 => if off + 2 > |data| then Short else Got(Num(GetLe16(data[off..])), off + 2)
    case U32 => if off + 4 > |data| then Short else Got(Num(GetLe32(data[off..])), off + 4)
    case I16 =>
      if delta then
        if off >= |data| then Short else Got(Num(Wrap16(Num1(last) + Int8(data[off]))), off + 1)
      else if off + 2 > |data| then Short
      else Got(Num(Int16(GetLe16(data[off..]))), off + 2)
    case Color => if off + 3 > |data| then Short else Got(Num(GetLe16(data[off..]) + 0x1_0000 * (data[off + 2] as int)), off + 3)
    case Extra => if off + 7 > |data| then Short else Got(Buf(data[off..off + 7], 7), off + 7)
    case Var =>
      if off >= |data| then Short
      else
        var n := if data[off] > |Bytes(last)| then |Bytes(last)| else data[off];
        if off + 1 + n > |data| then Short
        else Got(Buf(data[off + 1..off + 1 + n] + Bytes(last)[n..], n), off + 1 + n)
  }

  /** A reader stays inside the data. */
  lemma {:induction false} ReadStays(k: Kind, data: seq<byte>, off: nat, delta: bool, last: Field)
    requires off <= |data|
    ensures var r := ReadField(k, data, off, delta, last);
            r.Got? ==> off < r.off <= |data|
    ensures Fits(k, last) ==> var r := ReadField(k, data, off, delta, last); r.Got? ==> Fits(k, r.f)
  {
  }

  /** All fields from number i on whose flag is set; a short read keeps what was read
      before it. */
  datatype Walk = Walk(fields: seq<Field>, end: int)

  function ReadFields(schema: seq<Kind>, i: nat, data: seq<byte>, off: nat, flags: seq<bool>, delta: bool, fields: seq<Field>): Walk
    requires i <= |schema| && |schema| == |fields| && |schema| <= |flags| && off <= |data|
    decreases |schema| - i
  {
    if i == |schema| then Walk(fields, off)
    else if !flags[i] then ReadFields(schema, i + 1, data, off, flags, delta, fields)
    else
      var r := ReadField(schema[i], data, off, delta, fields[i]);
      if r.Short? then Walk(fields, -1)
      else
        ReadStays(schema[i], data, off, delta, fields[i]);
        ReadFields(schema, i + 1, data, r.off, flags, delta, fields[i := r.f])
  }

  // ---------- flags ----------

  function Clear(n: nat): (bits: seq<bool>)
    ensures |bits| == n
  {
    seq(n, _ => false)
  }

  /** The 32 field flags that some bytes stand for. */
  function FlagBits(bytes: seq<byte>): (bits: seq<bool>)
    requires |bytes| <= 4
    ensures |bits| == 32
  {
    if bytes == [] then Clear(32) else BitsOf(bytes[0]) + FlagBits(bytes[1..])[..24]
  }

  // bits of the control byte
  const STANDARD := 0
  const SECONDARY := 1
  const BOUNDS := 2
  const TYPE_CHANGE := 3
  const DELTA := 4
  const ZERO_BOUNDS_DELTA := 5
  const ZERO_FIELD_BYTE_0 := 6
  const ZERO_FIELD_BYTE_1 := 7

  function FlagByteCount(nFields: nat): nat { (nFields + 7) / 8 }

  /** Flag bytes on the wire. */
  function FlagBytesSent(nFields: nat, ctl: seq<bool>): nat
    requires |ctl| == 8
  {
    var n := FlagByteCount(nFields) - (if ctl[ZERO_FIELD_BYTE_0] then 1 else 0) - (if ctl[ZERO_FIELD_BYTE_1] then 2 else 0);
    if n < 0 then 0 else n
  }

  // ---------- bounds ----------

  datatype BoundsWalk = BoundsWalk(sides: seq<int16>, end: int)

  /** Sides from number i on: absolute, relative to the last, or unchanged. */
  function ReadSides(i: nat, data: seq<byte>, off: nat, flags: seq<bool>, sides: seq<int16>): BoundsWalk
    requires i <= 4 == |sides| && |flags| == 8 && off <= |data|
    decreases 4 - i
  {
    if i == 4 then BoundsWalk(sides, off)
    else if flags[i] || flags[i + 4] then
      var r := ReadField(I16, data, off, !flags[i], Num(sides[i]));
      if r.Short? then BoundsWalk(sides, -1)
      else
        ReadStays(I16, data, off, !flags[i], Num(sides[i]));
        ReadSides(i + 1, data, r.off, flags, sides[i := r.f.n])
    else ReadSides(i + 1, data, off, flags, sides)
  }

  function ReadBounds(data: seq<byte>, off: nat, sides: seq<int16>): BoundsWalk
    requires |sides| == 4 && off <= |data|
  {
    if off >= |data| then BoundsWalk(sides, -1) else ReadSides(0, data, off + 1, BitsOf(data[off]), sides)
  }

  // ---------- orders ----------

  /** What the decoder remembers: the last order type, the last bounds, and every
      order's last fields. */
  datatype State = State(last: byte, bounds: seq<int16>, regs: map<byte, seq<Field>>)

  ghost predicate FieldsFit(schema: seq<Kind>, fields: seq<Field>) {
    |fields| == |schema| && forall k :: 0 <= k < |schema| ==> Fits(schema[k], fields[k])
  }

  ghost predicate Valid(s: State) {
    && |s.bounds| == 4
    && forall t: byte :: Schema(t) != [] ==> t in s.regs && FieldsFit(Schema(t), s.regs[t])
  }

  /** What the callback sees. */
  datatype Event =
    | Primary(t: byte, flags: seq<bool>, hasBounds: bool, fields: seq<Field>, bounds: seq<int16>)
    | Secondary(t: byte, extraFlags: nat, data: seq<byte>)

  /** One order: the new state, the offset behind it or -1, and what was delivered. */
  datatype Outcome = Outcome(s: State, end: int, events: seq<Event>)

  function DecodeSecondary(s: State, data: seq<byte>, off: nat): Outcome
    requires off <= |data|
  {
    if off + 5 > |data| then Outcome(s, -1, [])
    else
      var dataLen := Int16(GetLe16(data[off..])) + 7;
      if dataLen < 0 || off + 5 + dataLen > |data| then Outcome(s, -1, [])
      else
        Outcome(s, off + 5 + dataLen, [Secondary(data[off + 4], GetLe16(data[off + 2..]), data[off + 5..off + 5 + dataLen])])
  }

  /** The fields of the order whose type is the last one. */
  function DecodeFields(s: State, ctl: seq<bool>, flags: seq<bool>, data: seq<byte>, off: nat): Outcome
    requires Valid(s) && Schema(s.last) != [] && |ctl| == 8 && |flags| == 32 && off <= |data|
  {
    SchemaSize(s.last);
    var w := ReadFields(Schema(s.last), 0, data, off, flags, ctl[DELTA], s.regs[s.last]);
    var s' := s.(regs := s.regs[s.last := w.fields]);
    if w.end < 0 then Outcome(s', -1, [])
    else Outcome(s', w.end, [Primary(s.last, flags, ctl[BOUNDS], w.fields, s.bounds)])
  }

  function DecodeBounds(s: State, ctl: seq<bool>, flags: seq<bool>, data: seq<byte>, off: nat): Outcome
    requires Valid(s) && Schema(s.last) != [] && |ctl| == 8 && |flags| == 32 && off <= |data|
  {
    if ctl[BOUNDS] && !ctl[ZERO_BOUNDS_DELTA] then
      var b := ReadBounds(data, off, s.bounds);
      ReadBoundsStays(data, off, s.bounds);
      if b.end < 0 then Outcome(s.(bounds := b.sides), -1, []) else DecodeFields(s.(bounds := b.sides), ctl, flags, data, b.end)
    else DecodeFields(s, ctl, flags, data, off)
  }

  function DecodeFlags(s: State, ctl: seq<bool>, data: seq<byte>, off: nat): Outcome
    requires Valid(s) && |ctl| == 8 && off <= |data|
  {
    var n := FlagBytesSent(|Schema(s.last)|, ctl);
    if Schema(s.last) == [] || off + n > |data| then Outcome(s, -1, [])
    else
      SchemaSize(s.last);
      DecodeBounds(s, ctl, FlagBits(data[off..off + n]), data, off + n)
  }

  function DecodePrimary(s: State, ctl: seq<bool>, data: seq<byte>, off: nat): Outcome
    requires Valid(s) && |ctl| == 8 && off <= |data|
  {
    if !ctl[TYPE_CHANGE] then DecodeFlags(s, ctl, data, off)
    else if off >= |data| then Outcome(s, -1, [])
    else DecodeFlags(s.(last := data[off]), ctl, data, off + 1)
  }

  lemma {:induction false} SchemaSize(t: byte)
    ensures |Schema(t)| <= 22
    ensures t >= ORDER_TYPES ==> Schema(t) == []
  {
  }

  lemma {:induction false} ReadSidesStays(i: nat, data: seq<byte>, off: nat, flags: seq<bool>, sides: seq<int16>)
    requires i <= 4 == |sides| && |flags| == 8 && off <= |data|
    ensures var b := ReadSides(i, data, off, flags, sides);
            |b.sides| == 4 && (b.end == -1 || off <= b.end <= |data|)
    decreases 4 - i
  {
    hide ReadField;
    if i < 4 {
      if flags[i] || flags[i + 4] {
        ReadStays(I16, data, off, !flags[i], Num(sides[i]));
        var r := ReadField(I16, data, off, !flags[i], Num(sides[i]));
        if r.Got? {
          ReadSidesStays(i + 1, data, r.off, flags, sides[i := r.f.n]);
        }
      } else {
        ReadSidesStays(i + 1, data, off, flags, sides);
      }
    }
  }

  lemma {:induction false} ReadBoundsStays(data: seq<byte>, off: nat, sides: seq<int16>)
    requires |sides| == 4 && off <= |data|
    ensures var b := ReadBounds(data, off, sides);
            |b.sides| == 4 && (b.end == -1 || off <= b.end <= |data|)
  {
    if off < |data| {
      ReadSidesStays(0, data, off + 1, BitsOf(data[off]), sides);
    }
  }

  function DecodeOne(s: State, data: seq<byte>, off: nat): Outcome
    requires Valid(s) && off < |data|
  {
    var ctl := BitsOf(data[off]);
    if !ctl[STANDARD] then
      if off + 1 >= |data| then Outcome(s, -1, []) else Outcome(s, off + 2 + data[off + 1], [])
    else if ctl[SECONDARY] then DecodeSecondary(s, data, off + 1)
    else DecodePrimary(s, ctl, data, off + 1)
  }

  /** DecodeOrders: at most n orders, while there is data. */
  function DecodeOrders(s: State, data: seq<byte>, off: nat, n: nat): Outcome
    requires Valid(s)
    decreases n
  {
    if n == 0 || off >= |data| then Outcome(s, off, [])
    else
      var o := DecodeOne(s, data, off);
      if o.end < 0 then o
      else
        DecodeOneStays(s, data, off);
        var rest := DecodeOrders(o.s, data, o.end, n - 1);
        rest.(events := o.events + rest.events)
  }

  lemma {:induction false} ReadFieldsStays(schema: seq<Kind>, i: nat, data: seq<byte>, off: nat, flags: seq<bool>, delta: bool, fields: seq<Field>)
    requires i <= |schema| && FieldsFit(schema, fields) && |schema| <= |flags| && off <= |data|
    ensures var w := ReadFields(schema, i, data, off, flags, delta, fields);
            FieldsFit(schema, w.fields) && (w.end == -1 || off <= w.end <= |data|)
    decreases |schema| - i
  {
    hide ReadField, Fits;
    if i < |schema| {
      if !flags[i] {
        ReadFieldsStays(schema, i + 1, data, off, flags, delta, fields);
      } else {
        ReadStays(schema[i], data, off, delta, fields[i]);
        var r := ReadField(schema[i], data, off, delta, fields[i]);
        if r.Got? {
          ReadFieldsStays(schema, i + 1, data, r.off, flags, delta, fields[i := r.f]);
        }
      }
    }
  }

  lemma {:induction false} DecodeFieldsStays(s: State, ctl: seq<bool>, flags: seq<bool>, data: seq<byte>, off: nat)
    requires Valid(s) && Schema(s.last) != [] && |ctl| == 8 && |flags| == 32 && off <= |data|
    ensures var o := DecodeFields(s, ctl, flags, data, off);
            Valid(o.s) && (o.end == -1 || off <= o.end <= |data|)
  {
    SchemaSize(s.last);
    ReadFieldsStays(Schema(s.last), 0, data, off, flags, ctl[DELTA], s.regs[s.last]);
    hide ReadFields, Schema;
  }

  lemma {:induction false} DecodeBoundsStays(s: State, ctl: seq<bool>, flags: seq<bool>, data: seq<byte>, off: nat)
    requires Valid(s) && Schema(s.last) != [] && |ctl| == 8 && |flags| == 32 && off <= |data|
    ensures var o := DecodeBounds(s, ctl, flags, data, off);
            Valid(o.s) && (o.end == -1 || off <= o.end <= |data|)
  {
    hide DecodeFields, ReadBounds, Schema;
    ReadBoundsStays(data, off, s.bounds);
    var b := if ctl[BOUNDS] && !ctl[ZERO_BOUNDS_DELTA] then ReadBounds(data, off, s.bounds) else BoundsWalk(s.bounds, off);
    if b.end >= 0 {
      DecodeFieldsStays(s.(bounds := b.sides), ctl, flags, data, b.end);
    }
  }

  lemma {:induction false} DecodePrimaryStays(s: State, ctl: seq<bool>, data: seq<byte>, off: nat)
    requires Valid(s) && |ctl| == 8 && off <= |data|
    ensures var o := DecodePrimary(s, ctl, data, off);
            Valid(o.s) && (o.end == -1 || off <= o.end <= |data|)
  {
    hide DecodeBounds, FlagBits, Schema;
    if !ctl[TYPE_CHANGE] || off < |data| {
      var s1, off1 := if ctl[TYPE_CHANGE] then s.(last := data[off]) else s, if ctl[TYPE_CHANGE] then off + 1 else off;
      var n := FlagBytesSent(|Schema(s1.last)|, ctl);
      if Schema(s1.last) != [] && off1 + n <= |data| {
        SchemaSize(s1.last);
        DecodeBoundsStays(s1, ctl, FlagBits(data[off1..off1 + n]), data, off1 + n);
      }
    }
  }

  /** One order leaves a good state, and the offset in the data, behind it, or -1; only a
      skipped order may point past the end. */
  lemma {:induction false} DecodeOneStays(s: State, data: seq<byte>, off: nat)
    requires Valid(s) && off < |data|
    ensures var o := DecodeOne(s, data, off);
            && Valid(o.s) && (o.end == -1 || o.end > off)
            && (BitsOf(data[off])[STANDARD] ==> o.end <= |data|)
  {
    var ctl := BitsOf(data[off]);
    DecodePrimaryStays(s, ctl, data, off + 1);
    hide DecodePrimary, Valid, BitsOf;
  }
}
