/** Order streams: whatever legal encoding the sender picks, the decoder stays in step
    with it. */
module OrderStream {
  import opened Bits
  import opened Wire
  import opened Orders

  /** The data reads enc at off. */
  ghost predicate At(data: seq<byte>, off: nat, enc: seq<byte>) {
    off + |enc| <= |data| && data[off..off + |enc|] == enc
  }

  lemma {:induction false} AtConcat(data: seq<byte>, off: nat, a: seq<byte>, b: seq<byte>)
    requires At(data, off, a + b)
    ensures At(data, off, a) && At(data, off + |a|, b)
  {
    var enc := data[off..off + |a + b|];
    assert enc[..|a|] == a && enc[|a|..] == b;
  }

  // ---------- one field ----------

  /** The signed 8-bit step between two 16-bit numbers, if there is one. */
  function StepOf(last: int16, next: int16): int { Wrap16(next - last) }

  ghost predicate Reachable(last: int16, next: int16) { -128 <= StepOf(last, next) <= 127 }

  lemma {:induction false} StepArrives(last: int16, next: int16)
    ensures Wrap16(last + StepOf(last, next)) == next
  {
  }

  function StepByte(last: int16, next: int16): byte
    requires Reachable(last, next)
  {
    var d := StepOf(last, next);
    if d < 0 then d + 256 else d
  }

  ghost predicate LegalField(k: Kind, last: Field, next: Field, delta: bool) {
    && Fits(k, last) && Fits(k, next)
    && (k == I16 && delta ==> Reachable(last.n, next.n))
    && (k == Var ==> next.buf[next.used..] == last.buf[next.used..])
  }

  function EncodeField(k: Kind, last: Field, next: Field, delta: bool): seq<byte>
    requires LegalField(k, last, next, delta)
  {
    match k
    case U8 => [next.n]
    case U16 => PutLe16(next.n)
    case U32 => PutLe32(next.n)
    case I16 => if delta then [StepByte(last.n, next.n)] else PutLe16(Word(next.n))
    case Color => PutLe16(next.n % 0x1_0000) + [next.n / 0x1_0000]
    case Extra => next.buf
    case Var => [next.used] + next.buf[..next.used]
  }

  lemma {:induction false} FieldRoundTrip(k: Kind, last: Field, next: Field, delta: bool, data: seq<byte>, off: nat)
    requires LegalField(k, last, next, delta) && At(data, off, EncodeField(k, last, next, delta))
    ensures ReadField(k, data, off, delta, last) == Got(next, off + |EncodeField(k, last, next, delta)|)
  {
    match k
    case I16 => WordRoundTrip(last, next, delta, data, off);
    case Var => VarRoundTrip(last, next, delta, data, off);
    case U32 => U32RoundTrip(last, next, delta, data, off);
    case Extra =>
    case _ => SmallRoundTrip(k, last, next, delta, data, off);
  }

  lemma {:induction false} AtByte(data: seq<byte>, off: nat, enc: seq<byte>, i: nat)
    requires At(data, off, enc) && i < |enc|
    ensures data[off + i] == enc[i]
  {
    assert data[off..off + |enc|][i] == enc[i];
  }

  lemma {:induction false} SmallRoundTrip(k: Kind, last: Field, next: Field, delta: bool, data: seq<byte>, off: nat)
    requires k == U8 || k == U16 || k == Color
    requires LegalField(k, last, next, delta) && At(data, off, EncodeField(k, last, next, delta))
    ensures ReadField(k, data, off, delta, last) == Got(next, off + |EncodeField(k, last, next, delta)|)
  {
    var enc := EncodeField(k, last, next, delta);
    AtByte(data, off, enc, 0);
    if k != U8 { AtByte(data, off, enc, 1); }
    if k == Color { AtByte(data, off, enc, 2); }
  }

  lemma {:induction false} WordRoundTrip(last: Field, next: Field, delta: bool, data: seq<byte>, off: nat)
    requires LegalField(I16, last, next, delta) && At(data, off, EncodeField(I16, last, next, delta))
    ensures ReadField(I16, data, off, delta, last) == Got(next, off + |EncodeField(I16, last, next, delta)|)
  {
    var enc := EncodeField(I16, last, next, delta);
    AtByte(data, off, enc, 0);
    if delta {
      StepArrives(last.n, next.n);
      assert Int8(data[off]) == StepOf(last.n, next.n);
      hide Wrap16, StepOf;
    } else {
      AtByte(data, off, enc, 1);
      assert GetLe16(data[off..]) == GetLe16(enc) == Word(next.n);
    }
  }

  lemma {:induction false} U32RoundTrip(last: Field, next: Field, delta: bool, data: seq<byte>, off: nat)
    requires LegalField(U32, last, next, delta) && At(data, off, EncodeField(U32, last, next, delta))
    ensures ReadField(U32, data, off, delta, last) == Got(next, off + |EncodeField(U32, last, next, delta)|)
  {
    var enc := EncodeField(U32, last, next, delta);
    assert data[off..][..2] == enc[..2] && data[off..][2..4] == enc[2..4];
  }

  lemma {:induction false} VarRoundTrip(last: Field, next: Field, delta: bool, data: seq<byte>, off: nat)
    requires LegalField(Var, last, next, delta) && At(data, off, EncodeField(Var, last, next, delta))
    ensures ReadField(Var, data, off, delta, last) == Got(next, off + |EncodeField(Var, last, next, delta)|)
  {
    AtByte(data, off, EncodeField(Var, last, next, delta), 0);
    AtConcat(data, off, [next.used], next.buf[..next.used]);
    assert next.buf == next.buf[..next.used] + next.buf[next.used..];
  }

  // ---------- all fields ----------

  /** Present fields are encodable, absent ones unchanged. */
  ghost predicate LegalFields(schema: seq<Kind>, last: seq<Field>, next: seq<Field>, present: seq<bool>, delta: bool) {
    && |last| == |next| == |present| == |schema|
    && forall k :: 0 <= k < |schema| ==> if present[k] then LegalField(schema[k], last[k], next[k], delta) else next[k] == last[k]
  }

  function EncodeFields(schema: seq<Kind>, i: nat, last: seq<Field>, next: seq<Field>, present: seq<bool>, delta: bool): seq<byte>
    requires i <= |schema| && LegalFields(schema, last, next, present, delta)
    decreases |schema| - i
  {
    if i == |schema| then []
    else (if present[i] then EncodeField(schema[i], last[i], next[i], delta) else []) + EncodeFields(schema, i + 1, last, next, present, delta)
  }

  lemma {:induction false} FieldsRoundTrip(schema: seq<Kind>, i: nat, last: seq<Field>, next: seq<Field>, present: seq<bool>, delta: bool,
                                           data: seq<byte>, off: nat, flags: seq<bool>)
    requires i <= |schema| <= |flags| && LegalFields(schema, last, next, present, delta) && flags[..|schema|] == present
    requires At(data, off, EncodeFields(schema, i, last, next, present, delta))
    ensures ReadFields(schema, i, data, off, flags, delta, next[..i] + last[i..])
         == Walk(next, off + |EncodeFields(schema, i, last, next, present, delta)|)
    decreases |schema| - i
  {
    hide *;
    AtIs(data, off, EncodeFields(schema, i, last, next, present, delta));
    FieldCounts(schema, last, next, present, delta);
    var fields := next[..i] + last[i..];
    if i == |schema| {
      NoFields(schema, last, next, present, delta, data, off, flags, fields);
      assert fields == next;
    } else {
      var rest := EncodeFields(schema, i + 1, last, next, present, delta);
      assert flags[i] == flags[..|schema|][i];
      FirstField(schema, i, last, next, present, delta);
      NextField(schema, i, data, off, flags, delta, fields);
      if present[i] {
        var enc := EncodeField(schema[i], last[i], next[i], delta);
        AtConcat(data, off, enc, rest);
        FieldRoundTrip(schema[i], last[i], next[i], delta, data, off);
        assert fields[i := next[i]] == next[..i + 1] + last[i + 1..];
        FieldsRoundTrip(schema, i + 1, last, next, present, delta, data, off + |enc|, flags);
      } else {
        assert fields == next[..i + 1] + last[i + 1..];
        FieldsRoundTrip(schema, i + 1, last, next, present, delta, data, off, flags);
      }
    }
  }

  lemma {:induction false} FieldCounts(schema: seq<Kind>, last: seq<Field>, next: seq<Field>, present: seq<bool>, delta: bool)
    requires LegalFields(schema, last, next, present, delta)
    ensures |last| == |next| == |present| == |schema|
  {
    hide LegalField;
  }

  lemma {:induction false} NoFields(schema: seq<Kind>, last: seq<Field>, next: seq<Field>, present: seq<bool>, delta: bool,
                                    data: seq<byte>, off: nat, flags: seq<bool>, fields: seq<Field>)
    requires LegalFields(schema, last, next, present, delta) && |schema| == |fields| && |schema| <= |flags| && off <= |data|
    ensures EncodeFields(schema, |schema|, last, next, present, delta) == []
    ensures ReadFields(schema, |schema|, data, off, flags, delta, fields) == Walk(fields, off)
  {
  }

  lemma {:induction false} FirstField(schema: seq<Kind>, i: nat, last: seq<Field>, next: seq<Field>, present: seq<bool>, delta: bool)
    requires i < |schema| && LegalFields(schema, last, next, present, delta)
    ensures |last| == |next| == |present| == |schema|
    ensures if present[i] then LegalField(schema[i], last[i], next[i], delta) else next[i] == last[i]
    ensures var rest := EncodeFields(schema, i + 1, last, next, present, delta);
            EncodeFields(schema, i, last, next, present, delta) ==
              if present[i] then EncodeField(schema[i], last[i], next[i], delta) + rest else rest
  {
    hide LegalField, EncodeField;
    assert [] + EncodeFields(schema, i + 1, last, next, present, delta) == EncodeFields(schema, i + 1, last, next, present, delta);
  }

  lemma {:induction false} NextField(schema: seq<Kind>, i: nat, data: seq<byte>, off: nat, flags: seq<bool>, delta: bool, fields: seq<Field>)
    requires i < |schema| && |schema| == |fields| && |schema| <= |flags| && off <= |data|
    ensures !flags[i] ==> ReadFields(schema, i, data, off, flags, delta, fields) == ReadFields(schema, i + 1, data, off, flags, delta, fields)
    ensures var r := ReadField(schema[i], data, off, delta, fields[i]);
            && (r.Got? ==> r.off <= |data|)
            && (r.Got? && flags[i] ==>
                  ReadFields(schema, i, data, off, flags, delta, fields) == ReadFields(schema, i + 1, data, r.off, flags, delta, fields[i := r.f]))
  {
    ReadStays(schema[i], data, off, delta, fields[i]);
    hide ReadField;
  }

  // ---------- flags ----------

  /** Flag bytes for the first 8 * n flags. */
  function FlagBytes(bits: seq<bool>, n: nat): (bytes: seq<byte>)
    requires 8 * n <= |bits|
    ensures |bytes| == n
  {
    if n == 0 then [] else [ByteOf(bits[..8])] + FlagBytes(bits[8..], n - 1)
  }

  lemma {:induction false} FlagsRoundTrip(bits: seq<bool>, n: nat)
    requires n <= 4 && 8 * n <= |bits|
    ensures FlagBits(FlagBytes(bits, n)) == bits[..8 * n] + Clear(32 - 8 * n)
    decreases n
  {
    hide BitsOf, ByteOf;
    if n > 0 {
      FlagsRoundTrip(bits[8..], n - 1);
      BitsOfByteOf(bits[..8]);
      assert FlagBytes(bits, n)[1..] == FlagBytes(bits[8..], n - 1);
      assert bits[..8] + bits[8..][..8 * (n - 1)] == bits[..8 * n];
      assert (bits[8..][..8 * (n - 1)] + Clear(32 - 8 * (n - 1)))[..24] == bits[8..][..8 * (n - 1)] + Clear(32 - 8 * n);
    }
  }

  /** The flags of present fields, as 32 bits. */
  function Flags(present: seq<bool>): (bits: seq<bool>)
    requires |present| <= 32
    ensures |bits| == 32
  {
    present + Clear(32 - |present|)
  }

  /** Dropped flag bytes are no loss when their flags are clear. */
  lemma {:induction false} DroppedFlags(present: seq<bool>, n: nat)
    requires |present| <= 24 && n <= 4 && forall k :: 8 * n <= k < |present| ==> !present[k]
    ensures FlagBits(FlagBytes(Flags(present), n)) == Flags(present)
  {
    FlagsRoundTrip(Flags(present), n);
    hide FlagBits, FlagBytes;
    assert Flags(present)[..8 * n] + Clear(32 - 8 * n) == Flags(present);
  }

  // ---------- bounds ----------

  datatype Side = Keep | Absolute | Relative

  ghost predicate LegalSide(last: int16, next: int16, how: Side) {
    match how
    case Keep => next == last
    case Absolute => true
    case Relative => Reachable(last, next)
  }

  ghost predicate LegalSides(last: seq<int16>, next: seq<int16>, how: seq<Side>) {
    |last| == |next| == |how| == 4 && forall i :: 0 <= i < 4 ==> LegalSide(last[i], next[i], how[i])
  }

  function EncodeSide(last: int16, next: int16, how: Side): seq<byte>
    requires LegalSide(last, next, how)
  {
    match how
    case Keep => []
    case Absolute => PutLe16(Word(next))
    case Relative => [StepByte(last, next)]
  }

  function EncodeSides(i: nat, last: seq<int16>, next: seq<int16>, how: seq<Side>): seq<byte>
    requires i <= 4 && LegalSides(last, next, how)
    decreases 4 - i
  {
    if i == 4 then [] else assert LegalSide(last[i], next[i], how[i]); EncodeSide(last[i], next[i], how[i]) + EncodeSides(i + 1, last, next, how)
  }

  function SideFlags(how: seq<Side>): (bits: seq<bool>)
    requires |how| == 4
    ensures |bits| == 8
  {
    seq(4, i requires 0 <= i < 4 => how[i] == Absolute) + seq(4, i requires 0 <= i < 4 => how[i] == Relative)
  }

  lemma {:induction false} SideRoundTrip(last: int16, next: int16, how: Side, data: seq<byte>, off: nat)
    requires LegalSide(last, next, how) && how != Keep
    requires At(data, off, EncodeSide(last, next, how))
    ensures ReadField(I16, data, off, how != Absolute, Num(last)) == Got(Num(next), off + (if how == Absolute then 2 else 1))
  {
    FieldRoundTrip(I16, Num(last), Num(next), how != Absolute, data, off);
  }

  lemma {:induction false} SidesRoundTrip(i: nat, last: seq<int16>, next: seq<int16>, how: seq<Side>, data: seq<byte>, off: nat)
    requires i <= 4 && LegalSides(last, next, how) && At(data, off, EncodeSides(i, last, next, how))
    ensures ReadSides(i, data, off, SideFlags(how), next[..i] + last[i..]) == BoundsWalk(next, off + |EncodeSides(i, last, next, how)|)
    decreases 4 - i
  {
    hide *;
    SideCount(last, next, how);
    AtIs(data, off, EncodeSides(i, last, next, how));
    var sides := next[..i] + last[i..];
    if i == 4 {
      SidesEnd(last, next, how, data, off, sides);
      assert sides == next;
    } else {
      var enc, rest := EncodeSide(last[i], next[i], how[i]), EncodeSides(i + 1, last, next, how);
      FirstSide(i, last, next, how);
      assert sides[i := next[i]] == next[..i + 1] + last[i + 1..];
      AtConcat(data, off, enc, rest);
      SideStep(i, last, next, how, data, off, sides);
      SidesRoundTrip(i + 1, last, next, how, data, off + |enc|);
    }
  }

  lemma {:induction false} SideCount(last: seq<int16>, next: seq<int16>, how: seq<Side>)
    requires LegalSides(last, next, how)
    ensures |last| == |next| == |how| == 4 && forall i :: 0 <= i < 4 ==> LegalSide(last[i], next[i], how[i])
  {
    hide LegalSide;
  }

  lemma {:induction false} FirstSide(i: nat, last: seq<int16>, next: seq<int16>, how: seq<Side>)
    requires i < 4 && LegalSides(last, next, how) && LegalSide(last[i], next[i], how[i])
    ensures EncodeSides(i, last, next, how) == EncodeSide(last[i], next[i], how[i]) + EncodeSides(i + 1, last, next, how)
  {
    hide EncodeSide, LegalSide;
  }

  lemma {:induction false} SidesEnd(last: seq<int16>, next: seq<int16>, how: seq<Side>, data: seq<byte>, off: nat, sides: seq<int16>)
    requires LegalSides(last, next, how) && off <= |data| && |sides| == 4
    ensures EncodeSides(4, last, next, how) == [] && ReadSides(4, data, off, SideFlags(how), sides) == BoundsWalk(sides, off)
  {
    hide SideFlags, LegalSide;
  }

  /** One side read. */
  lemma {:induction false} SideStep(i: nat, last: seq<int16>, next: seq<int16>, how: seq<Side>, data: seq<byte>, off: nat, sides: seq<int16>)
    requires i < 4 == |sides| && LegalSides(last, next, how) && sides[i] == last[i]
    requires At(data, off, EncodeSide(last[i], next[i], how[i]))
    ensures var enc := EncodeSide(last[i], next[i], how[i]);
            off + |enc| <= |data| &&
            ReadSides(i, data, off, SideFlags(how), sides) == ReadSides(i + 1, data, off + |enc|, SideFlags(how), sides[i := next[i]])
  {
    var flags := SideFlags(how);
    assert LegalSide(last[i], next[i], how[i]);
    assert flags[i] == (how[i] == Absolute) && flags[i + 4] == (how[i] == Relative);
    hide ReadField;
    if how[i] == Keep {
      assert sides[i := next[i]] == sides;
    } else {
      SideRoundTrip(last[i], next[i], how[i], data, off);
    }
    hide SideFlags, StepByte, Reachable;
  }

  // ---------- orders ----------

  datatype Bounding = Unbounded | LastBounds | NewBounds(sides: seq<int16>, how: seq<Side>)

  /** A primary order with all the sender's choices: which fields it sends, whether it
      sends coordinates as steps, whether it repeats the type, which clear flag bytes it
      drops, and how it gives the bounds.  Secondary orders carry free control bits. */
  datatype Order =
    | Draw(t: byte, fields: seq<Field>, present: seq<bool>, delta: bool, typed: bool, drop0: bool, drop1: bool, bounding: Bounding)
    | Cache(ctl: seq<bool>, t: byte, extraFlags: nat, body: seq<byte>)
    | Skip(ctl: seq<bool>, body: seq<byte>)

  function Control(o: Order): (ctl: seq<bool>)
    requires o.Draw?
    ensures |ctl| == 8
  {
    [true, false, !o.bounding.Unbounded?, o.typed, o.delta, o.bounding.LastBounds?, o.drop0, o.drop1]
  }

  /** The sender's obligations. */
  ghost predicate Legal(s: State, o: Order)
    requires Valid(s)
  {
    match o
    case Draw(t, fields, present, delta, typed, _, _, bounding) =>
      && Schema(t) != [] && (typed || t == s.last)
      && LegalFields(Schema(t), s.regs[t], fields, present, delta)
      && (forall k :: 8 * FlagBytesSent(|Schema(t)|, Control(o)) <= k < |present| ==> !present[k])
      && (bounding.NewBounds? ==> LegalSides(s.bounds, bounding.sides, bounding.how))
    case Cache(ctl, _, extraFlags, body) => |ctl| == 8 && ctl[STANDARD] && ctl[SECONDARY] && extraFlags < 0x1_0000 && |body| <= 32774
    case Skip(ctl, body) => |ctl| == 8 && !ctl[STANDARD] && |body| < 256
  }

  function AfterBounds(s: State, b: Bounding): State {
    if b.NewBounds? then s.(bounds := b.sides) else s
  }

  /** Where both ends stand when the fields are due. */
  function Bounded(s: State, o: Order): State
    requires o.Draw?
  {
    AfterBounds(s.(last := o.t), o.bounding)
  }

  /** What both ends know after an order. */
  function After(s: State, o: Order): State {
    if o.Draw? then Bounded(s, o).(regs := s.regs[o.t := o.fields]) else s
  }

  function Delivered(s: State, o: Order): seq<Event>
    requires o.Draw? ==> |o.present| <= 32
  {
    match o
    case Draw(t, fields, present, _, _, _, _, bounding) => [Primary(t, Flags(present), !bounding.Unbounded?, fields, After(s, o).bounds)]
    case Cache(_, t, extraFlags, body) => [Secondary(t, extraFlags, body)]
    case Skip(_, _) => []
  }

  function EncodeBounding(s: State, b: Bounding): seq<byte>
    requires b.NewBounds? ==> LegalSides(s.bounds, b.sides, b.how)
  {
    if b.NewBounds? then [ByteOf(SideFlags(b.how))] + EncodeSides(0, s.bounds, b.sides, b.how) else []
  }

  /** The fields that an order sends. */
  function Tail(s: State, o: Order): seq<byte>
    requires Valid(s) && Legal(s, o) && o.Draw?
  {
    EncodeFields(Schema(o.t), 0, s.regs[o.t], o.fields, o.present, o.delta)
  }

  function EncodeOrder(s: State, o: Order): (enc: seq<byte>)
    requires Valid(s) && Legal(s, o)
    ensures |enc| > 0
  {
    match o
    case Draw(t, fields, present, delta, typed, _, _, bounding) =>
      SchemaSize(t);
      [ByteOf(Control(o))] + (if typed then [t] else [])
        + (FlagBytes(Flags(present), FlagBytesSent(|Schema(t)|, Control(o)))
           + (EncodeBounding(s, bounding) + Tail(s, o)))
    case Cache(ctl, t, extraFlags, body) =>
      [ByteOf(ctl)] + (PutLe16(Word(|body| - 7)) + PutLe16(extraFlags) + [t] + body)
    case Skip(ctl, body) => [ByteOf(ctl)] + ([|body|] + body)
  }

  lemma {:induction false} BoundingRoundTrip(s: State, b: Bounding, data: seq<byte>, off: nat)
    requires |s.bounds| == 4 && b.NewBounds? && LegalSides(s.bounds, b.sides, b.how) && At(data, off, EncodeBounding(s, b))
    ensures ReadBounds(data, off, s.bounds) == BoundsWalk(b.sides, off + |EncodeBounding(s, b)|)
  {
    hide ReadSides, EncodeSides, BitsOf, ByteOf;
    AtByte(data, off, EncodeBounding(s, b), 0);
    AtConcat(data, off, [ByteOf(SideFlags(b.how))], EncodeSides(0, s.bounds, b.sides, b.how));
    BitsOfByteOf(SideFlags(b.how));
    SidesRoundTrip(0, s.bounds, b.sides, b.how, data, off + 1);
    assert b.sides[..0] + s.bounds[0..] == s.bounds;
  }

  // ---------- one order ----------

  lemma {:induction false} SkipRoundTrip(s: State, o: Order, data: seq<byte>, off: nat)
    requires Valid(s) && o.Skip? && Legal(s, o) && At(data, off, EncodeOrder(s, o))
    ensures DecodeOne(s, data, off) == Outcome(After(s, o), off + |EncodeOrder(s, o)|, Delivered(s, o))
  {
    hide BitsOf, ByteOf;
    AtByte(data, off, EncodeOrder(s, o), 0);
    AtByte(data, off, EncodeOrder(s, o), 1);
    BitsOfByteOf(o.ctl);
  }

  lemma {:induction false} CacheRoundTrip(s: State, o: Order, data: seq<byte>, off: nat)
    requires Valid(s) && o.Cache? && Legal(s, o) && At(data, off, EncodeOrder(s, o))
    ensures DecodeOne(s, data, off) == Outcome(After(s, o), off + |EncodeOrder(s, o)|, Delivered(s, o))
  {
    var a := PutLe16(Word(|o.body| - 7)) + PutLe16(o.extraFlags) + [o.t];
    CtlByte(s, o, data, off);
    AtConcat(data, off, [ByteOf(o.ctl)], a + o.body);
    hide BitsOf, ByteOf, Valid, DecodePrimary;
    AtConcat(data, off + 1, a, o.body);
    SecondaryRoundTrip(s, o.t, o.extraFlags, o.body, data, off + 1);
  }

  lemma {:induction false} CtlByte(s: State, o: Order, data: seq<byte>, off: nat)
    requires Valid(s) && Legal(s, o) && At(data, off, EncodeOrder(s, o))
    ensures off < |data| && BitsOf(data[off]) == if o.Draw? then Control(o) else o.ctl
  {
    hide BitsOf, ByteOf, Control, FlagBytes, EncodeBounding, EncodeFields, Valid;
    AtByte(data, off, EncodeOrder(s, o), 0);
    BitsOfByteOf(if o.Draw? then Control(o) else o.ctl);
  }

  lemma {:induction false} SecondaryRoundTrip(s: State, t: byte, extraFlags: nat, body: seq<byte>, data: seq<byte>, off: nat)
    requires extraFlags < 0x1_0000 && |body| <= 32774
    requires At(data, off, PutLe16(Word(|body| - 7)) + PutLe16(extraFlags) + [t]) && At(data, off + 5, body)
    ensures DecodeSecondary(s, data, off) == Outcome(s, off + 5 + |body|, [Secondary(t, extraFlags, body)])
  {
    var h := PutLe16(Word(|body| - 7)) + PutLe16(extraFlags) + [t];
    AtByte(data, off, h, 0);
    AtByte(data, off, h, 1);
    AtByte(data, off, h, 2);
    AtByte(data, off, h, 3);
    AtByte(data, off, h, 4);
    assert GetLe16(data[off..]) == Word(|body| - 7);
    assert GetLe16(data[off + 2..]) == extraFlags;
    assert Int16(Word(|body| - 7)) == |body| - 7;
  }

  lemma {:induction false} DrawRoundTrip(s: State, o: Order, data: seq<byte>, off: nat)
    requires Valid(s) && o.Draw? && Legal(s, o) && At(data, off, EncodeOrder(s, o))
    ensures DecodeOne(s, data, off) == Outcome(After(s, o), off + |EncodeOrder(s, o)|, Delivered(s, o))
  {
    CtlByte(s, o, data, off);
    SchemaSize(o.t);
    var n := FlagBytesSent(|o.present|, Control(o));
    assert |o.present| == |Schema(o.t)| && n <= 4;
    Parts(s, o, data, off, n);
    PrimaryRoundTrip(s, o, data, off + 1, n);
    DrawIsPrimary(s, o, data, off);
    hide *;
  }

  lemma {:induction false} DrawIsPrimary(s: State, o: Order, data: seq<byte>, off: nat)
    requires Valid(s) && o.Draw? && off < |data| && BitsOf(data[off]) == Control(o)
    ensures DecodeOne(s, data, off) == DecodePrimary(s, Control(o), data, off + 1)
  {
    hide DecodePrimary, BitsOf, Valid;
  }

  /** The parts of an encoded primary order behind its control byte. */
  ghost predicate PartsAt(s: State, o: Order, data: seq<byte>, off: nat, n: nat)
    requires Valid(s) && o.Draw? && Legal(s, o) && |o.present| <= 24 && n <= 4
  {
    var off1 := off + if o.typed then 1 else 0;
    var bb := EncodeBounding(s, o.bounding);
    && n == FlagBytesSent(|o.present|, Control(o))
    && At(data, off, if o.typed then [o.t] else [])
    && At(data, off1, FlagBytes(Flags(o.present), n))
    && At(data, off1 + n, bb)
    && At(data, off1 + n + |bb|, Tail(s, o))
  }

  lemma {:induction false} Parts(s: State, o: Order, data: seq<byte>, off: nat, n: nat)
    requires Valid(s) && o.Draw? && Legal(s, o) && |o.present| <= 24 && n == FlagBytesSent(|o.present|, Control(o)) && n <= 4
    requires At(data, off, EncodeOrder(s, o))
    ensures PartsAt(s, o, data, off + 1, n)
    ensures |EncodeOrder(s, o)| == 1 + (if o.typed then 1 else 0) + n + |EncodeBounding(s, o.bounding)|
              + |Tail(s, o)|
  {
    hide *;
    var tb := if o.typed then [o.t] else [];
    DrawIs(s, o, n);
    var fb, bb, enc := FlagBytes(Flags(o.present), n), EncodeBounding(s, o.bounding), Tail(s, o);
    AtConcat(data, off, [ByteOf(Control(o))] + tb, fb + (bb + enc));
    AtConcat(data, off, [ByteOf(Control(o))], tb);
    AtConcat(data, off + 1 + |tb|, fb, bb + enc);
    AtConcat(data, off + 1 + |tb| + n, bb, enc);
    PartsAre(s, o, data, off + 1, n);
  }

  lemma {:induction false} DrawIs(s: State, o: Order, n: nat)
    requires Valid(s) && o.Draw? && Legal(s, o) && |o.present| <= 24 && n == FlagBytesSent(|o.present|, Control(o)) && n <= 4
    ensures o.bounding.NewBounds? ==> LegalSides(s.bounds, o.bounding.sides, o.bounding.how)
    ensures EncodeOrder(s, o) == [ByteOf(Control(o))] + (if o.typed then [o.t] else [])
              + (FlagBytes(Flags(o.present), n) + (EncodeBounding(s, o.bounding) + Tail(s, o)))
  {
    hide FlagBytes, Tail, Schema, EncodeBounding, ByteOf, FlagBytesSent, Control, Flags, LegalSides;
  }

  lemma {:induction false} PartsAre(s: State, o: Order, data: seq<byte>, off: nat, n: nat)
    requires Valid(s) && o.Draw? && Legal(s, o) && |o.present| <= 24 && n <= 4 && n == FlagBytesSent(|o.present|, Control(o))
    requires o.bounding.NewBounds? ==> LegalSides(s.bounds, o.bounding.sides, o.bounding.how)
    requires var off1, bb := off + (if o.typed then 1 else 0), EncodeBounding(s, o.bounding);
             && At(data, off, if o.typed then [o.t] else [])
             && At(data, off1, FlagBytes(Flags(o.present), n)) && At(data, off1 + n, bb) && At(data, off1 + n + |bb|, Tail(s, o))
    ensures PartsAt(s, o, data, off, n)
  {
    hide FlagBytes, Tail, Schema, EncodeBounding, ByteOf, FlagBytesSent, Control, Flags, LegalSides, At, Valid, Legal;
  }

  lemma {:induction false} TypeStage(s: State, t: byte, ctl: seq<bool>, data: seq<byte>, off: nat)
    requires Valid(s) && |ctl| == 8 && At(data, off, if ctl[TYPE_CHANGE] then [t] else []) && (ctl[TYPE_CHANGE] || t == s.last)
    ensures DecodePrimary(s, ctl, data, off) == DecodeFlags(s.(last := t), ctl, data, off + if ctl[TYPE_CHANGE] then 1 else 0)
  {
    hide DecodeFlags, Valid;
    if ctl[TYPE_CHANGE] { AtByte(data, off, [t], 0); }
  }

  lemma {:induction false} FlagsStage(s: State, present: seq<bool>, ctl: seq<bool>, data: seq<byte>, off: nat, n: nat)
    requires Valid(s) && |ctl| == 8 && Schema(s.last) != [] && |present| == |Schema(s.last)| <= 24
    requires n == FlagBytesSent(|present|, ctl) && n <= 4 && (forall k :: 8 * n <= k < |present| ==> !present[k])
    requires At(data, off, FlagBytes(Flags(present), n))
    ensures DecodeFlags(s, ctl, data, off) == DecodeBounds(s, ctl, Flags(present), data, off + n)
  {
    hide *;
    DroppedFlags(present, n);
    AtIs(data, off, FlagBytes(Flags(present), n));
    DecodeFlagsIs(s, ctl, data, off, n);
  }

  lemma {:induction false} AtIs(data: seq<byte>, off: nat, enc: seq<byte>)
    requires At(data, off, enc)
    ensures off + |enc| <= |data| && data[off..off + |enc|] == enc
  {
  }

  lemma {:induction false} DecodeFlagsIs(s: State, ctl: seq<bool>, data: seq<byte>, off: nat, n: nat)
    requires Valid(s) && |ctl| == 8 && Schema(s.last) != [] && n == FlagBytesSent(|Schema(s.last)|, ctl) && off + n <= |data| && n <= 4
    ensures DecodeFlags(s, ctl, data, off) == DecodeBounds(s, ctl, FlagBits(data[off..off + n]), data, off + n)
  {
    hide DecodeBounds, Valid, Schema, FlagBits, FlagBytesSent;
  }

  lemma {:induction false} BoundsStage(s: State, b: Bounding, ctl: seq<bool>, flags: seq<bool>, data: seq<byte>, off: nat)
    requires Valid(s) && |ctl| == 8 && |flags| == 32 && Schema(s.last) != [] && off <= |data|
    requires ctl[BOUNDS] == !b.Unbounded? && ctl[ZERO_BOUNDS_DELTA] == b.LastBounds?
    requires (b.NewBounds? ==> LegalSides(s.bounds, b.sides, b.how)) && At(data, off, EncodeBounding(s, b))
    ensures Valid(AfterBounds(s, b))
    ensures DecodeBounds(s, ctl, flags, data, off) ==
              DecodeFields(AfterBounds(s, b), ctl, flags, data, off + |EncodeBounding(s, b)|)
  {
    hide *;
    AfterBoundsValid(s, b);
    BoundingIs(s, b);
    if b.NewBounds? {
      ReadBoundsStays(data, off, s.bounds);
      BoundingRoundTrip(s, b, data, off);
      NewBoundsRead(s, b, ctl, flags, data, off);
    } else {
      OldBoundsKept(s, ctl, flags, data, off);
    }
  }

  lemma {:induction false} BoundingIs(s: State, b: Bounding)
    requires Valid(s) && (b.NewBounds? ==> LegalSides(s.bounds, b.sides, b.how))
    ensures |s.bounds| == 4 && (b.NewBounds? ==> AfterBounds(s, b) == s.(bounds := b.sides))
    ensures !b.NewBounds? ==> EncodeBounding(s, b) == [] && AfterBounds(s, b) == s
  {
    hide Schema;
  }

  lemma {:induction false} OldBoundsKept(s: State, ctl: seq<bool>, flags: seq<bool>, data: seq<byte>, off: nat)
    requires Valid(s) && |ctl| == 8 && |flags| == 32 && Schema(s.last) != [] && off <= |data|
    requires !ctl[BOUNDS] || ctl[ZERO_BOUNDS_DELTA]
    ensures DecodeBounds(s, ctl, flags, data, off) == DecodeFields(s, ctl, flags, data, off)
  {
    hide DecodeFields, Valid, Schema, ReadBounds;
  }

  lemma {:induction false} NewBoundsRead(s: State, b: Bounding, ctl: seq<bool>, flags: seq<bool>, data: seq<byte>, off: nat)
    requires Valid(s) && |s.bounds| == 4 && |ctl| == 8 && |flags| == 32 && Schema(s.last) != [] && off <= |data|
    requires ctl[BOUNDS] && !ctl[ZERO_BOUNDS_DELTA] && b.NewBounds? && Valid(s.(bounds := b.sides))
    ensures var w := ReadBounds(data, off, s.bounds);
            w.sides == b.sides && 0 <= w.end <= |data| ==>
              DecodeBounds(s, ctl, flags, data, off) == DecodeFields(s.(bounds := b.sides), ctl, flags, data, w.end)
  {
    hide DecodeFields, Valid, Schema, ReadBounds;
  }

  lemma {:induction false} AfterBoundsValid(s: State, b: Bounding)
    requires Valid(s) && (b.NewBounds? ==> LegalSides(s.bounds, b.sides, b.how))
    ensures Valid(AfterBounds(s, b))
  {
    hide Schema;
  }

  lemma {:induction false} FrontStages(s: State, o: Order, data: seq<byte>, off: nat, n: nat)
    requires Valid(s) && o.Draw? && Legal(s, o) && |o.present| == |Schema(o.t)| <= 24 && n <= 4 && PartsAt(s, o, data, off, n)
    ensures var off1 := off + (if o.typed then 1 else 0);
            && Valid(s.(last := o.t)) && off1 + n <= |data|
            && DecodePrimary(s, Control(o), data, off) == DecodeBounds(s.(last := o.t), Control(o), Flags(o.present), data, off1 + n)
  {
    hide DecodePrimary, DecodeBounds, DecodeFlags, EncodeFields, EncodeBounding, FlagBytes, FlagBytesSent, Schema, Flags, LegalFields;
    TypeStage(s, o.t, Control(o), data, off);
    FlagsStage(s.(last := o.t), o.present, Control(o), data, off + (if o.typed then 1 else 0), n);
  }

  lemma {:induction false} BackStage(s: State, o: Order, data: seq<byte>, off: nat)
    requires Valid(s) && o.Draw? && Legal(s, o) && |Schema(o.t)| <= 24 && off <= |data|
    requires At(data, off, EncodeBounding(s, o.bounding))
    ensures Valid(s.(last := o.t)) && Valid(Bounded(s, o))
    ensures DecodeBounds(s.(last := o.t), Control(o), Flags(o.present), data, off) ==
              DecodeFields(Bounded(s, o), Control(o), Flags(o.present), data, off + |EncodeBounding(s, o.bounding)|)
  {
    hide *;
    TypedState(s, o);
    BoundsStage(s.(last := o.t), o.bounding, Control(o), Flags(o.present), data, off);
  }

  lemma {:induction false} TypedState(s: State, o: Order)
    requires Valid(s) && o.Draw? && Legal(s, o) && |Schema(o.t)| <= 24
    ensures var s1 := s.(last := o.t);
            && Valid(s1) && Schema(s1.last) != [] && |o.present| <= 24
            && AfterBounds(s1, o.bounding) == Bounded(s, o)
            && (o.bounding.NewBounds? ==> LegalSides(s.bounds, o.bounding.sides, o.bounding.how))
            && EncodeBounding(s1, o.bounding) == EncodeBounding(s, o.bounding)
            && Control(o)[BOUNDS] == !o.bounding.Unbounded? && Control(o)[ZERO_BOUNDS_DELTA] == o.bounding.LastBounds?
  {
    hide Schema, EncodeSides;
  }

  lemma {:induction false} PrimaryRoundTrip(s: State, o: Order, data: seq<byte>, off: nat, n: nat)
    requires Valid(s) && o.Draw? && Legal(s, o) && |o.present| == |Schema(o.t)| <= 24 && n <= 4 && PartsAt(s, o, data, off, n)
    ensures DecodePrimary(s, Control(o), data, off) ==
              Outcome(After(s, o), off + (if o.typed then 1 else 0) + n + |EncodeBounding(s, o.bounding)|
                        + |Tail(s, o)|,
                      Delivered(s, o))
  {
    hide DecodePrimary, DecodeBounds, EncodeFields, EncodeBounding, FlagBytes, FlagBytesSent, Schema, Flags, LegalFields, LegalSides, Delivered, After, At;
    FrontStages(s, o, data, off, n);
    var off1 := off + (if o.typed then 1 else 0) + n;
    BackStage(s, o, data, off1);
    FieldsStage(Bounded(s, o), s, o, data, off1 + |EncodeBounding(s, o.bounding)|);
  }

  lemma {:induction false} FieldsStage(s2: State, s: State, o: Order, data: seq<byte>, off: nat)
    requires Valid(s) && o.Draw? && Legal(s, o) && |Schema(o.t)| <= 24 && s2 == Bounded(s, o)
    requires At(data, off, Tail(s, o))
    ensures DecodeFields(s2, Control(o), Flags(o.present), data, off) ==
              Outcome(After(s, o), off + |Tail(s, o)|, Delivered(s, o))
  {
    hide ReadFields, EncodeFields, Schema;
    assert Flags(o.present)[..|o.present|] == o.present;
    FieldsRoundTrip(Schema(o.t), 0, s.regs[o.t], o.fields, o.present, o.delta, data, off, Flags(o.present));
    assert o.fields[..0] + s.regs[o.t][0..] == s.regs[o.t];
  }

  // ---------- whole streams ----------

  lemma {:induction false} OrderRoundTrip(s: State, o: Order, data: seq<byte>, off: nat)
    requires Valid(s) && Legal(s, o) && At(data, off, EncodeOrder(s, o))
    ensures DecodeOne(s, data, off) == Outcome(After(s, o), off + |EncodeOrder(s, o)|, Delivered(s, o))
  {
    match o
    case Draw(_, _, _, _, _, _, _, _) => DrawRoundTrip(s, o, data, off);
    case Cache(_, _, _, _) => CacheRoundTrip(s, o, data, off);
    case Skip(_, _) => SkipRoundTrip(s, o, data, off);
  }

  lemma {:induction false} AfterValid(s: State, o: Order)
    requires Valid(s) && Legal(s, o)
    ensures Valid(After(s, o))
  {
    hide Schema, EncodeField, Reachable;
  }

  ghost predicate LegalRun(s: State, os: seq<Order>)
    requires Valid(s)
    decreases os
  {
    os == [] || (Legal(s, os[0]) && (AfterValid(s, os[0]); LegalRun(After(s, os[0]), os[1..])))
  }

  function EncodeAll(s: State, os: seq<Order>): seq<byte>
    requires Valid(s) && LegalRun(s, os)
    decreases os
  {
    if os == [] then [] else AfterValid(s, os[0]); EncodeOrder(s, os[0]) + EncodeAll(After(s, os[0]), os[1..])
  }

  function AfterAll(s: State, os: seq<Order>): State
    decreases os
  {
    if os == [] then s else AfterAll(After(s, os[0]), os[1..])
  }

  function DeliveredAll(s: State, os: seq<Order>): seq<Event>
    requires Valid(s) && LegalRun(s, os)
    decreases os
  {
    if os == [] then [] else AfterValid(s, os[0]); DrawSize(s, os[0]); Delivered(s, os[0]) + DeliveredAll(After(s, os[0]), os[1..])
  }

  lemma {:induction false} DrawSize(s: State, o: Order)
    requires Valid(s) && Legal(s, o)
    ensures o.Draw? ==> |o.present| <= 22
  {
    if o.Draw? { SchemaSize(o.t); }
  }

  /** The decoder delivers every order with its fields and bounds, in order, and ends where
      the sender ends: with the same state, behind the last order. */
  lemma {:induction false} Synchronised(s: State, os: seq<Order>, data: seq<byte>, off: nat)
    requires Valid(s) && LegalRun(s, os) && At(data, off, EncodeAll(s, os))
    ensures DecodeOrders(s, data, off, |os|) == Outcome(AfterAll(s, os), off + |EncodeAll(s, os)|, DeliveredAll(s, os))
    decreases os
  {
    hide Legal, Valid, DecodeOne, After, EncodeOrder, Delivered;
    if os != [] {
      var enc := EncodeOrder(s, os[0]);
      AfterValid(s, os[0]);
      DrawSize(s, os[0]);
      AtConcat(data, off, enc, EncodeAll(After(s, os[0]), os[1..]));
      OrderRoundTrip(s, os[0], data, off);
      Synchronised(After(s, os[0]), os[1..], data, off + |enc|);
    }
  }

  /** Any fields that fit can be sent: all of them, in full. */
  lemma {:induction false} SendableInFull(s: State, t: byte, fields: seq<Field>)
    requires Valid(s) && Schema(t) != [] && FieldsFit(Schema(t), fields)
    requires forall k :: 0 <= k < |fields| && Schema(t)[k] == Var ==> fields[k].buf[fields[k].used..] == s.regs[t][k].buf[fields[k].used..]
    ensures Legal(s, Draw(t, fields, seq(|fields|, _ => true), false, true, false, false, Unbounded))
  {
    hide Schema;
  }
}
