/** The decoder object: fields read in place, orders handed to a callback. */
module OrderDecoder {
  import opened Bits
  import opened Wire
  import opened Orders

  /** delivered is the log of callback invocations. */
  class Decoder {
    var last: byte
    var bounds: seq<int16>
    var regs: map<byte, seq<Field>>
    var delivered: seq<Event>

    ghost function Contents(): State
      reads this
    {
      State(last, bounds, regs)
    }

    method ReadSidesInto(data: seq<byte>, off: nat, flags: seq<bool>) returns (end: int)
      requires |bounds| == 4 && |flags| == 8 && off <= |data|
      modifies this`bounds
      ensures BoundsWalk(bounds, end) == ReadSides(0, data, off, flags, old(bounds))
    {
      hide ReadField;
      end := off;
      ghost var goal := ReadSides(0, data, off, flags, bounds);
      for i := 0 to 4
        invariant |bounds| == 4 && 0 <= end <= |data| && ReadSides(i, data, end, flags, bounds) == goal
      {
        if flags[i] || flags[i + 4] {
          ReadStays(I16, data, end, !flags[i], Num(bounds[i]));
          var r := ReadField(I16, data, end, !flags[i], Num(bounds[i]));
          if r.Short? {
            return -1;
          }
          bounds := bounds[i := r.f.n];
          end := r.off;
        }
      }
    }

    method ReadBoundsInto(data: seq<byte>, off: nat) returns (end: int)
      requires |bounds| == 4 && off <= |data|
      modifies this`bounds
      ensures BoundsWalk(bounds, end) == ReadBounds(data, off, old(bounds))
    {
      hide ReadSides, BitsOf;
      if off >= |data| {
        return -1;
      }
      end := ReadSidesInto(data, off + 1, BitsOf(data[off]));
    }

    method ReadFieldsInto(t: byte, schema: seq<Kind>, data: seq<byte>, off: nat, flags: seq<bool>, delta: bool) returns (end: int)
      requires t in regs && |schema| == |regs[t]| && |schema| <= |flags| && off <= |data|
      modifies this`regs
      ensures var w := ReadFields(schema, 0, data, off, flags, delta, old(regs[t]));
              regs == old(regs)[t := w.fields] && end == w.end
    {
      hide ReadField;
      end := off;
      ghost var goal := ReadFields(schema, 0, data, off, flags, delta, regs[t]);
      ghost var before := regs;
      for i := 0 to |schema|
        invariant t in regs && regs == before[t := regs[t]] && |regs[t]| == |schema| && 0 <= end <= |data|
        invariant ReadFields(schema, i, data, end, flags, delta, regs[t]) == goal
      {
        if flags[i] {
          ReadStays(schema[i], data, end, delta, regs[t][i]);
          var r := ReadField(schema[i], data, end, delta, regs[t][i]);
          if r.Short? {
            return -1;
          }
          regs := regs[t := regs[t][i := r.f]];
          end := r.off;
        }
      }
    }

    method DecodePrimary(ctl: seq<bool>, data: seq<byte>, off0: nat) returns (end: int)
      requires Valid(Contents()) && |ctl| == 8 && off0 <= |data|
      modifies this
      ensures Does(Orders.DecodePrimary(old(Contents()), ctl, data, off0), Contents(), end, old(delivered), delivered)
    {
      hide ReadFields, ReadBounds, Schema, FlagBits, FlagBytesSent, FieldsFit;
      var off := off0;
      if ctl[TYPE_CHANGE] {
        if off >= |data| {
          return -1;
        }
        last := data[off];
        off := off + 1;
      }
      end := DecodeTyped(ctl, data, off);
    }

    method DecodeTyped(ctl: seq<bool>, data: seq<byte>, off: nat) returns (end: int)
      requires Valid(Contents()) && |ctl| == 8 && off <= |data|
      modifies this
      ensures Does(DecodeFlags(old(Contents()), ctl, data, off), Contents(), end, old(delivered), delivered)
    {
      hide ReadFields, ReadBounds, Schema, FlagBits, FieldsFit, DecodeFields;
      var schema := Schema(last);
      var nFlagBytes := FlagBytesSent(|schema|, ctl);
      if schema == [] || off + nFlagBytes > |data| {
        return -1;
      }
      SchemaSize(last);
      var fieldFlags := FlagBits(data[off..off + nFlagBytes]);
      end := off + nFlagBytes;
      if ctl[BOUNDS] && !ctl[ZERO_BOUNDS_DELTA] {
        ReadBoundsStays(data, end, bounds);
        end := ReadBoundsInto(data, end);
        if end < 0 {
          return;
        }
      }
      end := DecodeOrderFields(ctl, fieldFlags, data, end);
    }

    method DecodeOrderFields(ctl: seq<bool>, fieldFlags: seq<bool>, data: seq<byte>, off: nat) returns (end: int)
      requires Valid(Contents()) && Schema(last) != [] && |ctl| == 8 && |fieldFlags| == 32 && off <= |data|
      modifies this`regs, this`delivered
      ensures Does(DecodeFields(old(Contents()), ctl, fieldFlags, data, off), Contents(), end, old(delivered), delivered)
    {
      SchemaSize(last);
      ReadFieldsStays(Schema(last), 0, data, off, fieldFlags, ctl[DELTA], regs[last]);
      hide ReadFields, Schema;
      end := ReadFieldsInto(last, Schema(last), data, off, fieldFlags, ctl[DELTA]);
      if end >= 0 {
        delivered := delivered + [Primary(last, fieldFlags, ctl[BOUNDS], regs[last], bounds)];
      }
    }

    method DecodeSecondary(data: seq<byte>, off: nat) returns (end: int)
      requires off <= |data|
      modifies this`delivered
      ensures Does(Orders.DecodeSecondary(old(Contents()), data, off), Contents(), end, old(delivered), delivered)
    {
      if off + 5 > |data| {
        return -1;
      }
      var orderLength: int := Int16(GetLe16(data[off..]));
      var extraFlags := GetLe16(data[off + 2..]);
      var orderType := data[off + 4];
      var dataLen: int := orderLength + 7;
      if dataLen < 0 || off + 5 + dataLen > |data| {
        return -1;
      }
      delivered := delivered + [Secondary(orderType, extraFlags, data[off + 5..off + 5 + dataLen])];
      end := off + 5 + dataLen;
    }

    method DecodeOne(data: seq<byte>, off: nat) returns (end: int)
      requires Valid(Contents()) && off < |data|
      modifies this
      ensures Does(Orders.DecodeOne(old(Contents()), data, off), Contents(), end, old(delivered), delivered)
    {
      hide Valid, Orders.DecodePrimary, Orders.DecodeSecondary, BitsOf;
      var ctl := BitsOf(data[off]);
      if !ctl[STANDARD] {
        if off + 1 >= |data| {
          return -1;
        }
        end := off + 2 + data[off + 1];
      } else if ctl[SECONDARY] {
        end := DecodeSecondary(data, off + 1);
      } else {
        end := DecodePrimary(ctl, data, off + 1);
      }
    }

    method DecodeOrders(data: seq<byte>, numOrders: nat)
      requires Valid(Contents())
      modifies this
      ensures var o := Orders.DecodeOrders(old(Contents()), data, 0, numOrders);
              Contents() == o.s && delivered == old(delivered) + o.events && Valid(Contents())
    {
      hide *;
      var off: int, i: nat := 0, 0;
      ghost var goal := Orders.DecodeOrders(Contents(), data, 0, numOrders);
      ghost var before := delivered;
      ghost var done: seq<Event> := [];
      LeadsFirst(goal);
      assert delivered == before + done;
      while i < numOrders && off < |data|
        invariant i <= numOrders && 0 <= off && Valid(Contents()) && delivered == before + done
        invariant Leads(Orders.DecodeOrders(Contents(), data, off, numOrders - i), done, goal)
        decreases numOrders - i
      {
        ghost var s, o, log := Contents(), Orders.DecodeOne(Contents(), data, off), delivered;
        DecodeOneStays(s, data, off);
        LeadsOn(s, data, off, numOrders - i, done, goal);
        off := DecodeOne(data, off);
        DoesIs(o, Contents(), off, log, delivered);
        assert before + done + o.events == before + (done + o.events);
        if off < 0 {
          LeadsIs(o, done, goal);
          return;
        }
        done := done + o.events;
        i := i + 1;
      }
      LeadsEnd(Contents(), data, off, numOrders - i, done, goal);
    }
  }

  /** A step's effect on the object: state, end, and what was added to the log. */
  ghost predicate Does(o: Outcome, s: State, end: int, before: seq<Event>, after: seq<Event>) {
    s == o.s && end == o.end && after == before + o.events
  }

  /** What is still to be decoded completes what was done. */
  ghost predicate Leads(rest: Outcome, done: seq<Event>, goal: Outcome) {
    rest.s == goal.s && done + rest.events == goal.events
  }

  lemma {:induction false} DoesIs(o: Outcome, s: State, end: int, before: seq<Event>, after: seq<Event>)
    ensures Does(o, s, end, before, after) <==> s == o.s && end == o.end && after == before + o.events
  {
  }

  lemma {:induction false} LeadsIs(rest: Outcome, done: seq<Event>, goal: Outcome)
    ensures Leads(rest, done, goal) <==> rest.s == goal.s && done + rest.events == goal.events
  {
  }

  lemma {:induction false} LeadsFirst(goal: Outcome)
    ensures Leads(goal, [], goal)
  {
    assert [] + goal.events == goal.events;
  }

  lemma {:induction false} LeadsEnd(s: State, data: seq<byte>, off: nat, n: nat, done: seq<Event>, goal: Outcome)
    requires Valid(s) && (n == 0 || off >= |data|) && Leads(Orders.DecodeOrders(s, data, off, n), done, goal)
    ensures s == goal.s && done == goal.events
  {
    hide Valid, Orders.DecodeOne;
    assert done + [] == done;
  }

  lemma {:induction false} LeadsOn(s: State, data: seq<byte>, off: nat, n: nat, done: seq<Event>, goal: Outcome)
    requires Valid(s) && off < |data| && n > 0 && Leads(Orders.DecodeOrders(s, data, off, n), done, goal)
    ensures var o := Orders.DecodeOne(s, data, off);
            && Valid(o.s)
            && if o.end < 0 then Leads(o, done, goal)
               else Leads(Orders.DecodeOrders(o.s, data, o.end, n - 1), done + o.events, goal)
  {
    hide Valid, Orders.DecodeOne;
    var o := Orders.DecodeOne(s, data, off);
    DecodeOneStays(s, data, off);
    if o.end >= 0 {
      var rest := Orders.DecodeOrders(o.s, data, o.end, n - 1);
      assert done + (o.events + rest.events) == done + o.events + rest.events;
    }
  }
}
