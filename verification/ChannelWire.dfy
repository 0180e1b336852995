/** Channel PDUs byte by byte: what each one does to the channel it names, and what is
    written for a message. */
module ChannelWire {
  import opened Bits
  import opened Wire
  import opened Dvc
  import DvcRuns
  import StaticChannel

  // ---------- dynamic channels: numbers on the wire ----------

  /** One, two or four bytes, low byte first, as the two size bits say. */
  ghost predicate NumberIs(bytes: seq<byte>, cb: nat, n: nat) {
    match cb
    case 0 => |bytes| == 1 && n == bytes[0] as int
    case 1 => |bytes| == 2 && n == (bytes[0] as int) + 256 * (bytes[1] as int)
    case 2 => |bytes| == 4 && LongIs(bytes, 0, n)
    case _ => false
  }

  ghost predicate LongIs(bytes: seq<byte>, i: nat, n: nat) {
    i + 3 < |bytes|
    && n == (bytes[i] as int) + 256 * (bytes[i + 1] as int) + 65536 * (bytes[i + 2] as int) + 16777216 * (bytes[i + 3] as int)
  }

  lemma {:induction false} LongReads(bytes: seq<byte>, n: nat)
    requires LongIs(bytes, 0, n)
    ensures GetLe32(bytes) == n && n < TWO_32
  {
    assert bytes[..2][0] == bytes[0] && bytes[..2][1] == bytes[1] && bytes[2..4][0] == bytes[2] && bytes[2..4][1] == bytes[3];
  }

  lemma {:induction false} LongWrites(n: nat)
    requires n < TWO_32
    ensures LongIs(PutLe32(n), 0, n)
  {
    var lo, hi := n % 0x1_0000, n / 0x1_0000;
    var s := PutLe32(n);
    assert s == PutLe16(lo) + PutLe16(hi);
    HalfBytes(lo);
    HalfBytes(hi);
    hide PutLe32, PutLe16, GetLe16, GetLe32;
    assert s[0] == PutLe16(lo)[0] && s[1] == PutLe16(lo)[1] && s[2] == PutLe16(hi)[0] && s[3] == PutLe16(hi)[1];
    assert n == lo + 65536 * hi;
  }

  lemma {:induction false} HalfBytes(n: nat)
    requires n < 0x1_0000
    ensures (PutLe16(n)[0] as int) + 256 * (PutLe16(n)[1] as int) == n
  {
  }

  /** Any spelling of a number is read, whatever follows. */
  lemma {:induction false} NumberReads(bytes: seq<byte>, cb: nat, n: nat, rest: seq<byte>)
    requires NumberIs(bytes, cb, n)
    ensures GetChannelId(bytes + rest, cb) == (n, |bytes|)
  {
    if cb == 2 {
      LongReads(bytes, n);
      hide GetLe32;
      assert (bytes + rest)[..4] == bytes;
    } else if cb == 1 {
      assert (bytes + rest)[..2] == bytes;
    }
  }

  /** A PDU's first byte: the command, the length's size and the number's size. */
  function First(cmd: nat, sp: nat, cb: nat): byte
    requires cmd < 16 && sp < 4 && cb < 4
  {
    16 * cmd + 4 * sp + cb
  }

  lemma {:induction false} FirstByte(cmd: nat, sp: nat, cb: nat)
    requires cmd < 16 && sp < 4 && cb < 4
    ensures Cmd(First(cmd, sp, cb)) == cmd && Sp(First(cmd, sp, cb)) == sp && CbId(First(cmd, sp, cb)) == cb
  {
    DvcRuns.HeaderFields(cmd, sp, cb);
    assert First(cmd, sp, cb) == Dvc.Header(cmd, sp, cb);
    hide First, Dvc.Header, Cmd, Sp, CbId;
  }

  lemma {:induction false} SizeBits(bytes: seq<byte>, cb: nat, n: nat)
    requires NumberIs(bytes, cb, n)
    ensures cb < 3
  {
  }

  lemma {:induction false} TargetIs(pdu: seq<byte>, id: nat, n: nat)
    requires pdu != [] && GetChannelId(pdu[1..], CbId(pdu[0])) == (id, n)
    ensures Target(pdu) == (id, 1 + n)
  {
    hide GetChannelId, CbId;
  }

  lemma {:induction false} Named(cmd: nat, sp: nat, cb: nat, name: seq<byte>, id: nat, rest: seq<byte>)
    requires cmd < 16 && sp < 4 && NumberIs(name, cb, id)
    ensures cb < 4
    ensures var pdu := [First(cmd, sp, cb)] + name + rest;
            && Cmd(pdu[0]) == cmd && Sp(pdu[0]) == sp && Target(pdu) == (id, 1 + |name|)
            && 1 + |name| <= |pdu| && pdu[1 + |name|..] == rest
  {
    hide *;
    SizeBits(name, cb, id);
    FirstByte(cmd, sp, cb);
    NumberReads(name, cb, id, rest);
    var pdu := [First(cmd, sp, cb)] + name + rest;
    assert pdu[1..] == name + rest;
    TargetIs(pdu, id, |name|);
  }

  // ---------- dynamic channels: what a PDU does ----------

  /** A create PDU with a name up to a zero opens the channel with nothing pending when the
      policy admits the name, and leaves it as it was when not. */
  lemma {:induction false} CreateOpens(admit: Policy, chs: Channels, sp: nat, cb: nat, number: seq<byte>, id: nat, name: seq<byte>, rest: seq<byte>)
    requires sp < 4 && NumberIs(number, cb, id) && 0 !in name
    ensures cb < 4 && Step(admit, chs, [First(1, sp, cb)] + number + (name + [0] + rest)) ==
              (match admit(name) case Rejected => chs case Accepted(handled) => chs[id := Channel(handled, [], 0)], [])
  {
    Named(1, sp, cb, number, id, name + [0] + rest);
    CStringEnds(name, rest);
    hide First, CString, NumberIs;
    StoreLookup(chs, id);
  }

  lemma {:induction false} CStringEnds(name: seq<byte>, rest: seq<byte>)
    requires 0 !in name
    ensures CString(name + [0] + rest) == name
  {
    if name != [] {
      assert (name + [0] + rest)[1..] == name[1..] + [0] + rest;
      CStringEnds(name[1..], rest);
    }
  }

  /** A close PDU removes the channel. */
  lemma {:induction false} CloseRemoves(admit: Policy, chs: Channels, sp: nat, cb: nat, number: seq<byte>, id: nat, rest: seq<byte>)
    requires sp < 4 && NumberIs(number, cb, id)
    ensures cb < 4 && Step(admit, chs, [First(4, sp, cb)] + number + rest) == (chs - {id}, [])
  {
    Named(4, sp, cb, number, id, rest);
    hide First, NumberIs;
  }

  /** A data PDU: without a message in progress its payload is given to the handler; else it
      is added, and when the announced length is reached (counted in 32 bits) that many
      bytes are given and the rest is dropped.  A channel that is not open gets nothing. */
  lemma {:induction false} DataArrives(admit: Policy, chs: Channels, sp: nat, cb: nat, number: seq<byte>, id: nat, payload: seq<byte>)
    requires sp < 4 && NumberIs(number, cb, id)
    ensures cb < 4
    ensures var r := Step(admit, chs, [First(3, sp, cb)] + number + payload);
            if id !in chs then r == (chs, [])
            else
              var c := chs[id];
              var buf := c.buf + payload;
              if c.total == 0 then r == (chs, if c.handled then [Tagged(id, payload)] else [])
              else if |buf| % 0x1_0000_0000 < c.total then r == (chs[id := Channel(c.handled, buf, c.total)], [])
              else c.total <= |buf| && r == (chs[id := Channel(c.handled, [], 0)], if c.handled then [Tagged(id, buf[..c.total])] else [])
  {
    Named(3, sp, cb, number, id, payload);
    hide First, NumberIs;
    if id in chs && chs[id].total == 0 {
      assert chs[id := chs[id]] == chs;
    }
    Absent(chs, id);
    if id in chs && chs[id].total > 0 {
      TagOne(id, (chs[id].buf + payload)[..Least(chs[id].total, |chs[id].buf + payload|)]);
    } else {
      TagOne(id, payload);
    }
    hide Tag;
  }

  lemma {:induction false} Absent(chs: Channels, id: nat)
    ensures id !in chs ==> chs - {id} == chs
  {
  }

  lemma {:induction false} TagOne(id: nat, data: seq<byte>)
    ensures Tag(id, [data]) == [Tagged(id, data)] && Tag(id, []) == []
  {
  }

  /** A data-first PDU: a length over 64 MiB clears the channel; a payload that holds the
      length is given to the handler at once, cut to it; else it is what is pending now. */
  lemma {:induction false} DataFirstArrives(admit: Policy, chs: Channels, sp: nat, cb: nat, number: seq<byte>, id: nat, length: seq<byte>, total: nat, payload: seq<byte>)
    requires NumberIs(number, cb, id) && NumberIs(length, sp, total)
    ensures cb < 4 && sp < 4
    ensures var r := Step(admit, chs, [First(2, sp, cb)] + number + (length + payload));
            if id !in chs then r == (chs, [])
            else
              var c := chs[id];
              if total > 67108864 then r == (chs[id := Channel(c.handled, [], 0)], [])
              else if |payload| % 0x1_0000_0000 < total then r == (chs[id := Channel(c.handled, payload, total)], [])
              else total <= |payload| && r == (chs[id := Channel(c.handled, [], 0)], if c.handled then [Tagged(id, payload[..total])] else [])
  {
    hide *;
    SizeBits(length, sp, total);
    Named(2, sp, cb, number, id, length + payload);
    NumberReads(length, sp, total, payload);
    var pdu, off := [First(2, sp, cb)] + number + (length + payload), 1 + |number|;
    assert (length + payload)[|length|..] == payload;
    assert pdu[off + |length|..] == pdu[off..][|length|..];
    FirstStep(admit, chs, pdu, id, off, total, |length|);
    if id in chs {
      FirstEffect(chs[id], total, payload);
      var e := OnDataFirst(chs[id], total, payload);
      TagOne(id, if e.delivered == [] then [] else e.delivered[0]);
    }
  }

  lemma {:induction false} FirstStep(admit: Policy, chs: Channels, pdu: seq<byte>, id: nat, off: nat, total: nat, n: nat)
    requires pdu != [] && Cmd(pdu[0]) == 2 && Target(pdu) == (id, off) && off + n <= |pdu|
    requires GetChannelId(pdu[off..], Sp(pdu[0])) == (total, n)
    ensures id !in chs ==> Step(admit, chs, pdu) == (chs, [])
    ensures id in chs ==>
              var e := OnDataFirst(chs[id], total, pdu[off + n..]);
              Step(admit, chs, pdu) == (chs[id := e.channel], Tag(id, e.delivered))
  {
    Absent(chs, id);
    TagOne(id, []);
    hide GetChannelId, Cmd, Sp, OnDataFirst, Target, Tag;
  }

  lemma {:induction false} FirstEffect(c: Channel, total: nat, payload: seq<byte>)
    ensures var e := OnDataFirst(c, total, payload);
            if total > 67108864 then e == Effect(Channel(c.handled, [], 0), [])
            else if |payload| % 0x1_0000_0000 < total then e == Effect(Channel(c.handled, payload, total), [])
            else total <= |payload| && e == Effect(Channel(c.handled, [], 0), if c.handled then [payload[..total]] else [])
  {
  }

  /** A PDU whose number is cut off, or has the size that does not exist, names channel 0. */
  lemma {:induction false} NoNumberIsZero(cmd: nat, sp: nat, cb: nat, rest: seq<byte>)
    requires cmd < 16 && sp < 4 && cb < 4
    requires |rest| < (match cb case 0 => 1 case 1 => 2 case 2 => 4 case _ => |rest| + 1)
    ensures Target([First(cmd, sp, cb)] + rest) == (0, 1)
  {
    FirstByte(cmd, sp, cb);
    hide First, CbId;
    assert ([First(cmd, sp, cb)] + rest)[1..] == rest;
  }

  /** Other commands, an empty PDU and a create PDU without a name do nothing. */
  lemma {:induction false} NothingElse(admit: Policy, chs: Channels, cmd: nat, sp: nat, cb: nat, number: seq<byte>, id: nat, rest: seq<byte>)
    requires cmd < 16 && sp < 4 && NumberIs(number, cb, id)
    requires cmd == 0 || cmd >= 5 || (cmd == 1 && rest == [])
    ensures cb < 4 && Step(admit, chs, [First(cmd, sp, cb)] + number + rest) == (chs, []) && Step(admit, chs, []) == (chs, [])
  {
    Named(cmd, sp, cb, number, id, rest);
    StoreLookup(chs, id);
    hide First, NumberIs;
  }

  // ---------- dynamic channels: what is sent ----------

  /** The shortest spelling, and the size bits that go with it. */
  lemma {:induction false} NumberWrites(n: nat)
    requires n < TWO_32
    ensures var cb := if n < 256 then 0 else if n < 65536 then 1 else 2;
            CbIdSize(n) == cb && NumberIs(PutChannelId(n), cb, n)
  {
    if n < 256 {
    } else if n < 65536 {
      HalfBytes(n);
      hide PutLe16;
    } else {
      LongWrites(n);
      hide PutLe32, LongIs;
    }
  }

  /** A message that fits one PDU is sent as one. */
  lemma {:induction false} OneSent(max: nat, id: nat, data: seq<byte>, number: seq<byte>, cb: nat)
    requires id < TWO_32 && cb == (if id < 256 then 0 else if id < 65536 then 1 else 2) && NumberIs(number, cb, id)
    requires 1 + |number| + |data| <= max
    ensures Splittable(max, id, |data|) && Fragments(max, id, data) == [[First(3, 0, cb)] + number + data]
  {
    NumberWrites(id);
    SameSpelling(number, PutChannelId(id), cb, id);
    hide NumberIs, PutChannelId;
  }

  /** Two spellings of one size are the same bytes. */
  lemma {:induction false} SameSpelling(a: seq<byte>, b: seq<byte>, cb: nat, n: nat)
    requires NumberIs(a, cb, n) && NumberIs(b, cb, n)
    ensures a == b
  {
    if cb == 2 {
      LongDigits(a, n);
      LongDigits(b, n);
      hide LongIs;
    }
  }

  lemma {:induction false} LongDigits(a: seq<byte>, n: nat)
    requires LongIs(a, 0, n)
    ensures a[0] as int == n % 256 && a[1] as int == n / 256 % 256 && a[2] as int == n / 256 / 256 % 256 && a[3] as int == n / 256 / 256 / 256
  {
    Digits(a[0], a[1], a[2], a[3], n);
  }

  lemma {:induction false} Digits(b0: byte, b1: byte, b2: byte, b3: byte, n: nat)
    requires n == (b0 as int) + 256 * (b1 as int) + 65536 * (b2 as int) + 16777216 * (b3 as int)
    ensures b0 as int == n % 256 && b1 as int == n / 256 % 256 && b2 as int == n / 256 / 256 % 256 && b3 as int == n / 256 / 256 / 256
  {
    var h1: nat := b1 as int + 256 * (b2 as int) + 65536 * (b3 as int);
    var h2: nat := b2 as int + 256 * (b3 as int);
    DivisionUnique(n, 256, h1, b0);
    DivisionUnique(h1, 256, h2, b1);
    DivisionUnique(h2, 256, b3, b2);
  }

  /** A message too long for one PDU, for which the limit leaves room: its channel number
      and its length as they are spelled. */
  ghost predicate Several(max: nat, id: nat, data: seq<byte>, number: seq<byte>, cb: nat, length: seq<byte>, sp: nat) {
    var total := |data| % 0x1_0000_0000;
    && id < TWO_32 && cb == (if id < 256 then 0 else if id < 65536 then 1 else 2) && NumberIs(number, cb, id)
    && sp == (if total < 256 then 0 else if total < 65536 then 1 else 2) && NumberIs(length, sp, total)
    && 1 + |number| + |data| > max >= 1 + |number| + |length| && max > 1 + |number|
  }

  /** It starts with a data-first PDU as long as the limit. */
  lemma {:induction false} SeveralSent(max: nat, id: nat, data: seq<byte>, number: seq<byte>, cb: nat, length: seq<byte>, sp: nat)
    requires Several(max, id, data, number, cb, length, sp)
    ensures cb < 4 && sp < 4 && id < TWO_32 && Splittable(max, id, |data|)
    ensures var n, room, pdus := max - 1 - |number| - |length|, max - 1 - |number|, Fragments(max, id, data);
            && n <= |data| && |pdus| == 1 + (|data| - n + room - 1) / room
            && pdus[0] == [First(2, sp, cb)] + number + (length + data[..n])
  {
    hide *;
    SeveralIs(max, id, data, number, cb, length, sp);
    var n := max - 1 - |number| - |length|;
    FragmentsAre(max, id, data);
    FirstIs(id, Uint32(|data|), data[..n]);
    ChunkCount(max, id, data[n..]);
  }

  lemma {:induction false} SeveralIs(max: nat, id: nat, data: seq<byte>, number: seq<byte>, cb: nat, length: seq<byte>, sp: nat)
    requires Several(max, id, data, number, cb, length, sp)
    ensures var total := Uint32(|data|);
            && id < TWO_32 && total < TWO_32 && cb == CbIdSize(id) < 4 && sp == CbIdSize(total) < 4
            && number == PutChannelId(id) && length == PutChannelId(total)
            && DataHdrSize(id) == 1 + |number| && FirstHdrSize(id, total) == 1 + |number| + |length|
            && 1 + |number| + |data| > max >= 1 + |number| + |length| && max > 1 + |number|
  {
    var total := Uint32(|data|);
    LengthIs(|data|);
    hide Uint32, NumberIs, PutChannelId, CbIdSize, DataHdrSize, FirstHdrSize;
    NumberWrites(id);
    NumberWrites(total);
    SizesAre(id, total);
    SameSpelling(number, PutChannelId(id), cb, id);
    SameSpelling(length, PutChannelId(total), sp, total);
  }

  /** And goes on with data PDUs that, but for the last, are as long. */
  lemma {:induction false} LaterSent(max: nat, id: nat, data: seq<byte>, number: seq<byte>, cb: nat, length: seq<byte>, sp: nat, k: nat, room: nat, from: nat, to: nat)
    requires Several(max, id, data, number, cb, length, sp)
    requires room == max - 1 - |number| && from == room - |length| + k * room < |data|
    requires to == if from + room < |data| then from + room else |data|
    ensures cb < 4 && id < TWO_32 && Splittable(max, id, |data|) && 1 + k < |Fragments(max, id, data)|
    ensures Fragments(max, id, data)[1 + k] == [First(3, 0, cb)] + number + data[from..to]
  {
    hide *;
    SeveralIs(max, id, data, number, cb, length, sp);
    TimesIs(k, room);
    LaterIs(max, id, data, k, room, from, to);
    DataIs(id, data[from..to]);
  }

  lemma {:induction false} LaterIs(max: nat, id: nat, data: seq<byte>, k: nat, room: nat, from: nat, to: nat)
    requires id < TWO_32 && DataHdrSize(id) + |data| > max && FirstHdrSize(id, Uint32(|data|)) <= max && DataHdrSize(id) < max
    requires room == max - DataHdrSize(id) && from == max - FirstHdrSize(id, Uint32(|data|)) + Times(k, room) < |data|
    requires to == if from + room < |data| then from + room else |data|
    ensures Splittable(max, id, |data|) && 1 + k < |Fragments(max, id, data)|
    ensures Fragments(max, id, data)[1 + k] == DataPdu(id, data[from..to])
  {
    hide *;
    FragmentsAre(max, id, data);
    var n := max - FirstHdrSize(id, Uint32(|data|));
    ChunkAt(max, id, data[n..], k, room, from - n, to - n);
    SliceOfTail(data, n, from, to);
  }

  lemma {:induction false} LengthIs(n: nat)
    ensures Uint32(n) == n % 0x1_0000_0000 && Uint32(n) < TWO_32 == 0x1_0000_0000
  {
  }

  lemma {:induction false} SizesAre(id: nat, total: nat)
    requires id < TWO_32 && total < TWO_32
    ensures DataHdrSize(id) == 1 + |PutChannelId(id)| && FirstHdrSize(id, total) == 1 + |PutChannelId(id)| + |PutChannelId(total)|
  {
    hide PutChannelId;
  }

  lemma {:induction false} FirstIs(id: nat, total: nat, chunk: seq<byte>)
    requires id < TWO_32 && total < TWO_32
    ensures CbIdSize(id) < 4 && CbIdSize(total) < 4
    ensures DataFirstPdu(id, total, chunk) == [First(2, CbIdSize(total), CbIdSize(id))] + PutChannelId(id) + (PutChannelId(total) + chunk)
  {
    hide PutChannelId, CbIdSize;
  }

  lemma {:induction false} DataIs(id: nat, chunk: seq<byte>)
    requires id < TWO_32
    ensures CbIdSize(id) < 4
    ensures DataPdu(id, chunk) == [First(3, 0, CbIdSize(id))] + PutChannelId(id) + chunk
  {
    hide PutChannelId, CbIdSize;
  }

  lemma {:induction false} FragmentsAre(max: nat, id: nat, data: seq<byte>)
    requires id < TWO_32 && DataHdrSize(id) + |data| > max && FirstHdrSize(id, Uint32(|data|)) <= max && DataHdrSize(id) < max
    ensures Splittable(max, id, |data|)
    ensures var total := Uint32(|data|);
            var n := max - FirstHdrSize(id, total);
            n <= |data| && Fragments(max, id, data) == [DataFirstPdu(id, total, data[..n])] + DataChunks(max, id, data[n..])
  {
    hide DataFirstPdu, DataChunks;
  }

  lemma {:induction false} ChunksAre(max: nat, id: nat, data: seq<byte>)
    requires id < TWO_32 && DataHdrSize(id) < max
    ensures DataChunks(max, id, []) == []
    ensures data != [] ==>
              var room := max - DataHdrSize(id);
              var n := if |data| > room then room else |data|;
              DataChunks(max, id, data) == [DataPdu(id, data[..n])] + DataChunks(max, id, data[n..])
  {
    hide DataPdu, DataHdrSize;
  }

  lemma {:induction false} ChunkCount(max: nat, id: nat, data: seq<byte>)
    requires id < TWO_32 && DataHdrSize(id) < max
    ensures var room := max - DataHdrSize(id);
            |DataChunks(max, id, data)| == (|data| + room - 1) / room
    decreases |data|
  {
    hide *;
    var room := max - DataHdrSize(id);
    ChunksAre(max, id, data);
    if data == [] {
      DivisionUnique(room - 1, room, 0, room - 1);
    } else {
      var n := if |data| > room then room else |data|;
      ChunkCount(max, id, data[n..]);
      OneMore(|data|, room);
    }
  }

  /** Rounding up: one for the first room bytes and the others for the rest. */
  lemma {:induction false} OneMore(len: nat, room: nat)
    requires len > 0 && room > 0
    ensures var n := if len > room then room else len;
            (len + room - 1) / room == 1 + (len - n + room - 1) / room
  {
    var n := if len > room then room else len;
    var q, r := (len - n + room - 1) / room, (len - n + room - 1) % room;
    assert len - n + room - 1 == q * room + r;
    if len > room {
      assert (1 + q) * room == q * room + room;
      DivisionUnique(len + room - 1, room, 1 + q, r);
    } else {
      DivisionUnique(room - 1, room, 0, room - 1);
      DivisionUnique(len + room - 1, room, 1, len - 1);
    }
  }

  lemma {:induction false} SliceOfTail(data: seq<byte>, n: nat, from: nat, to: nat)
    requires n <= from <= to <= |data|
    ensures data[n..][from - n..to - n] == data[from..to]
  {
  }

  function Times(k: nat, room: nat): nat { k * room }

  lemma {:induction false} TimesIs(k: nat, room: nat)
    ensures Times(k, room) == k * room && Times(0, room) == 0
    ensures k > 0 ==> Times(k, room) == Times(k - 1, room) + room
  {
    if k > 0 { assert k * room == (k - 1) * room + room; }
  }

  lemma {:induction false} ChunkAt(max: nat, id: nat, data: seq<byte>, k: nat, room: nat, from: nat, to: nat)
    requires id < TWO_32 && DataHdrSize(id) < max && room == max - DataHdrSize(id)
    requires from == Times(k, room) < |data| && to == if from + room < |data| then from + room else |data|
    ensures k < |DataChunks(max, id, data)| && DataChunks(max, id, data)[k] == DataPdu(id, data[from..to])
    decreases k
  {
    hide *;
    ChunksAre(max, id, data);
    TimesIs(k, room);
    if k > 0 {
      ChunkAt(max, id, data[room..], k - 1, room, from - room, to - room);
      SliceOfTail(data, room, from, to);
    }
  }

  // ---------- static channels ----------

  /** Eight bytes before the chunk: the message's length, and flags, both low byte first. */
  ghost predicate ChunkIs(pdu: seq<byte>, total: nat, flags: nat, chunk: seq<byte>) {
    && |pdu| >= 8 && LongIs(pdu, 0, total) && LongIs(pdu, 4, flags) && pdu[8..] == chunk
  }

  lemma {:induction false} ChunkReads(pdu: seq<byte>, total: nat, flags: nat, chunk: seq<byte>)
    requires ChunkIs(pdu, total, flags, chunk)
    ensures StaticChannel.TotalOf(pdu) == total && StaticChannel.FlagsOf(pdu) == flags && pdu[8..] == chunk
  {
    LongIn(pdu, 0, total);
    LongIn(pdu, 4, flags);
    hide LongIs, GetLe32;
    LongReads(pdu[0..4], total);
    LongReads(pdu[4..8], flags);
  }

  lemma {:induction false} LongIn(pdu: seq<byte>, i: nat, n: nat)
    requires LongIs(pdu, i, n)
    ensures LongIs(pdu[i..i + 4], 0, n)
  {
  }

  lemma {:induction false} ChunkWrites(total: nat, flags: nat, chunk: seq<byte>)
    requires total < TWO_32 && flags < TWO_32
    ensures ChunkIs(StaticChannel.ChunkPdu(total, flags, chunk), total, flags, chunk)
  {
    var pdu := StaticChannel.ChunkPdu(total, flags, chunk);
    assert pdu == PutLe32(total) + PutLe32(flags) + chunk;
    hide *;
    LongWrites(total);
    LongWrites(flags);
    LongPlaced(PutLe32(total), PutLe32(flags), chunk, total, flags);
    ChunkIsIf(pdu, total, flags, chunk);
  }

  lemma {:induction false} LongPlaced(a: seq<byte>, b: seq<byte>, c: seq<byte>, m: nat, n: nat)
    requires |a| == 4 && |b| == 4 && LongIs(a, 0, m) && LongIs(b, 0, n)
    ensures LongIs(a + b + c, 0, m) && LongIs(a + b + c, 4, n) && (a + b + c)[8..] == c
  {
  }

  lemma {:induction false} ChunkIsIf(pdu: seq<byte>, total: nat, flags: nat, chunk: seq<byte>)
    requires |pdu| >= 8 && LongIs(pdu, 0, total) && LongIs(pdu, 4, flags) && pdu[8..] == chunk
    ensures ChunkIs(pdu, total, flags, chunk)
  {
  }

  /** A message is written in chunks of 1600 bytes, all but the last full: flag 1 on the
      first, 2 on the last, 16 throughout when the protocol is shown. */
  lemma {:induction false} ChunksWritten(data: seq<byte>, show: bool, k: nat)
    ensures |StaticChannel.Chunks(data, show)| == (|data| + 1599) / 1600
    ensures k < |StaticChannel.Chunks(data, show)| ==>
              var last, to := k == |StaticChannel.Chunks(data, show)| - 1, if 1600 * (k + 1) < |data| then 1600 * (k + 1) else |data|;
              && 1600 * k < to
              && ChunkIs(StaticChannel.Chunks(data, show)[k], |data| % 0x1_0000_0000,
                         (if k == 0 then 1 else 0) + (if last then 2 else 0) + (if show then 16 else 0), data[1600 * k..to])
  {
    hide *;
    StaticCount(data, 0, show);
    StaticAre(data, show);
    if k < |StaticChannel.Chunks(data, show)| {
      StaticAt(data, 0, show, k);
      StaticCount(data, 0, show);
      var to := if 1600 * (k + 1) < |data| then 1600 * (k + 1) else |data|;
      LastIff(|data|, k);
      LengthIs(|data|);
      FlagsAre(k == 0, to == |data|, show);
      ChunkWrites(Uint32(|data|), StaticChannel.ChunkFlags(k == 0, to == |data|, show), data[1600 * k..to]);
    }
  }

  lemma {:induction false} LastIff(n: nat, k: nat)
    requires k < (n + 1599) / 1600
    ensures k == (n + 1599) / 1600 - 1 <==> 1600 * (k + 1) >= n
  {
  }

  lemma {:induction false} FlagsAre(first: bool, last: bool, show: bool)
    ensures StaticChannel.ChunkFlags(first, last, show) == (if first then 1 else 0) + (if last then 2 else 0) + (if show then 16 else 0)
    ensures StaticChannel.ChunkFlags(first, last, show) < TWO_32
  {
  }

  lemma {:induction false} StaticAre(data: seq<byte>, show: bool)
    ensures StaticChannel.Chunks(data, show) == StaticChannel.ChunksFrom(data, 0, show)
  {
  }

  lemma {:induction false} StaticCons(data: seq<byte>, off: nat, show: bool)
    requires off <= |data|
    ensures off == |data| ==> StaticChannel.ChunksFrom(data, off, show) == []
    ensures off < |data| ==>
              var end := if off + 1600 < |data| then off + 1600 else |data|;
              && Uint32(|data|) < TWO_32 && StaticChannel.ChunkFlags(off == 0, end == |data|, show) < TWO_32
              && StaticChannel.ChunksFrom(data, off, show) ==
                   [StaticChannel.ChunkPdu(Uint32(|data|), StaticChannel.ChunkFlags(off == 0, end == |data|, show), data[off..end])]
                   + StaticChannel.ChunksFrom(data, end, show)
  {
    hide StaticChannel.ChunkPdu, StaticChannel.ChunkFlags;
  }

  lemma {:induction false} StaticCount(data: seq<byte>, off: nat, show: bool)
    requires off <= |data|
    ensures |StaticChannel.ChunksFrom(data, off, show)| == (|data| - off + 1599) / 1600
    decreases |data| - off
  {
    hide *;
    StaticCons(data, off, show);
    if off < |data| {
      StaticCount(data, if off + 1600 < |data| then off + 1600 else |data|, show);
    }
  }

  lemma {:induction false} StaticAt(data: seq<byte>, off: nat, show: bool, k: nat)
    requires off <= |data| && k < |StaticChannel.ChunksFrom(data, off, show)|
    ensures var from, to := off + 1600 * k, if off + 1600 * (k + 1) < |data| then off + 1600 * (k + 1) else |data|;
            && from < to && Uint32(|data|) < TWO_32 && StaticChannel.ChunkFlags(from == 0, to == |data|, show) < TWO_32
            && StaticChannel.ChunksFrom(data, off, show)[k] ==
                 StaticChannel.ChunkPdu(Uint32(|data|), StaticChannel.ChunkFlags(from == 0, to == |data|, show), data[from..to])
    decreases k
  {
    hide *;
    StaticCons(data, off, show);
    if k > 0 {
      var end := if off + 1600 < |data| then off + 1600 else |data|;
      StaticCons(data, end, show);
      StaticAt(data, end, show, k - 1);
    }
  }

  /** What a chunk does to its channel: a short PDU nothing; flags 1 and 2 deliver the chunk
      and drop what was pending; flag 1 alone starts a message, unless it announces over
      64 MiB or would take all channels over 256 MiB; without flag 1 a chunk is added to
      what is pending, delivered with it on flag 2, and dropped where nothing is. */
  lemma {:induction false} ChunkArrives(s: StaticChannel.State, id: nat, pdu: seq<byte>, total: nat, flags: nat, chunk: seq<byte>)
    requires |pdu| >= 8 ==> ChunkIs(pdu, total, flags, chunk)
    ensures var (s', out) := StaticChannel.Step(s, Tagged(id, pdu));
            var first, last := flags % 2 == 1, flags / 2 % 2 == 1;
            var was := if id in s.buffers then |s.buffers[id]| else 0;
            if |pdu| < 8 then (s', out) == (s, [])
            else if first && last then s' == StaticChannel.State(s.buffers - {id}, s.total - was) && out == [Tagged(id, chunk)]
            else if first then
              if total > 67108864 || s.total + total > 268435456 then (s', out) == (s, [])
              else s' == StaticChannel.State(s.buffers[id := chunk], s.total - was + |chunk|) && out == []
            else if id !in s.buffers then (s', out) == (s, [])
            else if last then s' == StaticChannel.State(s.buffers - {id}, s.total - was) && out == [Tagged(id, s.buffers[id] + chunk)]
            else s' == StaticChannel.State(s.buffers[id := s.buffers[id] + chunk], s.total + |chunk|) && out == []
  {
    if |pdu| >= 8 {
      ChunkReads(pdu, total, flags, chunk);
      hide ChunkIs, StaticChannel.TotalOf, StaticChannel.FlagsOf;
      StaticChannel.StoreLookup(s.buffers, id);
      Gone(s.buffers, id);
    } else {
      StaticChannel.StoreLookup(s.buffers, id);
    }
  }

  lemma {:induction false} Gone(m: StaticChannel.Buffers, id: nat)
    ensures id !in m ==> m - {id} == m
  {
  }
}
