/** NSCodec planes: runs and literals, and four bytes kept for the end. */
module NsPlane {
  import opened Bits
  import opened Wire

  datatype Result = Truncated | Plane(data: seq<byte>)

  function Prefixed(a: seq<byte>, r: Result): Result { if r.Truncated? then r else Plane(a + r.data) }

  /** Length of a run and of its code, or nothing when the code is cut off. */
  datatype RunCode = Cut | Run(count: nat, size: nat)

  /** rle starts with the same byte twice. */
  function ReadRun(rle: seq<byte>): (r: RunCode)
    requires |rle| >= 2
    ensures r.Run? ==> 3 <= r.size <= |rle|
  {
    if |rle| < 3 then Cut
    else if rle[2] < 0xFF then Run(rle[2] as int + 2, 3)
    else if |rle| < 7 then Cut
    else Run(GetLe32(rle[3..]), 7)
  }

  /** What the codes stand for, up to the room there is. */
  function Expand(rle: seq<byte>, room: nat): (r: Result)
    ensures r.Plane? ==> |r.data| <= room
    decreases |rle|
  {
    if room == 0 || rle == [] then Plane([])
    else if |rle| > 1 && rle[1] == rle[0] then
      var run := ReadRun(rle);
      if run.Cut? then Truncated
      else
        var n := Least(run.count, room);
        Prefixed(Repeat(rle[0], n), Expand(rle[run.size..], room - n))
    else Prefixed([rle[0]], Expand(rle[1..], room - 1))
  }

  /** decodePlaneRLE into a plane of |was| bytes that holds was before. */
  function DecodePlane(was: seq<byte>, src: seq<byte>): (r: Result)
    ensures r.Plane? ==> |r.data| == |was|
  {
    var size := |was|;
    if src == [] then Plane(Repeat(0, size))
    else if |src| == size then Plane(src)
    else if |src| < 4 then Plane(if |src| < size then src + Repeat(0, size - |src|) else src[..size])
    else if size < 4 then Plane(was)
    else
      var e := Expand(src[..|src| - 4], size - 4);
      if e.Truncated? then e else Plane(e.data + Repeat(0, size - 4 - |e.data|) + src[|src| - 4..])
  }

  /** Nothing of the buffer's last use remains, unless the plane is shorter than the end
      marker while the data is not. */
  lemma {:induction false} NothingStaleIff(size: nat, src: seq<byte>)
    ensures (forall was, was' :: |was| == size && |was'| == size ==> DecodePlane(was, src) == DecodePlane(was', src))
       <==> size == 0 || size >= 4 || |src| < 4
  {
    if 0 < size < 4 && |src| >= 4 {
      var zeros: seq<byte>, ones: seq<byte> := Repeat(0, size), Repeat(1, size);
      assert zeros[0] != ones[0];
      assert DecodePlane(zeros, src) != DecodePlane(ones, src);
    }
  }

  // ---------- codes byte by byte ----------

  /** So many copies of one byte, and then the rest. */
  ghost predicate Copies(r: Result, v: byte, n: nat, rest: Result) {
    if rest.Truncated? then r.Truncated?
    else r.Plane? && |r.data| == n + |rest.data| && (forall i :: 0 <= i < n ==> r.data[i] == v) && r.data[n..] == rest.data
  }

  lemma {:induction false} RepeatCopies(v: byte, n: nat, rest: Result)
    ensures Copies(Prefixed(Repeat(v, n), rest), v, n, rest)
  {
  }

  /** A byte twice and a third, not 255: the third and two copies, as far as there is room. */
  lemma {:induction false} ShortRun(v: byte, k: byte, rest: seq<byte>, room: nat)
    requires k < 255 && room > 0
    ensures var n := if k + 2 < room then k + 2 else room;
            Copies(Expand([v, v, k] + rest, room), v, n, Expand(rest, room - n))
  {
    hide *;
    var rle := [v, v, k] + rest;
    ShortRead(rle);
    RunExpands(rle, room);
    var n: nat := if k + 2 < room then k + 2 else room;
    assert rle[3..] == rest;
    RepeatCopies(v, n, Expand(rest, room - n));
  }

  lemma {:induction false} ShortRead(rle: seq<byte>)
    requires |rle| >= 3 && rle[2] < 255
    ensures ReadRun(rle) == Run((rle[2] as int) + 2, 3)
  {
  }

  /** A byte twice and 255: the number in the next four bytes, low byte first. */
  lemma {:induction false} LongRun(v: byte, b0: byte, b1: byte, b2: byte, b3: byte, rest: seq<byte>, room: nat)
    requires room > 0
    ensures var count: nat := (b0 as int) + 256 * (b1 as int) + 65536 * (b2 as int) + 16777216 * (b3 as int);
            var n := if count < room then count else room;
            Copies(Expand([v, v, 255] + [b0, b1, b2, b3] + rest, room), v, n, Expand(rest, room - n))
  {
    hide *;
    var rle := [v, v, 255] + [b0, b1, b2, b3] + rest;
    var count: nat := (b0 as int) + 256 * (b1 as int) + 65536 * (b2 as int) + 16777216 * (b3 as int);
    assert rle[2] == 255 && rle[3..] == [b0, b1, b2, b3] + rest;
    LongRead(rle, b0, b1, b2, b3, rest);
    RunExpands(rle, room);
    var n: nat := if count < room then count else room;
    assert rle[7..] == rest;
    RepeatCopies(v, n, Expand(rest, room - n));
  }

  lemma {:induction false} LongRead(rle: seq<byte>, b0: byte, b1: byte, b2: byte, b3: byte, rest: seq<byte>)
    requires |rle| >= 7 && rle[2] == 255 && rle[3..] == [b0, b1, b2, b3] + rest
    ensures ReadRun(rle) == Run((b0 as int) + 256 * (b1 as int) + 65536 * (b2 as int) + 16777216 * (b3 as int), 7)
  {
    var s := rle[3..];
    assert s[..2] == [b0, b1] && s[2..4] == [b2, b3];
  }

  lemma {:induction false} RunExpands(rle: seq<byte>, room: nat)
    requires room > 0 && |rle| >= 2 && rle[0] == rle[1]
    ensures ReadRun(rle).Cut? ==> Expand(rle, room).Truncated?
    ensures ReadRun(rle).Run? ==>
              var run := ReadRun(rle);
              var n := if run.count < room then run.count else room;
              run.size <= |rle| && Expand(rle, room) == Prefixed(Repeat(rle[0], n), Expand(rle[run.size..], room - n))
  {
    hide ReadRun;
  }

  /** A byte not followed by itself stands for itself; without room or codes there is
      nothing more; and a run whose length is cut off is an error. */
  lemma {:induction false} Singles(v: byte, rest: seq<byte>, room: nat)
    ensures Expand(rest, 0) == Plane([]) && Expand([], room) == Plane([])
    ensures room > 0 && (rest == [] || rest[0] != v) ==> Copies(Expand([v] + rest, room), v, 1, Expand(rest, room - 1))
    ensures room > 0 && (rest == [v] || (2 <= |rest| < 6 && rest[0] == v && rest[1] == 255)) ==> Expand([v] + rest, room).Truncated?
  {
    var rle := [v] + rest;
    assert rle[1..] == rest;
    hide Expand;
    SingleExpands(rest, room);
    if room > 0 && (rest == [] || rest[0] != v) {
      SingleExpands(rle, room);
    } else if room > 0 && (rest == [v] || (2 <= |rest| < 6 && rest[0] == v && rest[1] == 255)) {
      RunExpands(rle, room);
    }
  }

  lemma {:induction false} SingleExpands(rle: seq<byte>, room: nat)
    ensures Expand(rle, 0) == Plane([]) && Expand([], room) == Plane([])
    ensures room > 0 && rle != [] && (|rle| == 1 || rle[1] != rle[0]) ==> Expand(rle, room) == Prefixed([rle[0]], Expand(rle[1..], room - 1))
  {
    hide ReadRun;
  }

  /** Byte i of a decoded plane: of no data zero, of data as long as the plane the data's,
      of up to three bytes theirs and then zero; a shorter plane than four is left alone; and
      otherwise what the codes stand for, then zeros, then the data's last four bytes. */
  lemma {:induction false} PlaneAt(was: seq<byte>, src: seq<byte>, i: nat)
    requires i < |was|
    ensures var r, size := DecodePlane(was, src), |was|;
            if src == [] then r.Plane? && r.data[i] == 0
            else if |src| == size then r.Plane? && r.data[i] == src[i]
            else if |src| < 4 then r.Plane? && r.data[i] == if i < |src| then src[i] else 0
            else if size < 4 then r.Plane? && r.data[i] == was[i]
            else
              var e := Expand(src[..|src| - 4], size - 4);
              if e.Truncated? then r.Truncated?
              else r.Plane? && r.data[i] == if i < |e.data| then e.data[i] else if i < size - 4 then 0 else src[|src| - size + i]
  {
    hide Expand;
  }

  // ---------- the encoding ----------

  datatype Token = Literal(v: byte) | Same(v: byte, count: nat)

  function Count(t: Token): nat { if t.Literal? then 1 else t.count }

  function Meaning(ts: seq<Token>): (s: seq<byte>) {
    if ts == [] then [] else Repeat(ts[0].v, Count(ts[0])) + Meaning(ts[1..])
  }

  /** Short runs have a one-byte length, long ones a four-byte one. */
  function Code(t: Token): (c: seq<byte>)
    requires t.Same? ==> 2 <= t.count < TWO_32
    ensures |c| > 0 && c[0] == t.v
  {
    match t
    case Literal(v) => [v]
    case Same(v, count) => if count < 0x101 then [v, v, count - 2] else [v, v, 0xFF] + PutLe32(count)
  }

  /** A literal is not followed by its own value: that would read as a run. */
  ghost predicate WellFormed(ts: seq<Token>) {
    && (forall i :: 0 <= i < |ts| ==> ts[i].Same? ==> 2 <= ts[i].count < TWO_32)
    && forall i :: 0 <= i < |ts| - 1 ==> ts[i].Literal? ==> ts[i + 1].v != ts[i].v
  }

  function Codes(ts: seq<Token>): (c: seq<byte>)
    requires WellFormed(ts)
    ensures ts != [] ==> |c| > 0 && c[0] == ts[0].v
    ensures ts == [] ==> c == []
  {
    if ts == [] then [] else Code(ts[0]) + Codes(ts[1..])
  }

  lemma {:induction false} RunReads(t: Token, rest: seq<byte>)
    requires t.Same? && 2 <= t.count < TWO_32
    ensures ReadRun(Code(t) + rest) == Run(t.count, |Code(t)|)
  {
    var c := Code(t) + rest;
    if t.count >= 0x101 {
      assert c[3..][..2] == PutLe32(t.count)[..2] && c[3..][2..4] == PutLe32(t.count)[2..4];
    }
  }

  /** Expanding the codes of tokens gives their meaning, cut to the room. */
  lemma {:induction false} ExpandCodes(ts: seq<Token>, room: nat)
    requires WellFormed(ts)
    ensures Expand(Codes(ts), room) == Plane(Meaning(ts)[..Least(|Meaning(ts)|, room)])
    decreases |ts|
  {
    if room > 0 && ts != [] {
      var t, rest := ts[0], Codes(ts[1..]);
      var n := Least(Count(t), room);
      ExpandFirst(ts, room, rest);
      MeaningCut(ts, n, room);
      assert WellFormed(ts[1..]);
      hide *;
      ExpandCodes(ts[1..], room - n);
    } else {
      assert Meaning(ts)[..0] == [];
    }
  }

  /** The first token's code is read as that token. */
  lemma {:induction false} ExpandFirst(ts: seq<Token>, room: nat, rest: seq<byte>)
    requires WellFormed(ts) && ts != [] && room > 0 && WellFormed(ts[1..]) && rest == Codes(ts[1..])
    ensures var n := Least(Count(ts[0]), room);
            n <= room && Expand(Codes(ts), room) == Prefixed(Repeat(ts[0].v, n), Expand(rest, room - n))
  {
    var t := ts[0];
    assert (Code(t) + rest)[|Code(t)|..] == rest;
    if t.Same? {
      RunReads(t, rest);
    } else {
      assert Repeat(t.v, 1) == [t.v];
    }
    hide ReadRun;
  }

  lemma {:induction false} MeaningCut(ts: seq<Token>, n: nat, room: nat)
    requires ts != [] && n == Least(Count(ts[0]), room)
    ensures var m, m' := Meaning(ts), Meaning(ts[1..]);
            m[..Least(|m|, room)] == Repeat(ts[0].v, n) + m'[..Least(|m'|, room - n)]
  {
  }

  /** Any encoding of a plane, with its last four bytes appended, decodes to the plane,
      whatever the buffer held; but one that is as long as the plane is taken for the
      plane itself. */
  lemma {:induction false} PlaneRoundTrip(ts: seq<Token>, end: seq<byte>, was: seq<byte>)
    requires WellFormed(ts) && |end| == 4 && |was| == |Meaning(ts)| + 4
    ensures var src, plane := Codes(ts) + end, Meaning(ts) + end;
            DecodePlane(was, src) == Plane(plane) <==> |src| != |plane| || src == plane
  {
    hide Expand, Codes, Meaning;
    var src := Codes(ts) + end;
    assert src[..|src| - 4] == Codes(ts) && src[|src| - 4..] == end;
    ExpandCodes(ts, |was| - 4);
    assert Meaning(ts)[..|Meaning(ts)|] == Meaning(ts);
    assert Meaning(ts) + Repeat(0, 0) + end == Meaning(ts) + end;
  }

  /** Such planes exist: a run of two before a run of four has a code of its own length,
      and is decoded to that code. */
  lemma {:induction false} CodeTakenForPlane(v: byte, w: byte, end: seq<byte>, was: seq<byte>)
    requires |end| == 4 && |was| == 10
    ensures var ts := [Same(v, 2), Same(w, 4)];
            WellFormed(ts) && Meaning(ts) == [v, v, w, w, w, w] && Codes(ts) == [v, v, 0, w, w, 2]
            && DecodePlane(was, Codes(ts) + end) == Plane(Codes(ts) + end) && Codes(ts) + end != Meaning(ts) + end
  {
    var ts := [Same(v, 2), Same(w, 4)];
    assert ts[1..] == [Same(w, 4)] && ts[1..][1..] == [];
    assert Repeat(v, 2) == [v, v] && Repeat(w, 4) == [w, w, w, w];
    assert Meaning([]) == [] && Meaning([Same(w, 4)]) == Repeat(w, 4) + Meaning([]);
    assert Meaning(ts) == Repeat(v, 2) + Meaning([Same(w, 4)]);
    assert [w, w, w, w] + [] == [w, w, w, w] && [v, v] + [w, w, w, w] == [v, v, w, w, w, w];
    assert [w, w, 2] + [] == [w, w, 2] && [v, v, 0] + [w, w, 2] == [v, v, 0, w, w, 2];
    hide Expand;
    assert (Codes(ts) + end)[2] == 0 && (Codes(ts) + end)[5] == 2;
    assert (Meaning(ts) + end)[2] == w && (Meaning(ts) + end)[5] == w;
  }

  // ---------- the decoder ----------

  /** Set dst[lo..hi] to v: write one byte, then keep doubling it. */
  method FillDoubling(dst: array<byte>, lo: nat, hi: nat, v: byte)
    requires lo <= hi <= dst.Length
    modifies dst
    ensures dst[..] == old(dst[..lo]) + Repeat(v, hi - lo) + old(dst[hi..])
  {
    if lo == hi {
      assert dst[..] == dst[..lo] + [] + dst[hi..];
      return;
    }
    var n := hi - lo;
    dst[lo] := v;
    var filled := 1;
    while filled < n
      invariant 1 <= filled
      invariant forall k :: 0 <= k < dst.Length ==>
                  if lo <= k < hi then (k < lo + filled ==> dst[k] == v) else dst[k] == old(dst[k])
      decreases n - filled
    {
      var m := if filled < n - filled then filled else n - filled;
      forall k | 0 <= k < m {
        dst[lo + filled + k] := dst[lo + k];
      }
      filled := filled * 2;
    }
    assert dst[lo..hi] == Repeat(v, n);
    assert dst[..] == dst[..lo] + dst[lo..hi] + dst[hi..];
  }

  /** The decoding loop: fills dst up to endPos, or finds the codes cut off. */
  method DecodeRuns(dst: array<byte>, rle: seq<byte>, endPos: nat) returns (ok: bool, di: nat)
    requires endPos <= dst.Length
    modifies dst
    ensures ok <==> Expand(rle, endPos).Plane?
    ensures ok ==> di <= endPos && dst[..di] == Expand(rle, endPos).data
    ensures dst[endPos..] == old(dst[endPos..])
  {
    hide *;
    ghost var goal := Expand(rle, endPos);
    var si: nat := 0;
    di := 0;
    assert rle[0..] == rle;
    PrefixedNothing(goal);
    while di < endPos && si < |rle|
      invariant di <= endPos && si <= |rle|
      invariant Prefixed(dst[..di], Expand(rle[si..], endPos - di)) == goal
      invariant dst[endPos..] == old(dst[endPos..])
      decreases |rle| - si
    {
      var val := rle[si];
      ghost var rest, room, done := rle[si..], endPos - di, dst[..di];
      ExpandStep(rest, room, done);
      if si + 1 < |rle| && val == rle[si + 1] {
        var run := ReadRun(rle[si..]);
        if run.Cut? {
          return false, di;
        }
        LeastIs(run.count, room);
        var end := if di + run.count > endPos then endPos else di + run.count;
        ghost var tail := dst[endPos..];
        FillDoubling(dst, di, end, val);
        assert dst[..end] == done + Repeat(val, end - di);
        assert rle[si..][run.size..] == rle[si + run.size..];
        assert dst[endPos..] == tail;
        si := si + run.size;
        di := end;
      } else {
        ghost var tail := dst[endPos..];
        dst[di] := val;
        assert dst[..di + 1] == done + [val];
        assert rle[si..][1..] == rle[si + 1..];
        assert dst[endPos..] == tail;
        si := si + 1;
        di := di + 1;
      }
    }
    ok := true;
    ExpandEnd(rle[si..], endPos - di, dst[..di]);
  }

  lemma {:induction false} LeastIs(a: nat, b: nat)
    ensures Least(a, b) == if a < b then a else b
  {
  }

  lemma {:induction false} PrefixedNothing(r: Result)
    ensures Prefixed([], r) == r
  {
    if r.Plane? { assert [] + r.data == r.data; }
  }

  lemma {:induction false} ExpandStep(rle: seq<byte>, room: nat, done: seq<byte>)
    requires room > 0 && rle != []
    ensures Prefixed(done, Expand(rle, room)) ==
              if |rle| > 1 && rle[1] == rle[0] then
                var run := ReadRun(rle);
                if run.Cut? then Truncated
                else
                  var n := Least(run.count, room);
                  Prefixed(done + Repeat(rle[0], n), Expand(rle[run.size..], room - n))
              else Prefixed(done + [rle[0]], Expand(rle[1..], room - 1))
  {
    hide ReadRun;
    if |rle| > 1 && rle[1] == rle[0] {
      var run := ReadRun(rle);
      if run.Run? {
        var n := Least(run.count, room);
        Associate(done, Repeat(rle[0], n), Expand(rle[run.size..], room - n));
      }
    } else {
      Associate(done, [rle[0]], Expand(rle[1..], room - 1));
    }
  }

  lemma {:induction false} Associate(a: seq<byte>, b: seq<byte>, r: Result)
    ensures Prefixed(a, Prefixed(b, r)) == Prefixed(a + b, r)
  {
    if r.Plane? { assert a + (b + r.data) == a + b + r.data; }
  }

  lemma {:induction false} ExpandEnd(rle: seq<byte>, room: nat, done: seq<byte>)
    requires room == 0 || rle == []
    ensures Prefixed(done, Expand(rle, room)) == Plane(done)
  {
    assert done + [] == done;
  }

  lemma {:induction false} DecodePlaneIs(was: seq<byte>, src: seq<byte>)
    ensures var size := |was|;
            DecodePlane(was, src) ==
              if src == [] then Plane(Repeat(0, size))
              else if |src| == size then Plane(src)
              else if |src| < 4 then Plane(if |src| < size then src + Repeat(0, size - |src|) else src[..size])
              else if size < 4 then Plane(was)
              else
                var e := Expand(src[..|src| - 4], size - 4);
                if e.Truncated? then e else Plane(e.data + Repeat(0, size - 4 - |e.data|) + src[|src| - 4..])
  {
    hide Expand;
  }

  method DecodePlaneRLE(dst: array<byte>, src: seq<byte>) returns (ok: bool)
    modifies dst
    ensures ok <==> DecodePlane(old(dst[..]), src).Plane?
    ensures ok ==> dst[..] == DecodePlane(old(dst[..]), src).data
  {
    hide *;
    var dstSize := dst.Length;
    DecodePlaneIs(dst[..], src);
    if src == [] {
      Refill(dst, []);
      assert [] + Repeat(0, dstSize) == Repeat(0, dstSize);
      return true;
    }
    if |src| == dstSize {
      Refill(dst, src);
      assert src + Repeat(0, 0) == src;
      return true;
    }
    if |src| < 4 {
      var n := if |src| < dstSize then |src| else dstSize;
      Refill(dst, src[..n]);
      assert |src| < dstSize ==> src[..n] == src;
      assert |src| > dstSize ==> src[..n] + Repeat(0, 0) == src[..n];
      return true;
    }
    if dstSize < 4 {
      return true;
    }
    ok := DecodeRle(dst, src);
  }

  /** The data and zeros behind it. */
  method Refill(dst: array<byte>, src: seq<byte>)
    requires |src| <= dst.Length
    modifies dst
    ensures dst[..] == src + Repeat(0, dst.Length - |src|)
  {
    Copy(dst, 0, src);
    Zero(dst, |src|, dst.Length);
  }

  /** Runs and literals, zeros behind them, and the last four bytes. */
  method DecodeRle(dst: array<byte>, src: seq<byte>) returns (ok: bool)
    requires |src| >= 4 && dst.Length >= 4
    modifies dst
    ensures var e := Expand(src[..|src| - 4], dst.Length - 4);
            ok == e.Plane? && (ok ==> dst[..] == e.data + Repeat(0, dst.Length - 4 - |e.data|) + src[|src| - 4..])
  {
    hide *;
    var endPos := dst.Length - 4;
    var di;
    ok, di := DecodeRuns(dst, src[..|src| - 4], endPos);
    if !ok {
      return;
    }
    Zero(dst, di, endPos);
    Copy(dst, endPos, src[|src| - 4..]);
    assert dst[..] == dst[..endPos] + dst[endPos..];
  }

  method Zero(dst: array<byte>, lo: nat, hi: nat)
    requires lo <= hi <= dst.Length
    modifies dst
    ensures dst[..] == old(dst[..lo]) + Repeat(0, hi - lo) + old(dst[hi..])
  {
    for i := lo to hi
      invariant forall k :: 0 <= k < dst.Length ==> dst[k] == if lo <= k < i then 0 else old(dst[k])
    {
      dst[i] := 0;
    }
    assert dst[lo..hi] == Repeat(0, hi - lo);
    assert dst[..] == dst[..lo] + dst[lo..hi] + dst[hi..];
  }

  method Copy(dst: array<byte>, off: nat, src: seq<byte>)
    requires off + |src| <= dst.Length
    modifies dst
    ensures dst[..] == old(dst[..off]) + src + old(dst[off + |src|..])
  {
    forall i | 0 <= i < |src| {
      dst[off + i] := src[i];
    }
    assert dst[off..off + |src|] == src;
    assert dst[..] == dst[..off] + dst[off..off + |src|] + dst[off + |src|..];
  }
}
