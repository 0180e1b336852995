/** ClearCodec palette runs: each entry paints a run of one colour and then sweeps the
    palette up to another. */
module Rlex {
  import opened Bits
  import opened Wire
  import opened Raster

  // ---------- lengths ----------

  datatype Length = Cut | Len(n: nat, size: nat)

  /** One byte, or two when it is full, or four when those are. */
  function ReadLength(src: seq<byte>): (l: Length)
    ensures l.Len? ==> 1 <= l.size <= |src|
  {
    if src == [] then Cut
    else if src[0] < 0xFF then Len(src[0], 1)
    else if |src| < 3 then Cut
    else if GetLe16(src[1..]) < 0xFFFF then Len(GetLe16(src[1..]), 3)
    else if |src| < 7 then Cut
    else Len(GetLe32(src[3..]), 7)
  }

  function PutLength(n: nat): (bytes: seq<byte>)
    requires n < TWO_32
    ensures |bytes| >= 1
  {
    if n < 0xFF then [n] else if n < 0xFFFF then [0xFF] + PutLe16(n) else [0xFF, 0xFF, 0xFF] + PutLe32(n)
  }

  lemma {:induction false} LengthRoundTrip(n: nat, rest: seq<byte>)
    requires n < TWO_32
    ensures ReadLength(PutLength(n) + rest) == Len(n, |PutLength(n)|)
  {
    var src := PutLength(n) + rest;
    if n >= 0xFFFF {
      assert src[3..][..2] == PutLe32(n)[..2] && src[3..][2..4] == PutLe32(n)[2..4];
    } else if n >= 0xFF {
      assert src[1..][0] == PutLe16(n)[0] && src[1..][1] == PutLe16(n)[1];
    }
  }

  // ---------- entries ----------

  /** Bits of a palette index. */
  function IndexBits(colors: nat): nat
    requires colors > 0
  {
    if colors == 1 then 1 else Log2(colors - 1) + 1
  }

  /** The bits are enough for every index, and at most seven. */
  lemma {:induction false} IndexBitsFit(colors: nat)
    requires 1 <= colors <= 127
    ensures 1 <= IndexBits(colors) <= 7 && colors <= Pow2(IndexBits(colors))
  {
    Small();
    if colors > 1 && Log2(colors - 1) >= 7 { Pow2Monotone(7, Log2(colors - 1)); }
  }

  lemma {:induction false} Small()
    ensures Pow2(7) == 128 && Pow2(8) == 256
  {
    assert Pow2(4) == 16;
    Pow2Add(4, 3);
    Pow2Add(4, 4);
  }

  /** A run of palette[start], then palette[start..stop], stop included. */
  datatype Entry = Entry(start: nat, stop: nat, run: nat)

  /** Palette indices in order, and a sweep length that fits the bits left over. */
  ghost predicate EntryOk(e: Entry, colors: nat)
    requires 1 <= colors <= 127
  {
    IndexBitsFit(colors);
    e.start <= e.stop < colors && e.stop - e.start < Pow2(8 - IndexBits(colors)) && e.run < TWO_32
  }

  function Pixels(e: Entry, palette: seq<Rgba>): (px: seq<Rgba>)
    requires e.start <= e.stop < |palette|
    ensures |px| == e.run + (e.stop - e.start + 1)
  {
    Repeat(palette[e.start], e.run) + palette[e.start..e.stop + 1]
  }

  /** Weight of the sweep length in an entry's first byte. */
  function Base(colors: nat): (b: nat)
    requires 1 <= colors
    ensures b > 0
  {
    Pow2(IndexBits(colors))
  }

  /** The first byte of an entry: the sweep's length above the stop index. */
  function Packed(e: Entry, colors: nat): byte
    requires 1 <= colors <= 127 && EntryOk(e, colors)
  {
    PackedFits(e, colors);
    (e.stop - e.start) * Base(colors) + e.stop
  }

  lemma {:induction false} PackedFits(e: Entry, colors: nat)
    requires 1 <= colors <= 127 && EntryOk(e, colors)
    ensures e.start <= e.stop < Base(colors) && 0 <= (e.stop - e.start) * Base(colors) + e.stop < 256
  {
    var b := IndexBits(colors);
    IndexBitsFit(colors);
    Pow2Add(b, 8 - b);
    Small();
    Product(Pow2(b), Pow2(8 - b), e.stop - e.start, e.stop);
  }

  lemma {:induction false} Product(m: nat, n: nat, d: nat, r: nat)
    requires d < n && r < m
    ensures 0 <= d * m + r < m * n
  {
    MulAtLeast(n - d, m);
    assert m * n == d * m + (n - d) * m;
  }

  lemma {:induction false} Unpack(e: Entry, colors: nat)
    requires 1 <= colors <= 127 && EntryOk(e, colors)
    ensures Packed(e, colors) % Base(colors) == e.stop && Packed(e, colors) / Base(colors) == e.stop - e.start
  {
    hide *;
    PackedIs(e, colors);
    DivisionUnique(Packed(e, colors), Base(colors), e.stop - e.start, e.stop);
  }

  lemma {:induction false} PackedIs(e: Entry, colors: nat)
    requires 1 <= colors <= 127 && EntryOk(e, colors)
    ensures e.start <= e.stop < Base(colors) && Packed(e, colors) == (e.stop - e.start) * Base(colors) + e.stop
  {
    hide Base, EntryOk, IndexBits;
    PackedFits(e, colors);
  }

  // ---------- decoding ----------

  /** Pixels painted, and whether the data was good to the end. */
  datatype Painted = Painted(pixels: seq<Rgba>, ok: bool)

  function After(a: seq<Rgba>, p: Painted): Painted { p.(pixels := a + p.pixels) }

  datatype Read = NoEntry | EntryAt(e: Entry, size: nat)

  /** Sweep length and stop index of an entry's first byte. */
  function Split(b: byte, base: nat): (nat, nat)
    requires base > 0
  {
    (b / base, b % base)
  }

  /** The next entry; its indices are in the palette. */
  function ReadEntry(src: seq<byte>, colors: nat): (r: Read)
    requires 1 <= colors
    ensures r.EntryAt? ==> 2 <= r.size <= |src| && r.e.start <= r.e.stop < colors
  {
    if |src| < 2 then NoEntry
    else
      var (depth, stop) := Split(src[0], Base(colors));
      var l := ReadLength(src[1..]);
      if l.Cut? || stop - depth < 0 || stop >= colors then NoEntry
      else EntryAt(Entry(stop - depth, stop, l.n), 1 + l.size)
  }

  function DecodeEntries(src: seq<byte>, palette: seq<Rgba>, room: nat): (p: Painted)
    requires |palette| >= 1
    ensures |p.pixels| <= room
    decreases |src|
  {
    if src == [] || room == 0 then Painted([], true)
    else
      var r := ReadEntry(src, |palette|);
      if r.NoEntry? || r.e.run > room then Painted([], false)
      else
        var px := Pixels(r.e, palette);
        if |px| > room then Painted(Repeat(palette[r.e.start], r.e.run), false)
        else After(px, DecodeEntries(src[r.size..], palette, room - |px|))
  }

  function Meaning(es: seq<Entry>, palette: seq<Rgba>): seq<Rgba>
    requires forall i :: 0 <= i < |es| ==> es[i].start <= es[i].stop < |palette|
  {
    if es == [] then [] else Pixels(es[0], palette) + Meaning(es[1..], palette)
  }

  function EncodeEntries(es: seq<Entry>, colors: nat): (bytes: seq<byte>)
    requires 1 <= colors <= 127 && forall i :: 0 <= i < |es| ==> EntryOk(es[i], colors)
  {
    if es == [] then [] else [Packed(es[0], colors)] + PutLength(es[0].run) + EncodeEntries(es[1..], colors)
  }

  lemma {:induction false} EntryRoundTrip(e: Entry, colors: nat, rest: seq<byte>)
    requires 1 <= colors <= 127 && EntryOk(e, colors)
    ensures ReadEntry([Packed(e, colors)] + PutLength(e.run) + rest, colors) == EntryAt(e, 1 + |PutLength(e.run)|)
  {
    var src := [Packed(e, colors)] + PutLength(e.run) + rest;
    Unpack(e, colors);
    LengthRoundTrip(e.run, rest);
    assert src[1..] == PutLength(e.run) + rest;
    hide Packed, PutLength, ReadLength, Base, EntryOk;
  }

  /** Entries that fit the rectangle decode to what they mean. */
  lemma {:induction false} EntriesRoundTrip(es: seq<Entry>, palette: seq<Rgba>, room: nat)
    requires 1 <= |palette| <= 127 && (forall i :: 0 <= i < |es| ==> EntryOk(es[i], |palette|))
    requires (forall i :: 0 <= i < |es| ==> es[i].start <= es[i].stop < |palette|) && |Meaning(es, palette)| <= room
    ensures DecodeEntries(EncodeEntries(es, |palette|), palette, room) == Painted(Meaning(es, palette), true)
    decreases |es|
  {
    hide ReadEntry, Packed, PutLength, Pixels;
    if es != [] {
      var e, rest := es[0], EncodeEntries(es[1..], |palette|);
      assert EntryOk(e, |palette|);
      EntryRoundTrip(e, |palette|, rest);
      var head := [Packed(e, |palette|)] + PutLength(e.run);
      assert (head + rest)[|head|..] == rest;
      EntriesRoundTrip(es[1..], palette, room - |Pixels(e, palette)|);
    }
  }
}
