/** ClearCodec palette runs byte by byte: what any data paints. */
module RlexBytes {
  import opened Bits
  import opened Wire
  import opened Raster
  import opened VBarBands
  import opened Rlex
  import opened RlexDecoder

  /** A run's length in one, three or seven bytes; the longer forms need not be the
      shortest. */
  ghost predicate LengthIs(bytes: seq<byte>, n: nat) {
    if |bytes| == 1 then bytes[0] < 255 && n == bytes[0] as int
    else if |bytes| == 3 then bytes[0] == 255 && n == (bytes[1] as int) + 256 * (bytes[2] as int) < 65535
    else
      && |bytes| == 7 && bytes[0] == 255 && bytes[1] == 255 && bytes[2] == 255
      && n == (bytes[3] as int) + 256 * (bytes[4] as int) + 65536 * (bytes[5] as int) + 16777216 * (bytes[6] as int)
  }

  lemma {:induction false} LengthReads(bytes: seq<byte>, n: nat, rest: seq<byte>)
    requires LengthIs(bytes, n)
    ensures ReadLength(bytes + rest) == Len(n, |bytes|)
  {
    var src := bytes + rest;
    if |bytes| >= 3 {
      assert src[1..][0] == bytes[1] && src[1..][1] == bytes[2];
    }
    if |bytes| == 7 {
      assert src[3..][..2] == [bytes[3], bytes[4]] && src[3..][2..4] == [bytes[5], bytes[6]];
    }
  }

  /** A length that is cut off. */
  ghost predicate LengthCut(src: seq<byte>) {
    src == [] || (src[0] == 255 && |src| < 3) || (|src| < 7 && src[0] == 255 && src[1] == 255 && src[2] == 255)
  }

  lemma {:induction false} CutReads(src: seq<byte>)
    ensures ReadLength(src).Cut? <==> LengthCut(src)
  {
    if |src| >= 3 {
      assert src[1..][0] == src[1] && src[1..][1] == src[2];
    }
  }

  /** A stop index has the bits that the palette needs, and the sweep those above. */
  ghost predicate Splits(colors: nat, p: nat) {
    p == if colors <= 2 then 2 else if colors <= 4 then 4 else if colors <= 8 then 8 else if colors <= 16 then 16
         else if colors <= 32 then 32 else if colors <= 64 then 64 else 128
  }

  lemma {:induction false} BaseIs(colors: nat, p: nat)
    requires 1 <= colors <= 127 && Splits(colors, p)
    ensures Base(colors) == p
  {
    Powers();
    var e := IndexBits(colors);
    LogBounds(colors, e);
    hide Pow2, IndexBits;
    assert e == 1 || e == 2 || e == 3 || e == 4 || e == 5 || e == 6 || e == 7;
  }

  lemma {:induction false} Powers()
    ensures Pow2(0) == 1 && Pow2(1) == 2 && Pow2(2) == 4 && Pow2(3) == 8 && Pow2(4) == 16 && Pow2(5) == 32 && Pow2(6) == 64 && Pow2(7) == 128
  {
  }

  lemma {:induction false} LogBounds(colors: nat, e: nat)
    requires 1 <= colors <= 127 && e == IndexBits(colors)
    ensures 1 <= e <= 7 && colors <= Pow2(e) && (colors > 1 ==> Pow2(e - 1) < colors)
  {
    IndexBitsFit(colors);
    hide Pow2;
    if colors > 1 {
      assert Pow2(Log2(colors - 1)) <= colors - 1;
    }
  }

  /** One entry: a byte that splits into the stop index below and the sweep above, and a
      length.  It paints so many pixels of the colour where the sweep starts and then the
      colours from there to the stop.  An index outside the palette and a run that does not
      fit are errors that paint nothing, a sweep that does not fit is one after the run. */
  lemma {:induction false} EntryPaints(b: byte, length: seq<byte>, n: nat, rest: seq<byte>, palette: seq<Rgba>, room: nat, p: nat)
    requires 1 <= |palette| <= 127 && Splits(|palette|, p) && LengthIs(length, n) && room > 0
    ensures p > 0
    ensures var d, stop, sweep := DecodeEntries([b] + length + rest, palette, room), b as int % p, b as int / p;
            if stop < sweep || stop >= |palette| || n > room then d == Painted([], false)
            else
              var run := seq(n, _ => palette[stop - sweep]);
              if n + sweep + 1 > room then d == Painted(run, false)
              else
                var more := DecodeEntries(rest, palette, room - n - sweep - 1);
                d == Painted(run + palette[stop - sweep..stop + 1] + more.pixels, more.ok)
  {
    hide *;
    BaseIs(|palette|, p);
    var src := [b] + length + rest;
    assert src[1..] == length + rest;
    LengthReads(length, n, rest);
    LengthSize(length, n);
    EntryIs(src, |palette|);
    DecodeStep(src, palette, room);
    assert src[1 + |length|..] == rest;
  }

  lemma {:induction false} LengthSize(bytes: seq<byte>, n: nat)
    requires LengthIs(bytes, n)
    ensures |bytes| >= 1
  {
  }

  lemma {:induction false} EntryIs(src: seq<byte>, colors: nat)
    requires 1 <= colors && |src| >= 2
    ensures Base(colors) > 0
    ensures var sweep, stop, l := src[0] as int / Base(colors), src[0] as int % Base(colors), ReadLength(src[1..]);
            ReadEntry(src, colors) ==
              if l.Cut? || stop < sweep || stop >= colors then NoEntry else EntryAt(Entry(stop - sweep, stop, l.n), 1 + l.size)
  {
    hide Base, ReadLength;
  }

  lemma {:induction false} DecodeStep(src: seq<byte>, palette: seq<Rgba>, room: nat)
    requires |palette| >= 1 && src != [] && room > 0
    ensures var r := ReadEntry(src, |palette|);
            if r.NoEntry? || r.e.run > room then DecodeEntries(src, palette, room) == Painted([], false)
            else
              var run := seq(r.e.run, _ => palette[r.e.start]);
              var sweep := r.e.stop - r.e.start;
              if r.e.run + sweep + 1 > room then DecodeEntries(src, palette, room) == Painted(run, false)
              else
                var more := DecodeEntries(src[r.size..], palette, room - r.e.run - sweep - 1);
                DecodeEntries(src, palette, room) == Painted(run + palette[r.e.start..r.e.stop + 1] + more.pixels, more.ok)
  {
    hide ReadEntry;
    var r := ReadEntry(src, |palette|);
    if r.EntryAt? {
      assert Repeat(palette[r.e.start], r.e.run) == seq(r.e.run, _ => palette[r.e.start]);
    }
  }

  /** Where the data or the room ends all is well; where an entry is cut off it is not. */
  lemma {:induction false} EntriesStop(src: seq<byte>, palette: seq<Rgba>, room: nat)
    requires |palette| >= 1
    ensures src == [] || room == 0 ==> DecodeEntries(src, palette, room) == Painted([], true)
    ensures src != [] && room > 0 && LengthCut(src[1..]) ==> DecodeEntries(src, palette, room) == Painted([], false)
  {
    if src != [] && room > 0 && LengthCut(src[1..]) {
      CutReads(src[1..]);
      hide LengthCut, ReadLength, Base;
    }
  }

  /** Three bytes a colour, blue, green, red, all opaque. */
  ghost predicate PaletteIs(bytes: seq<byte>, palette: seq<Rgba>) {
    && |bytes| == 3 * |palette|
    && forall i :: 0 <= i < |palette| ==> palette[i] == Rgba(bytes[3 * i + 2], bytes[3 * i + 1], bytes[3 * i], 255)
  }

  lemma {:induction false} PaletteReads(bytes: seq<byte>, palette: seq<Rgba>, rest: seq<byte>)
    requires PaletteIs(bytes, palette)
    ensures |bytes + rest| >= 3 * |palette| && ReadPixels(bytes + rest, |palette|) == palette
  {
    var src := bytes + rest;
    forall i | 0 <= i < |palette| ensures ReadPixels(src, |palette|)[i] == palette[i] {
      assert src[3 * i] == bytes[3 * i] && src[3 * i + 1] == bytes[3 * i + 1] && src[3 * i + 2] == bytes[3 * i + 2];
    }
  }

  /** The whole of the data: the number of colours, the palette, and entries that paint row
      after row; without a palette of one to 127 whole colours nothing is painted. */
  lemma {:induction false} DataPaints(dst: seq<Rgba>, height: nat, r: Window, colors: seq<byte>, palette: seq<Rgba>, entries: seq<byte>, x: nat, y: nat, i: nat, k: int)
    requires 1 <= |palette| <= 127 && PaletteIs(colors, palette)
    requires |dst| == r.width * height && Inside(r, height) && r.w > 0 && x < r.width && y < height
    requires i == y * r.width + x && k == (y - r.top) * r.w + (x - r.left)
    ensures i < |dst|
    ensures var o, p := Decode(dst, r, [|palette| as byte] + (colors + entries)), DecodeEntries(entries, palette, r.w * r.h);
            && o.ok == p.ok
            && o.dst[i] == if r.left <= x < r.left + r.w && r.top <= y < r.top + r.h && 0 <= k < |p.pixels| then p.pixels[k] else dst[i]
  {
    RectIs(r, x, y, i, k);
    hide *;
    DataDecodes(dst, r, colors, palette, entries);
    PaintedAt(dst, height, r, DecodeEntries(entries, palette, r.w * r.h).pixels, x, y);
  }

  lemma {:induction false} DataDecodes(dst: seq<Rgba>, r: Window, colors: seq<byte>, palette: seq<Rgba>, entries: seq<byte>)
    requires 1 <= |palette| <= 127 && PaletteIs(colors, palette)
    ensures var o, p := Decode(dst, r, [|palette| as byte] + (colors + entries)), DecodeEntries(entries, palette, r.w * r.h);
            o == Outcome(PaintFrom(dst, r, p.pixels, 0, 0), p.ok)
  {
    hide *;
    PaletteSize(colors, palette);
    Parts(|palette|, colors, entries);
    PaletteReads(colors, palette, entries);
    DecodeIs(dst, r, [|palette| as byte] + (colors + entries), |palette|);
  }

  lemma {:induction false} PaintedAt(dst: seq<Rgba>, height: nat, r: Window, px: seq<Rgba>, x: nat, y: nat)
    requires |dst| == r.width * height && Inside(r, height) && r.w > 0 && x < r.width && y < height && |px| <= r.w * r.h
    ensures Index(r.width, x, y) < |dst|
    ensures PaintFrom(dst, r, px, 0, 0)[Index(r.width, x, y)] ==
              if InRect(x, y, r.left, r.top, r.w, r.h) && Index(r.w, x - r.left, y - r.top) < |px|
              then px[Index(r.w, x - r.left, y - r.top)] else dst[Index(r.width, x, y)]
  {
    hide *;
    StandsFirst(r);
    PaintFromAt(dst, height, r, px, 0, 0, 0, x, y);
  }

  lemma {:induction false} PaletteSize(bytes: seq<byte>, palette: seq<Rgba>)
    requires PaletteIs(bytes, palette)
    ensures |bytes| == 3 * |palette|
  {
  }

  lemma {:induction false} RectIs(r: Window, x: nat, y: nat, i: nat, k: int)
    requires i == y * r.width + x && k == (y - r.top) * r.w + (x - r.left)
    ensures Index(r.width, x, y) == i
    ensures InRect(x, y, r.left, r.top, r.w, r.h) <==> r.left <= x < r.left + r.w && r.top <= y < r.top + r.h
    ensures r.left <= x && r.top <= y ==> Index(r.w, x - r.left, y - r.top) == k
  {
  }

  lemma {:induction false} NoPalette(dst: seq<Rgba>, r: Window, src: seq<byte>)
    requires src == [] || src[0] == 0 || src[0] > 127 || |src| < 1 + 3 * (src[0] as int)
    ensures Decode(dst, r, src) == Outcome(dst, false)
  {
  }
}
