/** Painting palette runs row after row into a rectangle of a top-down image. */
module RlexDecoder {
  import opened Bits
  import opened Wire
  import opened Raster
  import opened VBarBands
  import opened Rlex

  /** A rectangle of an image of the given row width. */
  datatype Window = Window(width: nat, left: nat, top: nat, w: nat, h: nat)

  function NextX(r: Window, x: nat): nat { if x + 1 >= r.w then 0 else x + 1 }

  function NextY(r: Window, x: nat, y: nat): nat { if x + 1 >= r.w then y + 1 else y }

  function Plot(dst: seq<Rgba>, r: Window, x: nat, y: nat, c: Rgba): (d: seq<Rgba>)
    ensures |d| == |dst|
  {
    var off := Index(r.width, r.left + x, r.top + y);
    if off < |dst| then dst[off := c] else dst
  }

  /** Pixels from (x, y) of the window on, row after row. */
  function PaintFrom(dst: seq<Rgba>, r: Window, px: seq<Rgba>, x: nat, y: nat): (d: seq<Rgba>)
    ensures |d| == |dst|
    decreases px
  {
    if px == [] then dst else PaintFrom(Plot(dst, r, x, y, px[0]), r, px[1..], NextX(r, x), NextY(r, x, y))
  }

  /** The place after n pixels. */
  ghost predicate Stands(r: Window, n: nat, x: nat, y: nat) { x < r.w && n == Index(r.w, x, y) }

  lemma {:induction false} StandsFirst(r: Window)
    requires r.w > 0
    ensures Stands(r, 0, 0, 0)
  {
  }

  lemma {:induction false} StandsNext(r: Window, n: nat, x: nat, y: nat)
    requires Stands(r, n, x, y)
    ensures Stands(r, n + 1, NextX(r, x), NextY(r, x, y))
  {
    NextRow(r.w, 0, y);
  }

  /** The place is the count divided by the width, with remainder. */
  lemma {:induction false} StandsIsDivision(r: Window, n: nat, x: nat, y: nat)
    requires r.w > 0
    ensures Stands(r, n, x, y) <==> x == n % r.w && y == n / r.w
  {
    if Stands(r, n, x, y) {
      DivisionUnique(n, r.w, y, x);
    }
  }

  lemma {:induction false} PaintConcat(dst: seq<Rgba>, r: Window, a: seq<Rgba>, b: seq<Rgba>, n: nat, x: nat, y: nat, x': nat, y': nat)
    requires Stands(r, n, x, y) && Stands(r, n + |a|, x', y')
    ensures PaintFrom(dst, r, a + b, x, y) == PaintFrom(PaintFrom(dst, r, a, x, y), r, b, x', y')
    decreases a
  {
    hide Plot, Index;
    if a == [] {
      assert a + b == b;
      StandsOnce(r, n, x, y, x', y');
    } else {
      assert (a + b)[1..] == a[1..] + b;
      StandsNext(r, n, x, y);
      PaintConcat(Plot(dst, r, x, y, a[0]), r, a[1..], b, n + 1, NextX(r, x), NextY(r, x, y), x', y');
    }
  }

  lemma {:induction false} StandsOnce(r: Window, n: nat, x: nat, y: nat, x': nat, y': nat)
    requires Stands(r, n, x, y) && Stands(r, n, x', y')
    ensures x == x' && y == y'
  {
    StandsIsDivision(r, n, x, y);
    StandsIsDivision(r, n, x', y');
  }

  ghost predicate Inside(r: Window, height: nat) { r.left + r.w <= r.width && r.top + r.h <= height }

  /** In a window inside the image the n-th pixel lands at the n-th place, and everything
      else, the whole image outside the window included, stays. */
  lemma {:induction false} PaintFromAt(dst: seq<Rgba>, height: nat, r: Window, px: seq<Rgba>, n: nat, x: nat, y: nat, qx: nat, qy: nat)
    requires |dst| == r.width * height && Inside(r, height) && Stands(r, n, x, y) && n + |px| <= r.w * r.h
    requires qx < r.width && qy < height
    ensures Index(r.width, qx, qy) < |dst|
    ensures PaintFrom(dst, r, px, x, y)[Index(r.width, qx, qy)] ==
              if InRect(qx, qy, r.left, r.top, r.w, r.h) && n <= Index(r.w, qx - r.left, qy - r.top) < n + |px|
              then px[Index(r.w, qx - r.left, qy - r.top) - n] else dst[Index(r.width, qx, qy)]
    decreases px
  {
    IndexInRange(r.width, height, qx, qy);
    if px != [] {
      StandsNext(r, n, x, y);
      RowInWindow(r, n, x, y);
      PlotAt(dst, height, r, x, y, px[0], qx, qy);
      PaintFromAt(Plot(dst, r, x, y, px[0]), height, r, px[1..], n + 1, NextX(r, x), NextY(r, x, y), qx, qy);
      if InRect(qx, qy, r.left, r.top, r.w, r.h) { SamePlace(r, n, x, y, qx - r.left, qy - r.top); }
      hide Index, Plot;
    }
  }

  lemma {:induction false} RowInWindow(r: Window, n: nat, x: nat, y: nat)
    requires Stands(r, n, x, y) && n < r.w * r.h
    ensures y < r.h
  {
    MulGrows(r.h, y, r.w);
  }

  lemma {:induction false} SamePlace(r: Window, n: nat, x: nat, y: nat, x': nat, y': nat)
    requires Stands(r, n, x, y) && x' < r.w
    ensures Index(r.w, x', y') == n <==> x' == x && y' == y
  {
    if Index(r.w, x', y') == n {
      StandsOnce(r, n, x, y, x', y');
    }
  }

  lemma {:induction false} PlotAt(dst: seq<Rgba>, height: nat, r: Window, x: nat, y: nat, c: Rgba, qx: nat, qy: nat)
    requires |dst| == r.width * height && Inside(r, height) && x < r.w && y < r.h && qx < r.width && qy < height
    ensures Index(r.width, qx, qy) < |dst|
    ensures Plot(dst, r, x, y, c)[Index(r.width, qx, qy)] == if qx == r.left + x && qy == r.top + y then c else dst[Index(r.width, qx, qy)]
  {
    IndexInRange(r.width, height, qx, qy);
    IndexInRange(r.width, height, r.left + x, r.top + y);
    IndexInBand(r.width, qx, qy, r.left + x, r.top + y, 1);
  }

  // ---------- the whole subcodec ----------

  datatype Outcome = Outcome(dst: seq<Rgba>, ok: bool)

  /** decodeRLEX. */
  function Decode(dst: seq<Rgba>, r: Window, src: seq<byte>): (o: Outcome)
    ensures |o.dst| == |dst|
  {
    if src == [] || !(1 <= src[0] <= 127) || 1 + 3 * src[0] as int > |src| then Outcome(dst, false)
    else
      var n := src[0] as int;
      var p := DecodeEntries(src[1 + 3 * n..], ReadPixels(src[1..], n), r.w * r.h);
      Outcome(PaintFrom(dst, r, p.pixels, 0, 0), p.ok)
  }

  function Encode(palette: seq<Rgba>, es: seq<Entry>): (bytes: seq<byte>)
    requires 1 <= |palette| <= 127 && forall i :: 0 <= i < |es| ==> EntryOk(es[i], |palette|)
  {
    [|palette| as byte] + (PutPixels(palette) + EncodeEntries(es, |palette|))
  }

  /** Palette and entries that fit the window paint their pixels row after row, and
      nothing outside them. */
  lemma {:induction false} RlexRoundTrip(dst: seq<Rgba>, height: nat, r: Window, palette: seq<Rgba>, es: seq<Entry>, qx: nat, qy: nat)
    requires 1 <= |palette| <= 127 && Opaque(palette) && (forall i :: 0 <= i < |es| ==> EntryOk(es[i], |palette|))
    requires (forall i :: 0 <= i < |es| ==> es[i].start <= es[i].stop < |palette|) && |Meaning(es, palette)| <= r.w * r.h
    requires |dst| == r.width * height && Inside(r, height) && r.w > 0 && qx < r.width && qy < height
    ensures Index(r.width, qx, qy) < |dst|
    ensures var o := Decode(dst, r, Encode(palette, es));
            && o.ok
            && o.dst[Index(r.width, qx, qy)] ==
                 if InRect(qx, qy, r.left, r.top, r.w, r.h) && Index(r.w, qx - r.left, qy - r.top) < |Meaning(es, palette)|
                 then Meaning(es, palette)[Index(r.w, qx - r.left, qy - r.top)] else dst[Index(r.width, qx, qy)]
  {
    hide *;
    RlexDecodes(dst, r, palette, es);
    StandsFirst(r);
    PaintFromAt(dst, height, r, Meaning(es, palette), 0, 0, 0, qx, qy);
  }

  lemma {:induction false} RlexDecodes(dst: seq<Rgba>, r: Window, palette: seq<Rgba>, es: seq<Entry>)
    requires 1 <= |palette| <= 127 && Opaque(palette) && (forall i :: 0 <= i < |es| ==> EntryOk(es[i], |palette|))
    requires (forall i :: 0 <= i < |es| ==> es[i].start <= es[i].stop < |palette|) && |Meaning(es, palette)| <= r.w * r.h
    ensures Decode(dst, r, Encode(palette, es)) == Outcome(PaintFrom(dst, r, Meaning(es, palette), 0, 0), true)
  {
    hide *;
    var n := |palette|;
    var pp, ee := PutPixels(palette), EncodeEntries(es, n);
    var src := Encode(palette, es);
    EncodeIs(palette, es);
    Parts(n, pp, ee);
    PixelsRoundTrip(palette, ee);
    EntriesRoundTrip(es, palette, r.w * r.h);
    DecodeIs(dst, r, src, n);
  }

  lemma {:induction false} EncodeIs(palette: seq<Rgba>, es: seq<Entry>)
    requires 1 <= |palette| <= 127 && forall i :: 0 <= i < |es| ==> EntryOk(es[i], |palette|)
    ensures Encode(palette, es) == [|palette| as byte] + (PutPixels(palette) + EncodeEntries(es, |palette|))
  {
    hide PutPixels, EncodeEntries, EntryOk;
  }

  lemma {:induction false} DecodeIs(dst: seq<Rgba>, r: Window, src: seq<byte>, n: nat)
    requires src != [] && 1 <= n <= 127 && src[0] as int == n && 1 + 3 * n <= |src|
    ensures var p := DecodeEntries(src[1 + 3 * n..], ReadPixels(src[1..], n), r.w * r.h);
            Decode(dst, r, src) == Outcome(PaintFrom(dst, r, p.pixels, 0, 0), p.ok)
  {
    hide DecodeEntries, ReadPixels, PaintFrom;
  }

  lemma {:induction false} Parts(n: nat, pp: seq<byte>, ee: seq<byte>)
    requires 1 <= n <= 127 && |pp| == 3 * n
    ensures var src := [n as byte] + (pp + ee);
            && src != [] && 1 <= src[0] <= 127 && 1 + 3 * src[0] as int <= |src|
            && src[0] as int == n && src[1..] == pp + ee && src[1 + 3 * n..] == ee
  {
  }

  // ---------- the loops ----------

  /** n pixels, from the palette: a run of one colour, or a sweep. */
  method PaintPixels(dst: array<Rgba>, r: Window, px: seq<Rgba>, x0: nat, y0: nat, ghost n: nat) returns (x: nat, y: nat)
    requires Stands(r, n, x0, y0)
    modifies dst
    ensures Stands(r, n + |px|, x, y) && dst[..] == PaintFrom(old(dst[..]), r, px, x0, y0)
  {
    hide Stands, Index;
    ghost var goal := PaintFrom(dst[..], r, px, x0, y0);
    x, y := x0, y0;
    assert px[0..] == px;
    for i := 0 to |px|
      invariant Stands(r, n + i, x, y) && PaintFrom(dst[..], r, px[i..], x, y) == goal
    {
      StandsNext(r, n + i, x, y);
      ghost var before := dst[..];
      var dstOff := Index(r.width, r.left + x, r.top + y);
      if dstOff < dst.Length {
        dst[dstOff] := px[i];
      }
      assert dst[..] == Plot(before, r, x, y, px[i]);
      assert px[i..][1..] == px[i + 1..] && px[i..][0] == px[i];
      x, y := NextX(r, x), NextY(r, x, y);
    }
    assert px[|px|..] == [];
  }

  method DecodeRLEX(dst: array<Rgba>, r: Window, src: seq<byte>) returns (ok: bool)
    modifies dst
    ensures Outcome(dst[..], ok) == Decode(old(dst[..]), r, src)
  {
    hide DecodeEntries, PaintFrom;
    if src == [] || !(1 <= src[0] <= 127) || 1 + 3 * src[0] as int > |src| {
      return false;
    }
    var paletteCount := src[0] as int;
    var palette := ReadPixels(src[1..], paletteCount);
    ok := PaintEntries(dst, r, palette, src[1 + 3 * paletteCount..]);
  }

  method PaintEntries(dst: array<Rgba>, r: Window, palette: seq<Rgba>, src: seq<byte>) returns (ok: bool)
    requires |palette| >= 1
    modifies dst
    ensures var p := DecodeEntries(src, palette, r.w * r.h);
            ok == p.ok && dst[..] == PaintFrom(old(dst[..]), r, p.pixels, 0, 0)
  {
    if r.w == 0 {
      NoRoom(src, palette, dst[..], r);
      return true;
    }
    ok := PaintUpTo(dst, r, palette, src, r.w * r.h);
  }

  method PaintUpTo(dst: array<Rgba>, r: Window, palette: seq<Rgba>, src: seq<byte>, totalPixels: nat) returns (ok: bool)
    requires |palette| >= 1 && r.w > 0
    modifies dst
    ensures var p := DecodeEntries(src, palette, totalPixels);
            ok == p.ok && dst[..] == PaintFrom(old(dst[..]), r, p.pixels, 0, 0)
  {
    hide *;
    ghost var was, goal := dst[..], DecodeEntries(src, palette, totalPixels);
    ghost var done: seq<Rgba> := [];
    var room: nat, x: nat, y: nat, si: nat := totalPixels, 0, 0, 0;
    assert src[0..] == src;
    StandsFirst(r);
    Nothing(goal);
    NothingPainted(was, r);
    while si < |src| && room > 0
      invariant si <= |src| && Stands(r, |done|, x, y) && dst[..] == PaintFrom(was, r, done, 0, 0)
      invariant After(done, DecodeEntries(src[si..], palette, room)) == goal
      decreases |src| - si
    {
      EntryStep(src[si..], palette, room, done);
      ghost var rest := src[si..];
      var e := ReadEntry(src[si..], |palette|);
      if e.NoEntry? || e.e.run > room {
        return false;
      }
      ok, x, y := PaintEntry(dst, r, palette, e.e, room, x, y, done, was);
      if !ok {
        return;
      }
      done := done + Repeat(palette[e.e.start], e.e.run) + palette[e.e.start..e.e.stop + 1];
      room := room - e.e.run - (e.e.stop - e.e.start + 1);
      si := si + e.size;
      assert src[si..] == rest[e.size..];
    }
    EntriesEnd(src[si..], palette, room, done);
    ok := true;
  }

  /** The run, and if there is room for it the sweep. */
  method PaintEntry(dst: array<Rgba>, r: Window, palette: seq<Rgba>, e: Entry, room: nat, x0: nat, y0: nat, ghost done: seq<Rgba>, ghost was: seq<Rgba>)
    returns (ok: bool, x: nat, y: nat)
    requires e.start <= e.stop < |palette| && e.run <= room
    requires Stands(r, |done|, x0, y0) && dst[..] == PaintFrom(was, r, done, 0, 0) && r.w > 0
    modifies dst
    ensures var run, sweep := Repeat(palette[e.start], e.run), palette[e.start..e.stop + 1];
            var all := if ok then done + run + sweep else done + run;
            && ok == (e.run + |sweep| <= room)
            && Stands(r, |all|, x, y) && dst[..] == PaintFrom(was, r, all, 0, 0)
  {
    hide *;
    StandsFirst(r);
    x, y := PaintMore(dst, r, Repeat(palette[e.start], e.run), x0, y0, done, was);
    var suiteLen := e.stop - e.start + 1;
    if e.run + suiteLen > room {
      return false, x, y;
    }
    x, y := PaintMore(dst, r, palette[e.start..e.stop + 1], x, y, done + Repeat(palette[e.start], e.run), was);
    ok := true;
  }

  method PaintMore(dst: array<Rgba>, r: Window, px: seq<Rgba>, x0: nat, y0: nat, ghost done: seq<Rgba>, ghost was: seq<Rgba>)
    returns (x: nat, y: nat)
    requires Stands(r, |done|, x0, y0) && dst[..] == PaintFrom(was, r, done, 0, 0) && Stands(r, 0, 0, 0)
    modifies dst
    ensures Stands(r, |done + px|, x, y) && dst[..] == PaintFrom(was, r, done + px, 0, 0)
  {
    hide *;
    x, y := PaintPixels(dst, r, px, x0, y0, |done|);
    PaintConcat(was, r, done, px, 0, 0, 0, x0, y0);
  }

  lemma {:induction false} NoRoom(src: seq<byte>, palette: seq<Rgba>, was: seq<Rgba>, r: Window)
    requires |palette| >= 1 && r.w == 0
    ensures DecodeEntries(src, palette, r.w * r.h) == Painted([], true) && PaintFrom(was, r, [], 0, 0) == was
  {
  }

  lemma {:induction false} Nothing(p: Painted)
    ensures After([], p) == p
  {
    assert [] + p.pixels == p.pixels;
  }

  lemma {:induction false} NothingPainted(was: seq<Rgba>, r: Window)
    ensures PaintFrom(was, r, [], 0, 0) == was
  {
  }

  lemma {:induction false} EntriesEnd(src: seq<byte>, palette: seq<Rgba>, room: nat, done: seq<Rgba>)
    requires |palette| >= 1 && (src == [] || room == 0)
    ensures After(done, DecodeEntries(src, palette, room)) == Painted(done, true)
  {
    assert done + [] == done;
  }

  /** What one pass of the loop makes of the entries left. */
  lemma {:induction false} EntryStep(src: seq<byte>, palette: seq<Rgba>, room: nat, done: seq<Rgba>)
    requires |palette| >= 1 && src != [] && room > 0
    ensures var e := ReadEntry(src, |palette|);
            After(done, DecodeEntries(src, palette, room)) ==
              if e.NoEntry? || e.e.run > room then Painted(done, false)
              else
                var run, sweep := Repeat(palette[e.e.start], e.e.run), palette[e.e.start..e.e.stop + 1];
                if e.e.run + |sweep| > room then Painted(done + run, false)
                else After(done + run + sweep, DecodeEntries(src[e.size..], palette, room - e.e.run - |sweep|))
  {
    hide ReadEntry;
    var e := ReadEntry(src, |palette|);
    if e.EntryAt? && e.e.run <= room {
      var run, sweep := Repeat(palette[e.e.start], e.e.run), palette[e.e.start..e.e.stop + 1];
      if e.e.run + |sweep| <= room {
        var rest := DecodeEntries(src[e.size..], palette, room - e.e.run - |sweep|);
        assert done + (run + sweep + rest.pixels) == done + run + sweep + rest.pixels;
      }
    } else {
      assert done + [] == done;
    }
  }
}
