/** Rectangles that run past the surface's edges: their rows continue on the next rows
    of the buffer, but only the clamped rectangle is shown. */
module EgfxOverrun {
  import opened Raster
  import opened Framebuffer
  import opened Egfx
  import opened EgfxCoherence

  // ---------- what the row loops write, whatever the stride and the row length ----------

  /** Row r of a rectangle of the buffer holds index i. */
  predicate InStretch(off: int, stride: int, n: int, r: int, i: int) {
    SourceRow(off, stride, r) <= i < SourceRow(off, stride, r) + n
  }

  predicate Touched(off: int, stride: int, n: int, rows: int, i: int) {
    exists r :: 0 <= r < rows && InStretch(off, stride, n, r, i)
  }

  lemma {:induction false} StretchShift(off: int, stride: int, n: int, r: int, i: int)
    ensures InStretch(off + stride, stride, n, r, i) <==> InStretch(off, stride, n, r + 1, i)
  {
    SourceRowShift(off, stride, r);
    hide SourceRow;
  }

  lemma {:induction false} FirstStretch(off: int, stride: int, n: int, i: int)
    ensures InStretch(off, stride, n, 0, i) <==> off <= i < off + n
  {
  }

  lemma {:induction false} TouchedCons(off: int, stride: int, n: int, rows: nat, i: int)
    requires rows > 0
    ensures Touched(off, stride, n, rows, i) <==> off <= i < off + n || Touched(off + stride, stride, n, rows - 1, i)
  {
    hide InStretch;
    FirstStretch(off, stride, n, i);
    if Touched(off, stride, n, rows, i) {
      var r :| 0 <= r < rows && InStretch(off, stride, n, r, i);
      if r > 0 { StretchShift(off, stride, n, r - 1, i); }
    }
    if Touched(off + stride, stride, n, rows - 1, i) {
      var r :| 0 <= r < rows - 1 && InStretch(off + stride, stride, n, r, i);
      StretchShift(off, stride, n, r, i);
    }
  }

  /** A fill colours exactly the stretches, also where they run over the edge. */
  lemma {:induction false} FillRowsExact(data: seq<Rgba>, off: nat, stride: nat, n: nat, rows: nat, c: Rgba, i: nat)
    requires i < |data|
    ensures FillRows(data, off, stride, n, rows, c)[i] == if Touched(off, stride, n, rows, i) then c else data[i]
    decreases rows
  {
    if rows > 0 {
      FillRowsExact(FillRow(data, off, n, c), off + stride, stride, n, rows - 1, c, i);
      TouchedCons(off, stride, n, rows, i);
      hide Touched;
    }
  }

  /** Row r of a copy holds index i and fits the buffer and the source. */
  predicate Writes(len: nat, off: int, stride: int, srcLen: nat, srcOff: int, srcStride: int, n: nat, r: int, i: int) {
    && InStretch(off, stride, n, r, i)
    && 0 <= SourceRow(off, stride, r) && SourceRow(off, stride, r) + n <= len
    && 0 <= SourceRow(srcOff, srcStride, r) && SourceRow(srcOff, srcStride, r) + n <= srcLen
  }

  /** The last row that writes index i; -1 if none does. */
  function Owner(len: nat, off: int, stride: int, srcLen: nat, srcOff: int, srcStride: int, n: nat, rows: nat, i: int): (r: int)
    ensures -1 <= r < rows
    ensures r >= 0 ==> Writes(len, off, stride, srcLen, srcOff, srcStride, n, r, i)
    ensures forall q :: r < q < rows ==> !Writes(len, off, stride, srcLen, srcOff, srcStride, n, q, i)
  {
    if rows == 0 then -1
    else if Writes(len, off, stride, srcLen, srcOff, srcStride, n, rows - 1, i) then rows - 1
    else Owner(len, off, stride, srcLen, srcOff, srcStride, n, rows - 1, i)
  }

  lemma {:induction false} WritesShift(len: nat, off: int, stride: int, srcLen: nat, srcOff: int, srcStride: int, n: nat, r: int, i: int)
    ensures Writes(len, off + stride, stride, srcLen, srcOff + srcStride, srcStride, n, r, i)
       <==> Writes(len, off, stride, srcLen, srcOff, srcStride, n, r + 1, i)
  {
    SourceRowShift(off, stride, r);
    SourceRowShift(srcOff, srcStride, r);
    hide SourceRow;
  }

  /** The owner of the rows after the first, counted from the second row on. */
  lemma {:induction false} OwnerCons(len: nat, off: int, stride: int, srcLen: nat, srcOff: int, srcStride: int, n: nat, rows: nat, i: int)
    requires rows > 0
    ensures var r := Owner(len, off + stride, stride, srcLen, srcOff + srcStride, srcStride, n, rows - 1, i);
            Owner(len, off, stride, srcLen, srcOff, srcStride, n, rows, i) ==
              if r >= 0 then r + 1 else if Writes(len, off, stride, srcLen, srcOff, srcStride, n, 0, i) then 0 else -1
    decreases rows
  {
    hide Writes;
    WritesShift(len, off, stride, srcLen, srcOff, srcStride, n, rows - 2, i);
    if rows > 1 && !Writes(len, off, stride, srcLen, srcOff, srcStride, n, rows - 1, i) {
      OwnerCons(len, off, stride, srcLen, srcOff, srcStride, n, rows - 1, i);
    }
  }

  /** The pixel a copy leaves at index i: that of its last row there. */
  function Copied(data: seq<Rgba>, off: int, stride: int, src: seq<Rgba>, srcOff: int, srcStride: int, n: nat, rows: nat, i: nat): Rgba
    requires i < |data|
  {
    var r := Owner(|data|, off, stride, |src|, srcOff, srcStride, n, rows, i);
    if r < 0 then data[i] else src[SourceRow(srcOff, srcStride, r) + (i - SourceRow(off, stride, r))]
  }

  lemma {:induction false} CopyRowsExact(data: seq<Rgba>, off: int, stride: int, src: seq<Rgba>, srcOff: int, srcStride: int, n: nat, rows: nat, i: nat)
    requires i < |data|
    ensures CopyRows(data, off, stride, src, srcOff, srcStride, n, rows)[i] == Copied(data, off, stride, src, srcOff, srcStride, n, rows, i)
    decreases rows
  {
    hide Splice, Copied;
    if rows > 0 {
      var data' := Splice(data, off, src, srcOff, n);
      CopyRowsExact(data', off + stride, stride, src, srcOff + srcStride, srcStride, n, rows - 1, i);
      CopiedCons(data, off, stride, src, srcOff, srcStride, n, rows, i);
    } else {
      CopiedNone(data, off, stride, src, srcOff, srcStride, n, i);
    }
  }

  lemma {:induction false} CopiedNone(data: seq<Rgba>, off: int, stride: int, src: seq<Rgba>, srcOff: int, srcStride: int, n: nat, i: nat)
    requires i < |data|
    ensures Copied(data, off, stride, src, srcOff, srcStride, n, 0, i) == data[i]
  {
  }

  lemma {:induction false} CopiedCons(data: seq<Rgba>, off: int, stride: int, src: seq<Rgba>, srcOff: int, srcStride: int, n: nat, rows: nat, i: nat)
    requires i < |data| && rows > 0
    ensures Copied(data, off, stride, src, srcOff, srcStride, n, rows, i) ==
              Copied(Splice(data, off, src, srcOff, n), off + stride, stride, src, srcOff + srcStride, srcStride, n, rows - 1, i)
  {
    hide *;
    OwnerCons(|data|, off, stride, |src|, srcOff, srcStride, n, rows, i);
    var r := Owner(|data|, off + stride, stride, |src|, srcOff + srcStride, srcStride, n, rows - 1, i);
    CopiedIs(data, off, stride, src, srcOff, srcStride, n, rows, i);
    CopiedIs(Splice(data, off, src, srcOff, n), off + stride, stride, src, srcOff + srcStride, srcStride, n, rows - 1, i);
    SourceRowShift(off, stride, r);
    SourceRowShift(srcOff, srcStride, r);
    FirstRowWrites(data, off, stride, src, srcOff, srcStride, n, i);
  }

  lemma {:induction false} CopiedIs(data: seq<Rgba>, off: int, stride: int, src: seq<Rgba>, srcOff: int, srcStride: int, n: nat, rows: nat, i: nat)
    requires i < |data|
    ensures var r := Owner(|data|, off, stride, |src|, srcOff, srcStride, n, rows, i);
            var k := SourceRow(srcOff, srcStride, r) + (i - SourceRow(off, stride, r));
            && (r < 0 ==> Copied(data, off, stride, src, srcOff, srcStride, n, rows, i) == data[i])
            && (r >= 0 ==> 0 <= k < |src| && Copied(data, off, stride, src, srcOff, srcStride, n, rows, i) == src[k])
  {
  }

  lemma {:induction false} FirstRowWrites(data: seq<Rgba>, off: int, stride: int, src: seq<Rgba>, srcOff: int, srcStride: int, n: nat, i: nat)
    requires i < |data|
    ensures SourceRow(off, stride, 0) == off && SourceRow(srcOff, srcStride, 0) == srcOff
    ensures if Writes(|data|, off, stride, |src|, srcOff, srcStride, n, 0, i)
            then 0 <= srcOff + (i - off) < |src| && Splice(data, off, src, srcOff, n)[i] == src[srcOff + (i - off)]
            else Splice(data, off, src, srcOff, n)[i] == data[i]
  {
  }

  // ---------- what is shown ----------

  /** The exact condition for any repainting outside a frame: a pixel that was shown
      right is right afterwards if and only if it belongs to another surface, lies in the
      announced rectangle, or kept its colour. */
  lemma {:induction false} StaysRightIff(s: State, id: nat, data: seq<Rgba>, a: Area, p: Spot)
    requires WellFormed(s) && LayoutOk(s) && !s.inFrame && Mapped(s, id) && |data| == |s.surfaces[id].data|
    requires Exists(s, p) && OnScreen(s, p) && Agrees(s, p)
    ensures WellFormed(Paint(s, id, data, a))
    ensures Agrees(Paint(s, id, data, a), p) <==>
              p.id != id || Within(a, p.x, p.y) || PixelOf(s.surfaces[id].(data := data), p.x, p.y) == PixelOf(s.surfaces[id], p.x, p.y)
  {
    hide *;
    IsMapped(s, id);
    var s1 := Repaint(s, id, data);
    Repainted(s, id, data, p);
    PaintShows(s, id, data, a);
    EmitIff(s1, DirtyRect(id, a), p);
  }

  lemma {:induction false} Repainted(s: State, id: nat, data: seq<Rgba>, p: Spot)
    requires WellFormed(s) && LayoutOk(s) && Mapped(s, id) && |data| == |s.surfaces[id].data|
    requires Exists(s, p) && OnScreen(s, p) && Agrees(s, p)
    ensures var s1 := Repaint(s, id, data);
            && WellFormed(s1) && LayoutOk(s1) && (forall a :: Showable(s1, [DirtyRect(id, a)])) && SurfaceOk(s.surfaces[id])
            && (p.id == id ==> p.x < s.surfaces[id].width && p.y < s.surfaces[id].height)
            && (Agrees(s1, p) <==> p.id != id || PixelOf(s.surfaces[id].(data := data), p.x, p.y) == PixelOf(s.surfaces[id], p.x, p.y))
  {
    hide At, PixelOf;
    Relaid(s, Repaint(s, id, data));
  }

  lemma {:induction false} PaintShows(s: State, id: nat, data: seq<Rgba>, a: Area)
    requires id in s.surfaces && !s.inFrame && WellFormed(Repaint(s, id, data))
    ensures Paint(s, id, data, a) == EmitRect(Repaint(s, id, data), DirtyRect(id, a)) && WellFormed(Paint(s, id, data, a))
  {
  }

  /** The rows' stretches of an area in a surface's buffer hold the pixel. */
  predicate OnRows(surf: Surface, a: Area, x: nat, y: nat) {
    Touched(Index(surf.width, a.left, a.top), surf.width, a.right - a.left, a.bottom - a.top, Index(surf.width, x, y))
  }

  lemma {:induction false} FilledPixel(surf: Surface, c: Rgba, a: Area, x: nat, y: nat)
    requires SurfaceOk(surf) && x < surf.width && y < surf.height
    ensures PixelOf(surf.(data := FilledData(surf, c, a)), x, y) == if OnRows(surf, a, x, y) then c else PixelOf(surf, x, y)
  {
    hide FillRows;
    IndexInRange(surf.width, surf.height, x, y);
    if a.right < a.left || a.bottom < a.top {
      assert surf.(data := surf.data) == surf;
    } else {
      FillRowsExact(surf.data, Index(surf.width, a.left, a.top), surf.width, a.right - a.left, a.bottom - a.top, c, Index(surf.width, x, y));
    }
  }

  lemma {:induction false} SpotExists(s: State, p: Spot)
    requires WellFormed(s) && Exists(s, p)
    ensures p.id in s.surfaces && SurfaceOk(s.surfaces[p.id]) && p.x < s.surfaces[p.id].width && p.y < s.surfaces[p.id].height
  {
  }

  /** For a fill of any area: a pixel stays right if and only if it is in the area, in
      none of the rows' stretches of the buffer, or already has the colour. */
  lemma {:induction false} FilledRightIff(s: State, id: nat, c: Rgba, a: Area, p: Spot)
    requires WellFormed(s) && LayoutOk(s) && !s.inFrame && Mapped(s, id)
    requires Exists(s, p) && OnScreen(s, p) && Agrees(s, p)
    ensures WellFormed(FillArea(s, id, c, a))
    ensures Agrees(FillArea(s, id, c, a), p) <==>
              p.id != id || Within(a, p.x, p.y) || !OnRows(s.surfaces[id], a, p.x, p.y) || PixelOf(s.surfaces[id], p.x, p.y) == c
  {
    hide *;
    SpotExists(s, p);
    IsMapped(s, id);
    var surf := s.surfaces[id];
    FillAreaPaints(s, id, c, a);
    StaysRightIff(s, id, FilledData(surf, c, a), a, p);
    if p.id == id {
      FilledPixel(surf, c, a, p.x, p.y);
    }
  }

  lemma {:induction false} IsMapped(s: State, id: nat)
    requires Mapped(s, id)
    ensures id in s.surfaces && id in s.outputMap
  {
  }

  /** The pixel that a copied picture leaves at a place of a surface. */
  function PutPixel(surf: Surface, pic: Picture, left: nat, top: nat, x: nat, y: nat): Rgba
    requires SurfaceOk(surf) && x < surf.width && y < surf.height
  {
    IndexInRange(surf.width, surf.height, x, y);
    Copied(surf.data, Index(surf.width, left, top), surf.width, pic.data, pic.off, pic.stride, pic.w, pic.h, Index(surf.width, x, y))
  }

  lemma {:induction false} PutPixelAt(surf: Surface, pic: Picture, left: nat, top: nat, x: nat, y: nat)
    requires SurfaceOk(surf) && x < surf.width && y < surf.height
    ensures PixelOf(surf.(data := PutData(surf, pic, left, top)), x, y) == PutPixel(surf, pic, left, top, x, y)
  {
    hide CopyRows, Copied;
    IndexInRange(surf.width, surf.height, x, y);
    CopyRowsExact(surf.data, Index(surf.width, left, top), surf.width, pic.data, pic.off, pic.stride, pic.w, pic.h, Index(surf.width, x, y));
  }

  /** For a copy to any place: a pixel stays right if and only if it is in the picture's
      rectangle, or the last row written over it has its colour there. */
  lemma {:induction false} CopiedRightIff(s: State, id: nat, pic: Picture, x: nat, y: nat, p: Spot)
    requires WellFormed(s) && LayoutOk(s) && !s.inFrame && Mapped(s, id)
    requires Exists(s, p) && OnScreen(s, p) && Agrees(s, p)
    ensures WellFormed(PutAt(s, id, pic, x, y))
    ensures Agrees(PutAt(s, id, pic, x, y), p) <==>
              || p.id != id || Within(Landing(pic.w, pic.h, (x, y)), p.x, p.y)
              || PutPixel(s.surfaces[id], pic, x, y, p.x, p.y) == PixelOf(s.surfaces[id], p.x, p.y)
  {
    hide *;
    SpotExists(s, p);
    IsMapped(s, id);
    PutAtPaints(s, id, pic, x, y);
    StaysRightIff(s, id, PutData(s.surfaces[id], pic, x, y), Landing(pic.w, pic.h, (x, y)), p);
    if p.id == id {
      PutPixelAt(s.surfaces[id], pic, x, y, p.x, p.y);
    }
  }

  /** It does go wrong: one row past the right edge recolours the start of the next. */
  lemma {:induction false} OverlongRowGoesStale(s: State, id: nat, c: Rgba, a: Area)
    requires WellFormed(s) && LayoutOk(s) && !s.inFrame && Mapped(s, id)
    requires var surf := s.surfaces[id];
             0 < a.left < surf.width < a.right && a.bottom == a.top + 1 < surf.height && PixelOf(surf, 0, a.bottom) != c
    requires Agrees(s, Spot(id, 0, a.bottom)) && OnScreen(s, Spot(id, 0, a.bottom))
    ensures var s' := FillArea(s, id, c, a);
            WellFormed(s') && !Agrees(s', Spot(id, 0, a.bottom))
  {
    hide *;
    IsMapped(s, id);
    NextRowStart(s, id, a);
    FilledRightIff(s, id, c, a, Spot(id, 0, a.bottom));
  }

  lemma {:induction false} NextRowStart(s: State, id: nat, a: Area)
    requires WellFormed(s) && Mapped(s, id)
    requires var surf := s.surfaces[id];
             0 < a.left < surf.width < a.right && a.bottom == a.top + 1 < surf.height
    ensures Exists(s, Spot(id, 0, a.bottom)) && OnRows(s.surfaces[id], a, 0, a.bottom) && !Within(a, 0, a.bottom)
    ensures SurfaceOk(s.surfaces[id])
  {
    var surf := s.surfaces[id];
    var off, n := Index(surf.width, a.left, a.top), a.right - a.left;
    assert InStretch(off, surf.width, n, 0, Index(surf.width, 0, a.bottom)) by {
      FirstStretch(off, surf.width, n, Index(surf.width, 0, a.bottom));
    }
  }
}
