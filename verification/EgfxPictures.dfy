/** What the painting commands put on a surface, and what goes wrong outside the
    assumptions of the coherence theorem. */
module EgfxPictures {
  import opened Raster
  import opened Framebuffer
  import opened Egfx
  import opened EgfxCoherence

  /** The picture's pixel (i, j) is the surface's pixel (left + i, top + j). */
  ghost predicate Shows(pic: Picture, surf: Surface, left: nat, top: nat)
    requires SurfaceOk(surf) && left + pic.w <= surf.width && top + pic.h <= surf.height
  {
    && SourceOk(pic.data, pic.off, pic.stride, pic.w, pic.h)
    && forall i: nat, j: nat :: i < pic.w && j < pic.h ==>
         PicturePixel(pic, i, j) == PixelOf(surf, left + i, top + j)
  }

  function PicturePixel(pic: Picture, i: nat, j: nat): Rgba
    requires i < pic.w && j < pic.h && SourceOk(pic.data, pic.off, pic.stride, pic.w, pic.h)
  {
    pic.data[SourceRow(pic.off, pic.stride, j) + i]
  }

  /** A window of a surface shows it. */
  lemma {:induction false} WindowShows(surf: Surface, left: nat, top: nat, w: nat, h: nat)
    requires SurfaceOk(surf) && left + w <= surf.width && top + h <= surf.height
    ensures Shows(Picture(surf.data, Index(surf.width, left, top), surf.width, w, h), surf, left, top)
  {
    var off := Index(surf.width, left, top);
    forall r | 0 <= r < h ensures 0 <= SourceRow(off, surf.width, r) && SourceRow(off, surf.width, r) + w <= |surf.data| {
      WindowRow(surf.width, left, top, r);
      RowFits(surf.width, surf.height, left, top + r, w);
    }
    forall i: nat, j: nat | i < w && j < h
      ensures PicturePixel(Picture(surf.data, off, surf.width, w, h), i, j) == PixelOf(surf, left + i, top + j)
    {
      WindowRow(surf.width, left, top, j);
    }
  }

  lemma {:induction false} WindowRow(width: nat, left: nat, top: nat, r: nat)
    ensures SourceRow(Index(width, left, top), width, r) == Index(width, left, top + r)
  {
  }

  /** So does the copy SurfaceToCache and same-surface blits take first. */
  lemma {:induction false} CutShows(surf: Surface, left: nat, top: nat, w: nat, h: nat)
    requires SurfaceOk(surf) && left + w <= surf.width && top + h <= surf.height
    ensures Shows(Picture(Cut(surf, left, top, w, h), 0, w, w, h), surf, left, top)
  {
    hide Cut, PixelOf;
    var pic := Picture(Cut(surf, left, top, w, h), 0, w, w, h);
    forall r | 0 <= r < h ensures 0 <= SourceRow(0, w, r) && SourceRow(0, w, r) + w <= |pic.data| {
      RowFits(w, h, 0, r, w);
    }
    forall i: nat, j: nat | i < w && j < h ensures PicturePixel(pic, i, j) == PixelOf(surf, left + i, top + j) {
      CutPixel(surf, left, top, w, h, i, j);
    }
  }

  lemma {:induction false} CutPixel(surf: Surface, left: nat, top: nat, w: nat, h: nat, i: nat, j: nat)
    requires SurfaceOk(surf) && left + w <= surf.width && top + h <= surf.height && i < w && j < h
    ensures Index(w, i, j) < |Cut(surf, left, top, w, h)|
    ensures Cut(surf, left, top, w, h)[Index(w, i, j)] == PixelOf(surf, left + i, top + j)
  {
    hide *;
    CutIsCopy(surf, left, top, w, h);
    WindowPixelAt(surf, left, top, w, h, i, j);
    CopyAll(Solid(w * h, CLEAR), surf.data, Index(surf.width, left, top), surf.width, w, h, i, j);
  }

  /** A copy the size of its destination overwrites all of it. */
  lemma {:induction false} CopyAll(data: seq<Rgba>, src: seq<Rgba>, srcOff: int, srcStride: int, w: nat, h: nat, i: nat, j: nat)
    requires |data| == w * h && SourceOk(src, srcOff, srcStride, w, h) && i < w && j < h
    ensures Index(w, i, j) < |data|
    ensures CopyRows(data, Index(w, 0, 0), w, src, srcOff, srcStride, w, h)[Index(w, i, j)] == src[SourceRow(srcOff, srcStride, j) + i]
  {
    hide *;
    assert (i as int) - 0 == i && (j as int) - 0 == j;
    InWholeRect(w, h, i, j);
    CopyRowsAt(data, w, h, 0, 0, src, srcOff, srcStride, w, h, i, j);
  }

  lemma {:induction false} InWholeRect(w: nat, h: nat, i: nat, j: nat)
    requires i < w && j < h
    ensures InRect(i, j, 0, 0, w, h)
  {
  }

  lemma {:induction false} CutIsCopy(surf: Surface, left: nat, top: nat, w: nat, h: nat)
    ensures Cut(surf, left, top, w, h) ==
      CopyRows(Solid(w * h, CLEAR), Index(w, 0, 0), w, surf.data, Index(surf.width, left, top), surf.width, w, h)
  {
  }

  lemma {:induction false} WindowPixelAt(surf: Surface, left: nat, top: nat, w: nat, h: nat, i: nat, j: nat)
    requires SurfaceOk(surf) && left + w <= surf.width && top + h <= surf.height && i < w && j < h
    ensures SourceOk(surf.data, Index(surf.width, left, top), surf.width, w, h)
    ensures surf.data[SourceRow(Index(surf.width, left, top), surf.width, j) + i] == PixelOf(surf, left + i, top + j)
  {
    WindowShows(surf, left, top, w, h);
    assert PicturePixel(Picture(surf.data, Index(surf.width, left, top), surf.width, w, h), i, j) == PixelOf(surf, left + i, top + j);
  }

  /** after is before with a w by h rectangle of from copied to (x, y), as far as the
      pixel (px, py) tells. */
  ghost predicate Copied(before: Surface, after: Surface, from: Surface, left: nat, top: nat, w: nat, h: nat, x: nat, y: nat, px: nat, py: nat)
    requires SurfaceOk(before) && SurfaceOk(from) && left + w <= from.width && top + h <= from.height
    requires px < before.width && py < before.height
  {
    && SurfaceOk(after) && after.width == before.width && after.height == before.height
    && PixelOf(after, px, py) ==
         if InRect(px, py, x, y, w, h) then PixelOf(from, left + (px - x), top + (py - y)) else PixelOf(before, px, py)
  }

  /** Painting a picture that shows a rectangle of from copies that rectangle, and
      nothing else changes: also when from is the surface itself and the two places
      overlap. */
  lemma {:induction false} PutCopies(s: State, id: nat, pic: Picture, from: Surface, left: nat, top: nat, x: nat, y: nat, px: nat, py: nat)
    requires WellFormed(s) && id in s.surfaces && SurfaceOk(from)
    requires left + pic.w <= from.width && top + pic.h <= from.height && Shows(pic, from, left, top)
    requires x + pic.w <= s.surfaces[id].width && y + pic.h <= s.surfaces[id].height
    requires px < s.surfaces[id].width && py < s.surfaces[id].height
    ensures Copied(s.surfaces[id], PutAt(s, id, pic, x, y).surfaces[id], from, left, top, pic.w, pic.h, x, y, px, py)
  {
    hide CopyRows, EmitRect;
    var surf := s.surfaces[id];
    CopyRowsAt(surf.data, surf.width, surf.height, x, y, pic.data, pic.off, pic.stride, pic.w, pic.h, px, py);
    if InRect(px, py, x, y, pic.w, pic.h) {
      assert PicturePixel(pic, px - x, py - y) == PixelOf(from, left + (px - x), top + (py - y));
    }
  }

  /** SurfaceToSurface moves the source rectangle as it was before the command, to any
      destination on any surface, its own included. */
  lemma {:induction false} BlitCopies(s: State, src: nat, dst: nat, a: Area, x: nat, y: nat, px: nat, py: nat)
    requires WellFormed(s) && src in s.surfaces && dst in s.surfaces && a.left < a.right && a.top < a.bottom
    requires a.right <= s.surfaces[src].width && a.bottom <= s.surfaces[src].height
    requires x + (a.right - a.left) <= s.surfaces[dst].width && y + (a.bottom - a.top) <= s.surfaces[dst].height
    requires px < s.surfaces[dst].width && py < s.surfaces[dst].height
    ensures var s' := Step(s, SurfaceToSurface(src, dst, a, [(x, y)]));
            && dst in s'.surfaces
            && Copied(s.surfaces[dst], s'.surfaces[dst], s.surfaces[src], a.left, a.top, a.right - a.left, a.bottom - a.top, x, y, px, py)
  {
    hide Shows, Cut, PutAt, Copied, BlitSource;
    var w, h := a.right - a.left, a.bottom - a.top;
    var pic := BlitSource(s, src, dst, a.left, a.top, w, h);
    BlitSourceShows(s, src, dst, a.left, a.top, w, h);
    PutCopies(s, dst, pic, s.surfaces[src], a.left, a.top, x, y, px, py);
    PutAllOne(s, dst, pic, x, y);
  }

  lemma {:induction false} BlitSourceShows(s: State, src: nat, dst: nat, left: nat, top: nat, w: nat, h: nat)
    requires src in s.surfaces && SurfaceOk(s.surfaces[src])
    requires left + w <= s.surfaces[src].width && top + h <= s.surfaces[src].height
    ensures var pic := BlitSource(s, src, dst, left, top, w, h);
            pic.w == w && pic.h == h && Shows(pic, s.surfaces[src], left, top)
  {
    hide Shows, Cut;
    CutShows(s.surfaces[src], left, top, w, h);
    WindowShows(s.surfaces[src], left, top, w, h);
  }

  lemma {:induction false} PutAllOne(s: State, id: nat, pic: Picture, x: nat, y: nat)
    requires id in s.surfaces
    ensures PutAll(s, id, pic, [(x, y)]) == PutAt(s, id, pic, x, y)
  {
    hide PutAt;
    assert [(x, y)][1..] == [];
  }

  /** What SurfaceToCache saves, CacheToSurface puts back: the rectangle as it was when
      it was saved, whatever happened to the surfaces in between. */
  lemma {:induction false} CacheRoundTrip(s: State, id: nat, slot: nat, a: Area, victim: nat, t: State, dst: nat, x: nat, y: nat, px: nat, py: nat)
    requires WellFormed(s) && id in s.surfaces && a.left < a.right <= s.surfaces[id].width && a.top < a.bottom <= s.surfaces[id].height
    requires slot in t.cache && SavedFrom(s, id, slot, a, victim, t.cache[slot])
    requires WellFormed(t) && dst in t.surfaces && px < t.surfaces[dst].width && py < t.surfaces[dst].height
    requires x + (a.right - a.left) <= t.surfaces[dst].width && y + (a.bottom - a.top) <= t.surfaces[dst].height
    ensures var t' := Step(t, CacheToSurface(slot, dst, [(x, y)]));
            && dst in t'.surfaces
            && Copied(t.surfaces[dst], t'.surfaces[dst], s.surfaces[id], a.left, a.top, a.right - a.left, a.bottom - a.top, x, y, px, py)
  {
    var w, h := a.right - a.left, a.bottom - a.top;
    SavedEntry(s, id, slot, a, victim, t.cache[slot]);
    assert SurfaceOk(s.surfaces[id]);
    hide *;
    RestoreCopies(s.surfaces[id], a.left, a.top, w, h, t, slot, dst, x, y, px, py);
  }

  lemma {:induction false} RestoreCopies(from: Surface, left: nat, top: nat, w: nat, h: nat, t: State, slot: nat, dst: nat, x: nat, y: nat, px: nat, py: nat)
    requires SurfaceOk(from) && left + w <= from.width && top + h <= from.height
    requires slot in t.cache && t.cache[slot] == CacheEntry(Cut(from, left, top, w, h), w, h)
    requires WellFormed(t) && dst in t.surfaces && px < t.surfaces[dst].width && py < t.surfaces[dst].height
    requires x + w <= t.surfaces[dst].width && y + h <= t.surfaces[dst].height
    ensures var t' := Step(t, CacheToSurface(slot, dst, [(x, y)]));
            dst in t'.surfaces && Copied(t.surfaces[dst], t'.surfaces[dst], from, left, top, w, h, x, y, px, py)
  {
    assert SurfaceOk(t.surfaces[dst]);
    hide *;
    CutShows(from, left, top, w, h);
    RestoredOnce(t, slot, dst, x, y);
    PutCopies(t, dst, Picture(t.cache[slot].data, 0, w, w, h), from, left, top, x, y, px, py);
  }

  /** The entry is the one that SurfaceToCache made in s. */
  ghost predicate SavedFrom(s: State, id: nat, slot: nat, a: Area, victim: nat, e: CacheEntry) {
    var s' := Step(s, SurfaceToCache(id, slot, a, victim));
    slot in s'.cache && s'.cache[slot] == e
  }

  lemma {:induction false} RestoredOnce(t: State, slot: nat, dst: nat, x: nat, y: nat)
    requires slot in t.cache && dst in t.surfaces
    ensures var e := t.cache[slot];
            Step(t, CacheToSurface(slot, dst, [(x, y)])) == PutAt(t, dst, Picture(e.data, 0, e.width, e.width, e.height), x, y)
  {
    var e := t.cache[slot];
    PutAllOne(t, dst, Picture(e.data, 0, e.width, e.width, e.height), x, y);
    hide PutAt, PutAll;
  }

  lemma {:induction false} SavedEntry(s: State, id: nat, slot: nat, a: Area, victim: nat, e: CacheEntry)
    requires id in s.surfaces && a.left < a.right && a.top < a.bottom && SavedFrom(s, id, slot, a, victim, e)
    ensures var w, h := a.right - a.left, a.bottom - a.top;
            e == CacheEntry(Cut(s.surfaces[id], a.left, a.top, w, h), w, h)
  {
    hide Cut;
  }

  // ---------- why the assumptions are there ----------

  /** A frame opened inside a frame forgets what waits to be shown: at its end exactly
      the pixels that were right already are right. */
  lemma {:induction false} NestedFrameForgets(s: State, p: Spot)
    requires WellFormed(s) && s.inFrame
    ensures var s' := Run(s, [StartFrame, EndFrame]);
            WellFormed(s') && (Agrees(s', p) <==> Agrees(s, p))
  {
    var s1 := Step(s, StartFrame);
    assert [StartFrame, EndFrame][1..] == [EndFrame] && [EndFrame][1..] == [];
    assert Run(s, [StartFrame, EndFrame]) == Step(s1, EndFrame);
    SameAgree(s, Step(s1, EndFrame), p);
  }

  /** An unmapped surface is shown at the origin, over whatever is mapped there. */
  lemma {:induction false} UnmappedSurfaceCovers(s: State, id: nat, a: Area, p: Spot)
    requires WellFormed(s) && LayoutOk(s) && id in s.surfaces && id !in s.outputMap
    requires Exists(s, p) && OnScreen(s, p) && Agrees(s, p)
    ensures var x, y := s.outputMap[p.id].0 + p.x, s.outputMap[p.id].1 + p.y;
            Agrees(EmitRect(s, DirtyRect(id, a)), p) <==>
              (Within(Clamp(s.surfaces[id], a), x, y) ==> PixelOf(s.surfaces[id], x, y) == PixelOf(s.surfaces[p.id], p.x, p.y))
  {
    hide EmitRect, At, PixelOf;
    EmitAt(s, DirtyRect(id, a), s.outputMap[p.id].0 + p.x, s.outputMap[p.id].1 + p.y);
  }
}
