/** What each command leaves at every pixel of the surface that it draws on. */
module EgfxDrawing {
  import opened Raster
  import opened Framebuffer
  import opened Egfx
  import opened EgfxCoherence
  import EgfxOverrun
  import EgfxPictures

  /** The surface is still there, as large as it was. */
  ghost predicate Kept(s: State, s': State, id: nat) {
    && id in s.surfaces && id in s'.surfaces && SurfaceOk(s.surfaces[id]) && SurfaceOk(s'.surfaces[id])
    && s'.surfaces[id].width == s.surfaces[id].width && s'.surfaces[id].height == s.surfaces[id].height
  }

  /** No other surface changed. */
  ghost predicate OthersSame(s: State, s': State, id: nat) {
    s'.surfaces.Keys == s.surfaces.Keys && forall other :: other in s.surfaces && other != id ==> s'.surfaces[other] == s.surfaces[other]
  }

  lemma {:induction false} PaintLeaves(s: State, id: nat, data: seq<Rgba>, a: Area)
    requires WellFormed(s) && id in s.surfaces && |data| == |s.surfaces[id].data|
    ensures var s' := Paint(s, id, data, a);
            Kept(s, s', id) && OthersSame(s, s', id) && s'.surfaces[id] == s.surfaces[id].(data := data) && WellFormed(s')
  {
  }

  lemma {:induction false} SameIsKept(s: State, s': State, id: nat)
    requires WellFormed(s) && id in s.surfaces && s'.surfaces == s.surfaces
    ensures Kept(s, s', id) && OthersSame(s, s', id)
  {
  }

  lemma {:induction false} KeptTwice(s: State, s1: State, s2: State, id: nat)
    requires Kept(s, s1, id) && OthersSame(s, s1, id) && Kept(s1, s2, id) && OthersSame(s1, s2, id)
    ensures Kept(s, s2, id) && OthersSame(s, s2, id)
  {
  }

  /** The surface's width and height, where they are needed as numbers. */
  lemma {:induction false} KeptIs(s: State, s': State, id: nat)
    requires Kept(s, s', id)
    ensures id in s.surfaces && id in s'.surfaces && SurfaceOk(s.surfaces[id]) && SurfaceOk(s'.surfaces[id])
    ensures s'.surfaces[id].width == s.surfaces[id].width && s'.surfaces[id].height == s.surfaces[id].height
  {
  }

  // ---------- pictures at points ----------

  /** The last of the points whose w by h rectangle holds the pixel; -1 if none does. */
  function LastHit(points: seq<(nat, nat)>, w: nat, h: nat, x: nat, y: nat): (k: int)
    ensures -1 <= k < |points|
    ensures k >= 0 ==> InRect(x, y, points[k].0, points[k].1, w, h)
    ensures forall j :: k < j < |points| ==> !InRect(x, y, points[j].0, points[j].1, w, h)
  {
    if points == [] then -1
    else
      var last := |points| - 1;
      if InRect(x, y, points[last].0, points[last].1, w, h) then last else LastHit(points[..last], w, h, x, y)
  }

  lemma {:induction false} LastHitCons(points: seq<(nat, nat)>, w: nat, h: nat, x: nat, y: nat)
    requires points != []
    ensures var k := LastHit(points[1..], w, h, x, y);
            LastHit(points, w, h, x, y) ==
              if k >= 0 then k + 1 else if InRect(x, y, points[0].0, points[0].1, w, h) then 0 else -1
  {
    hide LastHit, InRect;
    var k, m := LastHit(points[1..], w, h, x, y), LastHit(points, w, h, x, y);
    assert forall j :: 0 <= j < |points[1..]| ==> points[1..][j] == points[j + 1];
    if k >= 0 {
      assert InRect(x, y, points[k + 1].0, points[k + 1].1, w, h);
    }
    if m >= 1 {
      assert InRect(x, y, points[1..][m - 1].0, points[1..][m - 1].1, w, h);
    }
  }

  lemma {:induction false} PutLeaves(s: State, id: nat, pic: Picture, left: nat, top: nat, x: nat, y: nat)
    requires WellFormed(s) && id in s.surfaces && left + pic.w <= s.surfaces[id].width && SourceOk(pic.data, pic.off, pic.stride, pic.w, pic.h)
    requires x < s.surfaces[id].width && y < s.surfaces[id].height
    ensures var s' := PutAt(s, id, pic, left, top);
            && WellFormed(s') && Kept(s, s', id) && OthersSame(s, s', id)
            && PixelOf(s'.surfaces[id], x, y) ==
                 if InRect(x, y, left, top, pic.w, pic.h) then pic.data[SourceRow(pic.off, pic.stride, y - top) + (x - left)]
                 else PixelOf(s.surfaces[id], x, y)
  {
    var surf := s.surfaces[id];
    PutAtPaints(s, id, pic, left, top);
    PaintLeaves(s, id, PutData(surf, pic, left, top), Landing(pic.w, pic.h, (left, top)));
    CopyRowsAt(surf.data, surf.width, surf.height, left, top, pic.data, pic.off, pic.stride, pic.w, pic.h, x, y);
    hide CopyRows, Paint, PutAt, Kept, OthersSame, WellFormed;
  }

  /** All copies fit between the surface's edges left and right. */
  ghost predicate PointsFit(surf: Surface, points: seq<(nat, nat)>, w: nat) {
    forall i :: 0 <= i < |points| ==> points[i].0 + w <= surf.width
  }

  lemma {:induction false} PutAllLeaves(s: State, id: nat, pic: Picture, points: seq<(nat, nat)>, x: nat, y: nat)
    requires WellFormed(s) && id in s.surfaces && PointsFit(s.surfaces[id], points, pic.w) && SourceOk(pic.data, pic.off, pic.stride, pic.w, pic.h)
    requires x < s.surfaces[id].width && y < s.surfaces[id].height
    ensures var s', k := PutAll(s, id, pic, points), LastHit(points, pic.w, pic.h, x, y);
            && WellFormed(s') && Kept(s, s', id) && OthersSame(s, s', id)
            && PixelOf(s'.surfaces[id], x, y) ==
                 if k >= 0 then pic.data[SourceRow(pic.off, pic.stride, y - points[k].1) + (x - points[k].0)]
                 else PixelOf(s.surfaces[id], x, y)
    decreases points
  {
    hide *;
    PutAllIs(s, id, pic, points);
    if points == [] {
      SameIsKept(s, s, id);
      KeptIs(s, s, id);
    } else {
      PointsHead(s.surfaces[id], points, pic.w);
      var s1 := PutAt(s, id, pic, points[0].0, points[0].1);
      PutLeaves(s, id, pic, points[0].0, points[0].1, x, y);
      KeptIs(s, s1, id);
      PointsSame(s.surfaces[id], s1.surfaces[id], points[1..], pic.w);
      PutAllLeaves(s1, id, pic, points[1..], x, y);
      LastHitCons(points, pic.w, pic.h, x, y);
      KeptTwice(s, s1, PutAll(s1, id, pic, points[1..]), id);
    }
  }

  lemma {:induction false} PutAllIs(s: State, id: nat, pic: Picture, points: seq<(nat, nat)>)
    requires id in s.surfaces
    ensures PutAll(s, id, pic, points) ==
              if points == [] then s else PutAll(PutAt(s, id, pic, points[0].0, points[0].1), id, pic, points[1..])
  {
    hide PutAt;
  }

  lemma {:induction false} PointsHead(surf: Surface, points: seq<(nat, nat)>, w: nat)
    requires points != [] && PointsFit(surf, points, w)
    ensures points[0].0 + w <= surf.width && PointsFit(surf, points[1..], w)
  {
  }

  lemma {:induction false} PointsSame(surf: Surface, surf': Surface, points: seq<(nat, nat)>, w: nat)
    requires PointsFit(surf, points, w) && surf'.width == surf.width
    ensures PointsFit(surf', points, w)
  {
  }

  // ---------- the commands ----------

  /** SurfaceToSurface: a pixel is that of the source rectangle, as it was before the
      command, that the last point covering it puts there. */
  lemma {:induction false} BlitLeaves(s: State, src: nat, dst: nat, a: Area, points: seq<(nat, nat)>, x: nat, y: nat)
    requires WellFormed(s) && src in s.surfaces && dst in s.surfaces && a.left < a.right && a.top < a.bottom
    requires a.right <= s.surfaces[src].width && a.bottom <= s.surfaces[src].height && PointsFit(s.surfaces[dst], points, a.right - a.left)
    requires x < s.surfaces[dst].width && y < s.surfaces[dst].height
    ensures var s' := Step(s, SurfaceToSurface(src, dst, a, points));
            var k := LastHit(points, a.right - a.left, a.bottom - a.top, x, y);
            && Kept(s, s', dst) && OthersSame(s, s', dst) && SurfaceOk(s.surfaces[src])
            && PixelOf(s'.surfaces[dst], x, y) ==
                 if k >= 0 then PixelOf(s.surfaces[src], a.left + (x - points[k].0), a.top + (y - points[k].1))
                 else PixelOf(s.surfaces[dst], x, y)
  {
    hide *;
    SizesOk(s, src);
    SizesOk(s, dst);
    var w, h := a.right - a.left, a.bottom - a.top;
    var pic, k := BlitSource(s, src, dst, a.left, a.top, w, h), LastHit(points, w, h, x, y);
    EgfxPictures.BlitSourceShows(s, src, dst, a.left, a.top, w, h);
    ShowsSource(pic, s.surfaces[src], a.left, a.top);
    PutAllLeaves(s, dst, pic, points, x, y);
    BlitIs(s, src, dst, a, points);
    KeptIs(s, Step(s, SurfaceToSurface(src, dst, a, points)), dst);
    if k >= 0 {
      InRectIs(x, y, points[k].0, points[k].1, w, h);
      ShowsAt(pic, s.surfaces[src], a.left, a.top, x - points[k].0, y - points[k].1);
    }
  }

  lemma {:induction false} SizesOk(s: State, id: nat)
    requires WellFormed(s) && id in s.surfaces
    ensures SurfaceOk(s.surfaces[id])
  {
  }

  lemma {:induction false} ShowsSource(pic: Picture, surf: Surface, left: nat, top: nat)
    requires SurfaceOk(surf) && left + pic.w <= surf.width && top + pic.h <= surf.height && EgfxPictures.Shows(pic, surf, left, top)
    ensures SourceOk(pic.data, pic.off, pic.stride, pic.w, pic.h)
  {
    hide SourceOk;
  }

  lemma {:induction false} ShowsAt(pic: Picture, surf: Surface, left: nat, top: nat, i: nat, j: nat)
    requires SurfaceOk(surf) && left + pic.w <= surf.width && top + pic.h <= surf.height && EgfxPictures.Shows(pic, surf, left, top)
    requires i < pic.w && j < pic.h
    ensures 0 <= SourceRow(pic.off, pic.stride, j) + i < |pic.data|
    ensures pic.data[SourceRow(pic.off, pic.stride, j) + i] == PixelOf(surf, left + i, top + j)
  {
    hide PixelOf;
    assert EgfxPictures.PicturePixel(pic, i, j) == PixelOf(surf, left + i, top + j);
  }

  lemma {:induction false} InRectIs(x: int, y: int, left: int, top: int, w: int, h: int)
    ensures InRect(x, y, left, top, w, h) <==> left <= x < left + w && top <= y < top + h
  {
  }

  lemma {:induction false} BlitIs(s: State, src: nat, dst: nat, a: Area, points: seq<(nat, nat)>)
    requires src in s.surfaces && dst in s.surfaces && a.left < a.right && a.top < a.bottom
    ensures Step(s, SurfaceToSurface(src, dst, a, points)) ==
              PutAll(s, dst, BlitSource(s, src, dst, a.left, a.top, a.right - a.left, a.bottom - a.top), points)
  {
    hide PutAll, BlitSource;
  }

  /** CacheToSurface: the same with the rows of the cache entry. */
  lemma {:induction false} RestoreLeaves(s: State, slot: nat, id: nat, points: seq<(nat, nat)>, x: nat, y: nat)
    requires WellFormed(s) && slot in s.cache && id in s.surfaces && |s.cache[slot].data| == s.cache[slot].width * s.cache[slot].height
    requires PointsFit(s.surfaces[id], points, s.cache[slot].width) && x < s.surfaces[id].width && y < s.surfaces[id].height
    ensures var s', e := Step(s, CacheToSurface(slot, id, points)), s.cache[slot];
            var k := LastHit(points, e.width, e.height, x, y);
            && Kept(s, s', id) && OthersSame(s, s', id)
            && (k >= 0 ==>
                  var i := (y - points[k].1) * e.width + (x - points[k].0);
                  0 <= i < |e.data| && PixelOf(s'.surfaces[id], x, y) == e.data[i])
            && (k < 0 ==> PixelOf(s'.surfaces[id], x, y) == PixelOf(s.surfaces[id], x, y))
  {
    hide *;
    var e := s.cache[slot];
    var pic, k := Picture(e.data, 0, e.width, e.width, e.height), LastHit(points, e.width, e.height, x, y);
    SizesOk(s, id);
    WholeSource(e.data, e.width, e.height);
    PutAllLeaves(s, id, pic, points, x, y);
    RestoreIs(s, slot, id, points);
    KeptIs(s, Step(s, CacheToSurface(slot, id, points)), id);
    if k >= 0 {
      InRectIs(x, y, points[k].0, points[k].1, e.width, e.height);
      WholeAt(e.data, e.width, e.height, x - points[k].0, y - points[k].1);
    }
  }

  lemma {:induction false} WholeSource(data: seq<Rgba>, w: nat, h: nat)
    requires |data| >= w * h
    ensures SourceOk(data, 0, w, w, h)
  {
    forall r | 0 <= r < h ensures 0 <= SourceRow(0, w, r) && SourceRow(0, w, r) + w <= |data| {
      RowFits(w, h, 0, r, w);
    }
  }

  lemma {:induction false} WholeAt(data: seq<Rgba>, w: nat, h: nat, i: nat, j: nat)
    requires |data| >= w * h && i < w && j < h
    ensures SourceRow(0, w, j) + i == j * w + i < |data|
  {
    IndexInRange(w, h, i, j);
  }

  lemma {:induction false} RestoreIs(s: State, slot: nat, id: nat, points: seq<(nat, nat)>)
    requires slot in s.cache && id in s.surfaces
    ensures var e := s.cache[slot];
            Step(s, CacheToSurface(slot, id, points)) == PutAll(s, id, Picture(e.data, 0, e.width, e.width, e.height), points)
  {
    hide PutAll;
  }

  /** WireToSurface: the pixels of the area in their order, if there are enough of them. */
  lemma {:induction false} WireLeaves(s: State, id: nat, a: Area, pixels: seq<Rgba>, x: nat, y: nat)
    requires WellFormed(s) && id in s.surfaces && a.right <= s.surfaces[id].width
    requires x < s.surfaces[id].width && y < s.surfaces[id].height
    ensures var s' := Step(s, WireToSurface(id, a, pixels));
            && Kept(s, s', id) && OthersSame(s, s', id)
            && if a.left <= x < a.right && a.top <= y < a.bottom && |pixels| >= (a.right - a.left) * (a.bottom - a.top) then
                 var i := (y - a.top) * (a.right - a.left) + (x - a.left);
                 0 <= i < |pixels| && PixelOf(s'.surfaces[id], x, y) == pixels[i]
               else PixelOf(s'.surfaces[id], x, y) == PixelOf(s.surfaces[id], x, y)
  {
    hide *;
    var w, h := a.right - a.left, a.bottom - a.top;
    SizesOk(s, id);
    WireIs(s, id, a, pixels);
    if w > 0 && h > 0 && |pixels| >= w * h {
      WholeSource(pixels, w, h);
      PutLeaves(s, id, Picture(pixels, 0, w, w, h), a.left, a.top, x, y);
      InRectIs(x, y, a.left, a.top, w, h);
      if InRect(x, y, a.left, a.top, w, h) {
        WholeAt(pixels, w, h, x - a.left, y - a.top);
      }
    } else {
      SameIsKept(s, s, id);
    }
    KeptIs(s, Step(s, WireToSurface(id, a, pixels)), id);
  }

  lemma {:induction false} WireIs(s: State, id: nat, a: Area, pixels: seq<Rgba>)
    requires id in s.surfaces
    ensures var w, h := a.right - a.left, a.bottom - a.top;
            Step(s, WireToSurface(id, a, pixels)) ==
              if w > 0 && h > 0 && |pixels| >= w * h then PutAt(s, id, Picture(pixels, 0, w, w, h), a.left, a.top) else s
  {
    hide PutAt;
  }

  /** ProgressiveTile: the tile's pixels inside the clip rectangle and the surface. */
  lemma {:induction false} TileLeaves(s: State, id: nat, tx: nat, ty: nat, tile: seq<Rgba>, clip: Area, x: nat, y: nat)
    requires WellFormed(s) && id in s.surfaces && |tile| == 4096
    requires x < s.surfaces[id].width && y < s.surfaces[id].height
    ensures var s' := Step(s, ProgressiveTile(id, tx, ty, tile, clip));
            && Kept(s, s', id) && OthersSame(s, s', id)
            && PixelOf(s'.surfaces[id], x, y) ==
                 if tx <= x < tx + 64 && ty <= y < ty + 64 && clip.left <= x < clip.right && clip.top <= y < clip.bottom
                 then tile[(y - ty) * 64 + (x - tx)]
                 else PixelOf(s.surfaces[id], x, y)
  {
    hide *;
    SizesOk(s, id);
    var surf := s.surfaces[id];
    var a := TileArea(surf.width, surf.height, tx, ty, clip);
    TileAreaIs(surf.width, surf.height, tx, ty, clip, x, y);
    TileIs(s, id, tx, ty, tile, clip);
    if a.left < a.right && a.top < a.bottom {
      var pic := TilePicture(tile, tx, ty, a);
      TileSource(tile, tx, ty, a);
      PutLeaves(s, id, pic, a.left, a.top, x, y);
      InRectIs(x, y, a.left, a.top, pic.w, pic.h);
      if InRect(x, y, a.left, a.top, pic.w, pic.h) {
        TileRow(tile, tx, ty, a, y);
      }
    } else {
      SameIsKept(s, s, id);
    }
    KeptIs(s, Step(s, ProgressiveTile(id, tx, ty, tile, clip)), id);
  }

  lemma {:induction false} TileAreaIs(width: nat, height: nat, tx: nat, ty: nat, clip: Area, x: nat, y: nat)
    ensures var a := TileArea(width, height, tx, ty, clip);
            && a.right <= width && a.bottom <= height && tx <= a.left && ty <= a.top && a.right <= tx + 64 && a.bottom <= ty + 64
            && (x < width && y < height ==>
                  (a.left <= x < a.right && a.top <= y < a.bottom <==>
                     tx <= x < tx + 64 && ty <= y < ty + 64 && clip.left <= x < clip.right && clip.top <= y < clip.bottom))
  {
  }

  lemma {:induction false} TileIs(s: State, id: nat, tx: nat, ty: nat, tile: seq<Rgba>, clip: Area)
    requires id in s.surfaces
    ensures var a := TileArea(s.surfaces[id].width, s.surfaces[id].height, tx, ty, clip);
            Step(s, ProgressiveTile(id, tx, ty, tile, clip)) ==
              if a.left < a.right && a.top < a.bottom then PutAt(s, id, TilePicture(tile, tx, ty, a), a.left, a.top) else s
  {
    hide PutAt, TileArea, TilePicture;
  }

  lemma {:induction false} TileSource(tile: seq<Rgba>, tx: nat, ty: nat, a: Area)
    requires |tile| == 4096 && tx <= a.left < a.right <= tx + 64 && ty <= a.top < a.bottom <= ty + 64
    ensures var pic := TilePicture(tile, tx, ty, a);
            && pic.data == tile && pic.w == a.right - a.left && pic.h == a.bottom - a.top
            && SourceOk(pic.data, pic.off, pic.stride, pic.w, pic.h)
  {
  }

  lemma {:induction false} TileRow(tile: seq<Rgba>, tx: nat, ty: nat, a: Area, y: nat)
    requires tx <= a.left < a.right && ty <= a.top < a.bottom && a.top <= y
    ensures var pic := TilePicture(tile, tx, ty, a);
            SourceRow(pic.off, pic.stride, y - a.top) == (y - ty) * 64 + (a.left - tx)
  {
  }

  /** SolidFill: exactly the pixels in one of the rectangles get the colour, opaque. */
  lemma {:induction false} FillLeaves(s: State, id: nat, color: Rgba, rects: seq<Area>, x: nat, y: nat)
    requires WellFormed(s) && id in s.surfaces && forall i :: 0 <= i < |rects| ==> Fits(s.surfaces[id], rects[i])
    requires x < s.surfaces[id].width && y < s.surfaces[id].height
    ensures var s' := Step(s, SolidFill(id, color, rects));
            && Kept(s, s', id) && OthersSame(s, s', id)
            && PixelOf(s'.surfaces[id], x, y) ==
                 if exists i :: 0 <= i < |rects| && Within(rects[i], x, y) then Rgba(color.r, color.g, color.b, 0xFF)
                 else PixelOf(s.surfaces[id], x, y)
  {
    FillIs(s, id, color, rects);
    hide *;
    FillAreasLeave(s, id, Rgba(color.r, color.g, color.b, 0xFF), rects, x, y);
  }

  lemma {:induction false} FillIs(s: State, id: nat, color: Rgba, rects: seq<Area>)
    requires id in s.surfaces
    ensures Step(s, SolidFill(id, color, rects)) == FillAreas(s, id, Rgba(color.r, color.g, color.b, 0xFF), rects)
  {
    hide FillAreas;
  }

  lemma {:induction false} FillAreasLeave(s: State, id: nat, c: Rgba, rects: seq<Area>, x: nat, y: nat)
    requires WellFormed(s) && id in s.surfaces && forall i :: 0 <= i < |rects| ==> Fits(s.surfaces[id], rects[i])
    requires x < s.surfaces[id].width && y < s.surfaces[id].height
    ensures var s' := FillAreas(s, id, c, rects);
            && WellFormed(s') && Kept(s, s', id) && OthersSame(s, s', id)
            && PixelOf(s'.surfaces[id], x, y) == if exists i :: 0 <= i < |rects| && Within(rects[i], x, y) then c else PixelOf(s.surfaces[id], x, y)
    decreases rects
  {
    hide *;
    FillAreasIs(s, id, c, rects);
    if rects == [] {
      SameIsKept(s, s, id);
      KeptIs(s, s, id);
    } else {
      var s1 := FillArea(s, id, c, rects[0]);
      FillAreaLeaves(s, id, c, rects[0], x, y);
      KeptIs(s, s1, id);
      FitsSame(s.surfaces[id], s1.surfaces[id], rects);
      FillAreasLeave(s1, id, c, rects[1..], x, y);
      KeptTwice(s, s1, FillAreas(s1, id, c, rects[1..]), id);
      KeptIs(s, FillAreas(s, id, c, rects), id);
      SomeCons(rects, x, y);
    }
  }

  lemma {:induction false} SomeCons(rects: seq<Area>, x: nat, y: nat)
    requires rects != []
    ensures (exists i :: 0 <= i < |rects| && Within(rects[i], x, y)) <==>
              Within(rects[0], x, y) || exists i :: 0 <= i < |rects[1..]| && Within(rects[1..][i], x, y)
  {
    hide Within;
    assert forall i :: 0 <= i < |rects[1..]| ==> rects[1..][i] == rects[i + 1];
    if i :| 0 <= i < |rects| && Within(rects[i], x, y) {
      assert i > 0 ==> Within(rects[1..][i - 1], x, y);
    }
  }

  lemma {:induction false} FitsSame(surf: Surface, surf': Surface, rects: seq<Area>)
    requires rects != [] && surf'.width == surf.width && forall i :: 0 <= i < |rects| ==> Fits(surf, rects[i])
    ensures forall i :: 0 <= i < |rects[1..]| ==> Fits(surf', rects[1..][i])
  {
  }

  lemma {:induction false} FillAreasIs(s: State, id: nat, c: Rgba, rects: seq<Area>)
    requires id in s.surfaces
    ensures FillAreas(s, id, c, rects) == if rects == [] then s else FillAreas(FillArea(s, id, c, rects[0]), id, c, rects[1..])
  {
    hide FillArea;
  }

  lemma {:induction false} FillAreaLeaves(s: State, id: nat, c: Rgba, a: Area, x: nat, y: nat)
    requires WellFormed(s) && id in s.surfaces && Fits(s.surfaces[id], a)
    requires x < s.surfaces[id].width && y < s.surfaces[id].height
    ensures var s' := FillArea(s, id, c, a);
            && WellFormed(s') && Kept(s, s', id) && OthersSame(s, s', id)
            && PixelOf(s'.surfaces[id], x, y) == if Within(a, x, y) then c else PixelOf(s.surfaces[id], x, y)
  {
    hide *;
    SizesOk(s, id);
    var surf := s.surfaces[id];
    FillAreaPaints(s, id, c, a);
    PaintLeaves(s, id, FilledData(surf, c, a), a);
    EgfxOverrun.FilledPixel(surf, c, a, x, y);
    OnRowsIsWithin(surf, a, x, y);
  }

  /** A row that does not run past the right edge fills its own columns only. */
  lemma {:induction false} OnRowsIsWithin(surf: Surface, a: Area, x: nat, y: nat)
    requires Fits(surf, a) && x < surf.width
    ensures EgfxOverrun.OnRows(surf, a, x, y) <==> Within(a, x, y)
  {
    var off, n, rows := Index(surf.width, a.left, a.top), a.right - a.left, a.bottom - a.top;
    if n > 0 && rows > 0 {
      forall r | 0 <= r < rows
        ensures EgfxOverrun.InStretch(off, surf.width, n, r, Index(surf.width, x, y)) <==> y == a.top + r && a.left <= x < a.right
      {
        EgfxPictures.WindowRow(surf.width, a.left, a.top, r);
        IndexInBand(surf.width, x, y, a.left, a.top + r, n);
      }
      hide EgfxOverrun.InStretch, Index;
      if Within(a, x, y) {
        assert EgfxOverrun.InStretch(off, surf.width, n, y - a.top, Index(surf.width, x, y));
      }
    }
  }

  /** SurfaceToCache: the entry holds the rectangle row by row, in its slot; the surfaces
      stay. */
  lemma {:induction false} SaveLeaves(s: State, id: nat, slot: nat, a: Area, victim: nat, i: nat, j: nat)
    requires WellFormed(s) && id in s.surfaces && a.left < a.right <= s.surfaces[id].width && a.top < a.bottom <= s.surfaces[id].height
    requires i < a.right - a.left && j < a.bottom - a.top
    ensures var s' := Step(s, SurfaceToCache(id, slot, a, victim));
            && s' == s.(cache := s'.cache) && slot in s'.cache
            && var e := s'.cache[slot];
               && e.width == a.right - a.left && e.height == a.bottom - a.top && |e.data| == e.width * e.height
               && 0 <= j * e.width + i < |e.data| && SurfaceOk(s.surfaces[id])
               && e.data[j * e.width + i] == PixelOf(s.surfaces[id], a.left + i, a.top + j)
  {
    hide *;
    SizesOk(s, id);
    SaveIs(s, id, slot, a, victim);
    var w, h := a.right - a.left, a.bottom - a.top;
    EgfxPictures.CutPixel(s.surfaces[id], a.left, a.top, w, h, i, j);
    RowMajor(w, i, j);
  }

  lemma {:induction false} RowMajor(w: nat, i: nat, j: nat)
    ensures Index(w, i, j) == j * w + i
  {
  }

  lemma {:induction false} SaveIs(s: State, id: nat, slot: nat, a: Area, victim: nat)
    requires id in s.surfaces && a.left < a.right && a.top < a.bottom
    ensures var s' := Step(s, SurfaceToCache(id, slot, a, victim));
            && s' == s.(cache := s'.cache) && slot in s'.cache
            && var w, h := a.right - a.left, a.bottom - a.top;
               s'.cache[slot] == CacheEntry(Cut(s.surfaces[id], a.left, a.top, w, h), w, h)
  {
    hide Cut;
  }

  /** The cache never grows past its limit, and a slot that stays keeps its entry. */
  lemma {:induction false} CacheBounded(s: State, id: nat, slot: nat, a: Area, victim: nat)
    requires |s.cache| <= 8192 && (|s.cache| == 8192 ==> victim in s.cache)
    ensures var s' := Step(s, SurfaceToCache(id, slot, a, victim));
            && |s'.cache| <= 8192
            && forall other :: other != slot && other in s'.cache ==> other in s.cache && s'.cache[other] == s.cache[other]
    ensures var s' := Step(s, SurfaceToCache(id, slot, a, victim));
            forall other :: other in s.cache && other != slot && other !in s'.cache ==> other == victim && |s.cache| == 8192 && slot !in s.cache
  {
    hide Cut;
    var s' := Step(s, SurfaceToCache(id, slot, a, victim));
    if slot !in s.cache && |s.cache| == 8192 {
      KeysWithout(s.cache, victim);
    }
    var base := if slot !in s.cache && |s.cache| >= 8192 then s.cache - {victim} else s.cache;
    if s'.cache != s.cache {
      KeysWith(base, slot, s'.cache);
    }
  }

  lemma {:induction false} KeysWithout(m: map<nat, CacheEntry>, k: nat)
    requires k in m
    ensures |m - {k}| == |m| - 1
  {
    assert (m - {k}).Keys == m.Keys - {k};
  }

  lemma {:induction false} KeysWith(m: map<nat, CacheEntry>, k: nat, m': map<nat, CacheEntry>)
    ensures k in m && m'.Keys == m.Keys + {k} ==> |m'| == |m|
    ensures k !in m && m'.Keys == m.Keys + {k} ==> |m'| == |m| + 1
  {
    if k in m {
      assert m.Keys + {k} == m.Keys;
    }
  }

  /** CreateSurface: white, of the given size; the 257th surface is refused. */
  lemma {:induction false} CreateLeaves(s: State, id: nat, w: nat, h: nat)
    ensures var s' := Step(s, CreateSurface(id, w, h));
            if id !in s.surfaces && |s.surfaces| >= 256 then s' == s
            else
              && s' == s.(surfaces := s'.surfaces) && s'.surfaces.Keys == s.surfaces.Keys + {id}
              && (forall other :: other in s.surfaces && other != id ==> s'.surfaces[other] == s.surfaces[other])
              && var surf := s'.surfaces[id];
                 surf.width == w && surf.height == h && |surf.data| == w * h && forall i :: 0 <= i < |surf.data| ==> surf.data[i] == Rgba(0xFF, 0xFF, 0xFF, 0xFF)
  {
    hide *;
    CreatedIs(s, id, w, h);
    SurfaceAdded(s.surfaces, id, Surface(w, h, Solid(w * h, WHITE)));
    WhiteIs(w * h);
  }

  lemma {:induction false} CreatedIs(s: State, id: nat, w: nat, h: nat)
    ensures Step(s, CreateSurface(id, w, h)) ==
              if id !in s.surfaces && |s.surfaces| >= 256 then s
              else s.(surfaces := s.surfaces[id := Surface(w, h, Solid(w * h, WHITE))])
  {
    hide Solid;
  }

  lemma {:induction false} SurfaceAdded(m: map<nat, Surface>, id: nat, surf: Surface)
    ensures var m' := m[id := surf];
            m'.Keys == m.Keys + {id} && m'[id] == surf && forall other :: other in m && other != id ==> m'[other] == m[other]
  {
  }

  lemma {:induction false} WhiteIs(n: nat)
    ensures |Solid(n, WHITE)| == n && forall i :: 0 <= i < n ==> Solid(n, WHITE)[i] == Rgba(0xFF, 0xFF, 0xFF, 0xFF)
  {
  }

  /** ResetGraphics: no surface is left, and the screen is black, of the given size. */
  lemma {:induction false} ResetLeaves(s: State, w: nat, h: nat)
    ensures var s' := Step(s, ResetGraphics(w, h));
            && s'.surfaces == map[] && s'.outputMap == map[] && s'.dirty == [] && !s'.inFrame && s'.cache == s.cache
            && s'.screen.width == w && s'.screen.height == h && |s'.screen.pixels| == w * h
            && forall i :: 0 <= i < |s'.screen.pixels| ==> s'.screen.pixels[i] == Rgba(0, 0, 0, 0xFF)
  {
  }

  /** MapSurfaceToOutput: from then on the surface's pixel (px, py) is shown at
      (x + px, y + py). */
  lemma {:induction false} MapPlaces(s: State, id: nat, x: nat, y: nat, px: nat, py: nat)
    requires WellFormed(s) && id in s.surfaces && !s.inFrame
    requires px < s.surfaces[id].width && py < s.surfaces[id].height && x + px < s.screen.width && y + py < s.screen.height
    ensures var s1 := Step(s, MapSurfaceToOutput(id, x, y));
            && s1 == s.(outputMap := s1.outputMap) && (forall other :: other != id ==> (other in s1.outputMap <==> other in s.outputMap))
            && (forall other :: other != id && other in s.outputMap ==> s1.outputMap[other] == s.outputMap[other])
            && WellFormed(s1)
            && var s2 := Notify(s1, id, Area(0, 0, s.surfaces[id].width, s.surfaces[id].height));
               WellFormed(s2) && s2.screen.width == s.screen.width && s2.screen.height == s.screen.height
               && SurfaceOk(s.surfaces[id]) && At(s2.screen, x + px, y + py) == PixelOf(s.surfaces[id], px, py)
  {
    hide EmitRect, At, PixelOf;
    var s1 := Step(s, MapSurfaceToOutput(id, x, y));
    EmitAt(s1, DirtyRect(id, Area(0, 0, s.surfaces[id].width, s.surfaces[id].height)), x + px, y + py);
  }

  /** DeleteSurface: the surface and its place are gone, the others stay. */
  lemma {:induction false} DeleteLeaves(s: State, id: nat)
    ensures var s' := Step(s, DeleteSurface(id));
            && s' == s.(surfaces := s'.surfaces, outputMap := s'.outputMap)
            && id !in s'.surfaces && id !in s'.outputMap
            && forall other :: other != id ==>
                 && (other in s.surfaces <==> other in s'.surfaces) && (other in s.outputMap <==> other in s'.outputMap)
                 && (other in s.surfaces ==> s'.surfaces[other] == s.surfaces[other])
                 && (other in s.outputMap ==> s'.outputMap[other] == s.outputMap[other])
  {
  }
}
