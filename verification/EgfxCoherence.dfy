/** What the screen shows: after every frame, each pixel painted in it and each pixel
    that was right before it equals its surface pixel. */
module EgfxCoherence {
  import opened Bits
  import opened Raster
  import opened Framebuffer
  import opened Egfx

  ghost predicate SurfaceOk(surf: Surface) { |surf.data| == surf.width * surf.height }

  ghost predicate WellFormed(s: State) {
    && Valid(s.screen)
    && (forall id :: id in s.surfaces ==> SurfaceOk(s.surfaces[id]))
    && (!s.inFrame ==> s.dirty == [])
  }

  function PixelOf(surf: Surface, x: nat, y: nat): Rgba
    requires SurfaceOk(surf) && x < surf.width && y < surf.height
  {
    IndexInRange(surf.width, surf.height, x, y);
    surf.data[Index(surf.width, x, y)]
  }

  /** One pixel of one surface. */
  datatype Spot = Spot(id: nat, x: nat, y: nat)

  ghost predicate Mapped(s: State, id: nat) { id in s.surfaces && id in s.outputMap }

  ghost predicate Exists(s: State, p: Spot) {
    Mapped(s, p.id) && p.x < s.surfaces[p.id].width && p.y < s.surfaces[p.id].height
  }

  ghost predicate OnScreen(s: State, p: Spot)
    requires Mapped(s, p.id)
  {
    var (ox, oy) := s.outputMap[p.id];
    0 <= ox + p.x < s.screen.width && 0 <= oy + p.y < s.screen.height
  }

  /** Shown right: the place a mapped pixel has on the screen, if any, holds its colour. */
  ghost predicate Agrees(s: State, p: Spot)
    requires WellFormed(s)
  {
    Exists(s, p) && OnScreen(s, p) ==>
      At(s.screen, s.outputMap[p.id].0 + p.x, s.outputMap[p.id].1 + p.y) == PixelOf(s.surfaces[p.id], p.x, p.y)
  }

  ghost predicate Within(a: Area, x: nat, y: nat) { a.left <= x < a.right && a.top <= y < a.bottom }

  ghost predicate Covers(drs: seq<DirtyRect>, p: Spot) {
    exists i :: 0 <= i < |drs| && drs[i].surfID == p.id && Within(drs[i].area, p.x, p.y)
  }

  // ---------- the assumptions on the layout ----------

  /** The two surfaces' places on the output do not meet. */
  ghost predicate Apart(s: State, id: nat, id': nat)
    requires Mapped(s, id) && Mapped(s, id')
  {
    var a, b := s.surfaces[id], s.surfaces[id'];
    var (x, y), (x', y') := s.outputMap[id], s.outputMap[id'];
    x + a.width <= x' || x' + b.width <= x || y + a.height <= y' || y' + b.height <= y
  }

  /** Mapped surfaces start on the screen and do not overlap there. */
  ghost predicate LayoutOk(s: State) {
    && (forall id :: Mapped(s, id) ==> s.outputMap[id].0 >= 0 && s.outputMap[id].1 >= 0)
    && (forall id, id' :: Mapped(s, id) && Mapped(s, id') && id != id' ==> Apart(s, id, id'))
  }

  /** Whatever waits to be shown belongs to a mapped surface or to none. */
  ghost predicate Showable(s: State, drs: seq<DirtyRect>) {
    forall i :: 0 <= i < |drs| && drs[i].surfID in s.surfaces ==> drs[i].surfID in s.outputMap
  }

  ghost predicate Placed(s: State) { LayoutOk(s) && Showable(s, s.dirty) }

  // ---------- showing one rectangle ----------

  /** A shown rectangle puts its surface's pixels in place and touches nothing else. */
  lemma {:induction false} EmitAt(s: State, dr: DirtyRect, x: nat, y: nat)
    requires WellFormed(s) && x < s.screen.width && y < s.screen.height
    requires dr.surfID in s.surfaces && Origin(s, dr.surfID).0 >= 0 && Origin(s, dr.surfID).1 >= 0
    ensures var surf := s.surfaces[dr.surfID];
            var a := Clamp(surf, dr.area);
            var (ox, oy) := Origin(s, dr.surfID);
            At(EmitRect(s, dr).screen, x, y) ==
              if ox <= x && oy <= y && Within(a, x - ox, y - oy) then PixelOf(surf, x - ox, y - oy) else At(s.screen, x, y)
  {
    hide WriteStridedTopDown, At, PixelOf, Index;
    var surf := s.surfaces[dr.surfID];
    var a := Clamp(surf, dr.area);
    var (ox, oy) := Origin(s, dr.surfID);
    var w, h := a.right - a.left, a.bottom - a.top;
    if w > 0 && h > 0 {
      var off := Index(surf.width, a.left, a.top);
      WindowLength(surf, a);
      WriteInPlace(s.screen, Rect(ox + a.left, oy + a.top, w, h), surf.data[off..], surf.width, x, y);
      if ox <= x && oy <= y && Within(a, x - ox, y - oy) {
        WindowPixel(surf, a, x - ox, y - oy);
      }
    }
  }

  /** A source long enough for a rectangle of h rows of w pixels. */
  ghost predicate LongEnough(n: int, stride: int, w: int, h: int) { (h - 1) * stride + w <= n }

  lemma {:induction false} WriteInPlace(s: Screen, r: Rect, src: seq<Rgba>, stride: nat, x: nat, y: nat)
    requires Valid(s) && x < s.width && y < s.height && r.x >= 0 && r.y >= 0
    requires 0 < r.w <= stride && 0 < r.h && LongEnough(|src|, stride, r.w, r.h)
    ensures if Inside(r, x, y) then
              Index(stride, x - r.x, y - r.y) < |src| &&
              At(WriteStridedTopDown(s, r, src, stride), x, y) == src[Index(stride, x - r.x, y - r.y)]
            else At(WriteStridedTopDown(s, r, src, stride), x, y) == At(s, x, y)
  {
    hide WriteStridedTopDown, At;
    WriteStridedAt(s, r, src, stride, x, y);
  }

  /** From a rectangle's first pixel on, the surface holds all its rows. */
  lemma {:induction false} WindowLength(surf: Surface, a: Area)
    requires SurfaceOk(surf) && a.left < a.right <= surf.width && a.top < a.bottom <= surf.height
    ensures Index(surf.width, a.left, a.top) <= |surf.data|
    ensures LongEnough(|surf.data| - Index(surf.width, a.left, a.top), surf.width, a.right - a.left, a.bottom - a.top)
  {
    RowFits(surf.width, surf.height, a.left, a.bottom - 1, a.right - a.left);
    assert Index(surf.width, a.left, a.bottom - 1) == Index(surf.width, a.left, a.top) + (a.bottom - 1 - a.top) * surf.width;
    MulAtLeast(a.bottom - 1 - a.top, surf.width);
  }

  lemma {:induction false} WindowPixel(surf: Surface, a: Area, x: nat, y: nat)
    requires SurfaceOk(surf) && a.right <= surf.width && a.bottom <= surf.height && Within(a, x, y)
    ensures var off, i := Index(surf.width, a.left, a.top), Index(surf.width, x - a.left, y - a.top);
            off + i < |surf.data| && surf.data[off..][i] == PixelOf(surf, x, y)
  {
    var off, i := Index(surf.width, a.left, a.top), Index(surf.width, x - a.left, y - a.top);
    IndexInRange(surf.width, surf.height, x, y);
    assert off + i == Index(surf.width, x, y);
  }

  /** The screen pixel at a spot's place. */
  function ShownAt(s: State, p: Spot): Rgba
    requires WellFormed(s) && Exists(s, p) && OnScreen(s, p)
  {
    At(s.screen, s.outputMap[p.id].0 + p.x, s.outputMap[p.id].1 + p.y)
  }

  lemma {:induction false} AgreesIs(s: State, p: Spot)
    requires WellFormed(s) && Exists(s, p) && OnScreen(s, p)
    ensures p.id in s.surfaces && SurfaceOk(s.surfaces[p.id]) && p.x < s.surfaces[p.id].width && p.y < s.surfaces[p.id].height
    ensures Agrees(s, p) <==> ShownAt(s, p) == PixelOf(s.surfaces[p.id], p.x, p.y)
  {
    hide At, PixelOf;
  }

  lemma {:induction false} EmitIff(s: State, dr: DirtyRect, p: Spot)
    requires WellFormed(s) && LayoutOk(s) && Showable(s, [dr])
    ensures WellFormed(EmitRect(s, dr))
    ensures Agrees(EmitRect(s, dr), p) <==> Agrees(s, p) || (p.id == dr.surfID && Within(dr.area, p.x, p.y))
  {
    hide *;
    EmitKeepsShape(s, dr, p);
    if Exists(s, p) && OnScreen(s, p) {
      AgreesIs(s, p);
      AgreesIs(EmitRect(s, dr), p);
      EmittedAt(s, dr, p);
    }
  }

  lemma {:induction false} EmitKeepsShape(s: State, dr: DirtyRect, p: Spot)
    requires WellFormed(s)
    ensures var s' := EmitRect(s, dr);
            && WellFormed(s') && s'.surfaces == s.surfaces && (Exists(s', p) <==> Exists(s, p)) && (Exists(s, p) ==> Mapped(s, p.id) && Mapped(s', p.id))
            && (Exists(s, p) ==> (OnScreen(s', p) <==> OnScreen(s, p)))
            && (!Exists(s, p) || !OnScreen(s, p) ==> Agrees(s, p) && Agrees(s', p))
  {
    hide EmitRect, At, PixelOf;
  }

  lemma {:induction false} EmittedAt(s: State, dr: DirtyRect, p: Spot)
    requires WellFormed(s) && LayoutOk(s) && Showable(s, [dr]) && Exists(s, p) && OnScreen(s, p)
    ensures var s' := EmitRect(s, dr);
            && WellFormed(s') && Exists(s', p) && OnScreen(s', p)
            && ShownAt(s', p) == if p.id == dr.surfID && Within(dr.area, p.x, p.y) then PixelOf(s.surfaces[p.id], p.x, p.y) else ShownAt(s, p)
  {
    assert [dr][0] == dr;
    if dr.surfID in s.surfaces {
      hide EmitRect, At, PixelOf;
      var (ox, oy) := s.outputMap[p.id];
      EmitAt(s, dr, ox + p.x, oy + p.y);
      if dr.surfID != p.id {
        assert Apart(s, dr.surfID, p.id);
      }
    }
  }

  /** Replaying rectangles puts every covered pixel right, spoils none, and helps no
      other. */
  lemma {:induction false} FlushAgrees(s: State, drs: seq<DirtyRect>, p: Spot)
    requires WellFormed(s) && LayoutOk(s) && Showable(s, drs)
    ensures Agrees(Flush(s, drs), p) <==> Agrees(s, p) || Covers(drs, p)
    decreases drs
  {
    hide EmitRect, Agrees;
    if drs != [] {
      assert [drs[0]][0] == drs[0];
      var s' := EmitRect(s, drs[0]);
      EmitIff(s, drs[0], p);
      Relaid(s, s');
      CoversCons(drs, p);
      FlushAgrees(s', drs[1..], p);
    }
  }

  lemma {:induction false} CoversCons(drs: seq<DirtyRect>, p: Spot)
    requires drs != []
    ensures Covers(drs, p) <==> (p.id == drs[0].surfID && Within(drs[0].area, p.x, p.y)) || Covers(drs[1..], p)
  {
    if Covers(drs, p) {
      var i :| 0 <= i < |drs| && drs[i].surfID == p.id && Within(drs[i].area, p.x, p.y);
      assert i > 0 ==> drs[1..][i - 1] == drs[i];
    }
    if Covers(drs[1..], p) {
      var i :| 0 <= i < |drs[1..]| && drs[1..][i].surfID == p.id && Within(drs[1..][i].area, p.x, p.y);
      assert drs[i + 1] == drs[1..][i];
    }
  }

  // ---------- painting ----------

  /** Every tracked pixel is right or waiting to be shown. */
  ghost predicate Inv(s: State, tracked: iset<Spot>) {
    && WellFormed(s) && Placed(s)
    && forall p :: p in tracked ==> Agrees(s, p) || Covers(s.dirty, p)
  }

  ghost function Spots(id: nat, a: Area): iset<Spot> { iset p: Spot | p.id == id && Within(a, p.x, p.y) }

  /** data differs from the surface's pixels inside the area only. */
  ghost predicate OnlyInside(surf: Surface, data: seq<Rgba>, a: Area)
    requires SurfaceOk(surf)
  {
    |data| == |surf.data| &&
    forall x: nat, y: nat :: x < surf.width && y < surf.height && !Within(a, x, y) ==>
      PixelOf(surf.(data := data), x, y) == PixelOf(surf, x, y)
  }

  lemma {:induction false} PaintedSpot(s: State, id: nat, data: seq<Rgba>, a: Area, p: Spot)
    requires WellFormed(s) && Mapped(s, id) && OnlyInside(s.surfaces[id], data, a)
    ensures WellFormed(Repaint(s, id, data))
    ensures Agrees(s, p) ==> Agrees(Repaint(s, id, data), p) || (p.id == id && Within(a, p.x, p.y))
  {
    hide PixelOf, At;
  }

  lemma {:induction false} PaintKeeps(s: State, id: nat, data: seq<Rgba>, a: Area, tracked: iset<Spot>)
    requires Inv(s, tracked) && Mapped(s, id) && OnlyInside(s.surfaces[id], data, a)
    ensures Inv(Paint(s, id, data, a), tracked + Spots(id, a))
  {
    var s1, dr := Repaint(s, id, data), DirtyRect(id, a);
    Relaid(s, s1);
    var s2 := Paint(s, id, data, a);
    PaintedSpot(s, id, data, a, Spot(id, 0, 0));
    hide OnlyInside, Agrees, EmitRect;
    assert Placed(s2) by {
      Relaid(s1, s2);
      ShowableMore(s1, s.dirty, dr);
    }
    forall p | p in tracked + Spots(id, a) ensures Agrees(s2, p) || Covers(s2.dirty, p) {
      PaintedSpot(s, id, data, a, p);
      if s.inFrame {
        CoversMore(s.dirty, dr, p);
        SameAgree(s1, s2, p);
      } else {
        assert [dr][0] == dr;
        EmitIff(s1, dr, p);
      }
    }
  }

  lemma {:induction false} ShowableMore(s: State, drs: seq<DirtyRect>, dr: DirtyRect)
    requires Showable(s, drs) && (dr.surfID in s.surfaces ==> dr.surfID in s.outputMap)
    ensures Showable(s, drs + [dr])
  {
  }

  /** The layout depends on sizes and origins only. */
  lemma {:induction false} Relaid(s: State, s1: State)
    requires LayoutOk(s) && s1.outputMap == s.outputMap && s1.surfaces.Keys == s.surfaces.Keys
    requires forall id :: id in s.surfaces ==> s1.surfaces[id].width == s.surfaces[id].width && s1.surfaces[id].height == s.surfaces[id].height
    ensures LayoutOk(s1)
    ensures forall drs :: Showable(s, drs) ==> Showable(s1, drs)
  {
    assert forall id :: Mapped(s1, id) ==> Mapped(s, id);
    forall id, id' | Mapped(s1, id) && Mapped(s1, id') && id != id' ensures Apart(s1, id, id') {
      assert Apart(s, id, id');
    }
  }

  lemma {:induction false} CoversMore(drs: seq<DirtyRect>, dr: DirtyRect, p: Spot)
    ensures Covers(drs, p) || (dr.surfID == p.id && Within(dr.area, p.x, p.y)) ==> Covers(drs + [dr], p)
  {
    if Covers(drs, p) {
      var i :| 0 <= i < |drs| && drs[i].surfID == p.id && Within(drs[i].area, p.x, p.y);
      assert (drs + [dr])[i] == drs[i];
    } else {
      assert (drs + [dr])[|drs|] == dr;
    }
  }

  // ---------- the painting commands ----------

  /** No row of the area runs past the surface's right edge. */
  ghost predicate Fits(surf: Surface, a: Area) {
    a.right <= a.left || a.bottom <= a.top || a.right <= surf.width
  }

  lemma {:induction false} FillNothing(data: seq<Rgba>, off: nat, stride: nat, n: nat, rows: nat, c: Rgba)
    requires n == 0 || rows == 0
    ensures FillRows(data, off, stride, n, rows, c) == data
    decreases rows
  {
    if rows > 0 {
      FillNothing(data, off + stride, stride, n, rows - 1, c);
    }
  }

  lemma {:induction false} FillInside(surf: Surface, c: Rgba, a: Area)
    requires SurfaceOk(surf) && Fits(surf, a)
    ensures OnlyInside(surf, FilledData(surf, c, a), a)
  {
    var data, n, rows := FilledData(surf, c, a), a.right - a.left, a.bottom - a.top;
    if n < 0 || rows < 0 {
      assert surf.(data := data) == surf;
    } else if n == 0 || rows == 0 {
      FillNothing(surf.data, Index(surf.width, a.left, a.top), surf.width, n, rows, c);
      assert surf.(data := data) == surf;
    } else {
      forall x: nat, y: nat | x < surf.width && y < surf.height && !Within(a, x, y)
        ensures PixelOf(surf.(data := data), x, y) == PixelOf(surf, x, y)
      {
        FillRowsAt(surf.data, surf.width, surf.height, a.left, a.top, n, rows, c, x, y);
      }
    }
  }

  lemma {:induction false} FillAreaKeeps(s: State, id: nat, c: Rgba, a: Area, tracked: iset<Spot>)
    requires Inv(s, tracked) && Mapped(s, id) && Fits(s.surfaces[id], a)
    ensures Inv(FillArea(s, id, c, a), tracked + Spots(id, a))
  {
    hide *;
    Sized(s, tracked, id);
    FillInside(s.surfaces[id], c, a);
    FillAreaPaints(s, id, c, a);
    PaintKeeps(s, id, FilledData(s.surfaces[id], c, a), a, tracked);
  }

  /** What a filled area leaves of a surface. */
  function FilledData(surf: Surface, c: Rgba, a: Area): (d: seq<Rgba>)
    ensures |d| == |surf.data|
  {
    if a.right < a.left || a.bottom < a.top then surf.data
    else FillRows(surf.data, Index(surf.width, a.left, a.top), surf.width, a.right - a.left, a.bottom - a.top, c)
  }

  lemma {:induction false} FillAreaPaints(s: State, id: nat, c: Rgba, a: Area)
    requires id in s.surfaces
    ensures FillArea(s, id, c, a) == Paint(s, id, FilledData(s.surfaces[id], c, a), a)
  {
    hide FillRows, Notify;
    var surf := s.surfaces[id];
    assert surf.(data := surf.data) == surf && s.surfaces[id := surf] == s.surfaces;
  }

  ghost predicate Hit(id: nat, rects: seq<Area>, p: Spot) {
    exists i :: 0 <= i < |rects| && p in Spots(id, rects[i])
  }

  ghost function AreaSpots(id: nat, rects: seq<Area>): iset<Spot> { iset p: Spot | Hit(id, rects, p) }

  lemma {:induction false} AreaSpotsCons(id: nat, rects: seq<Area>)
    requires rects != []
    ensures AreaSpots(id, rects) == Spots(id, rects[0]) + AreaSpots(id, rects[1..])
  {
    hide Spots;
    forall p: Spot ensures p in AreaSpots(id, rects) <==> p in Spots(id, rects[0]) + AreaSpots(id, rects[1..]) {
      if p in AreaSpots(id, rects) {
        var i :| 0 <= i < |rects| && p in Spots(id, rects[i]);
        assert i > 0 ==> rects[i] == rects[1..][i - 1];
      }
      if p in AreaSpots(id, rects[1..]) {
        var i :| 0 <= i < |rects[1..]| && p in Spots(id, rects[1..][i]);
        assert rects[1..][i] == rects[i + 1];
      }
    }
  }

  lemma {:induction false} FillAreasKeep(s: State, id: nat, c: Rgba, rects: seq<Area>, tracked: iset<Spot>)
    requires Inv(s, tracked) && Mapped(s, id)
    requires forall i :: 0 <= i < |rects| ==> Fits(s.surfaces[id], rects[i])
    ensures Inv(FillAreas(s, id, c, rects), tracked + AreaSpots(id, rects))
    decreases rects
  {
    if rects == [] {
      assert tracked + AreaSpots(id, rects) == tracked;
    } else {
      var s1 := FillArea(s, id, c, rects[0]);
      FillAreaKeeps(s, id, c, rects[0], tracked);
      AreaSpotsCons(id, rects);
      SameSizes(s, id, c, rects[0]);
      hide Inv, FillArea, AreaSpots, Spots;
      FillAreasKeep(s1, id, c, rects[1..], tracked + Spots(id, rects[0]));
      assert tracked + Spots(id, rects[0]) + AreaSpots(id, rects[1..]) == tracked + AreaSpots(id, rects);
    }
  }

  lemma {:induction false} SameSizes(s: State, id: nat, c: Rgba, a: Area)
    requires Mapped(s, id)
    ensures var s1 := FillArea(s, id, c, a);
            Mapped(s1, id) && forall b :: Fits(s.surfaces[id], b) ==> Fits(s1.surfaces[id], b)
  {
    hide FillRows, EmitRect;
  }

  /** Where a picture lands. */
  function Landing(w: nat, h: nat, pt: (nat, nat)): Area { Area(pt.0, pt.1, pt.0 + w, pt.1 + h) }

  lemma {:induction false} CopyInside(surf: Surface, pic: Picture, x: nat, y: nat)
    requires SurfaceOk(surf) && x + pic.w <= surf.width
    ensures OnlyInside(surf, PutData(surf, pic, x, y), Landing(pic.w, pic.h, (x, y)))
  {
    var a := Landing(pic.w, pic.h, (x, y));
    var data := PutData(surf, pic, x, y);
    forall x': nat, y': nat | x' < surf.width && y' < surf.height && !Within(a, x', y')
      ensures PixelOf(surf.(data := data), x', y') == PixelOf(surf, x', y')
    {
      CopyRowsOutside(surf.data, surf.width, surf.height, x, y, pic.data, pic.off, pic.stride, pic.w, pic.h, x', y');
    }
  }

  lemma {:induction false} PutAtKeeps(s: State, id: nat, pic: Picture, x: nat, y: nat, tracked: iset<Spot>)
    requires Inv(s, tracked) && Mapped(s, id) && x + pic.w <= s.surfaces[id].width
    ensures Inv(PutAt(s, id, pic, x, y), tracked + Spots(id, Landing(pic.w, pic.h, (x, y))))
  {
    hide *;
    Sized(s, tracked, id);
    CopyInside(s.surfaces[id], pic, x, y);
    PutAtPaints(s, id, pic, x, y);
    PaintKeeps(s, id, PutData(s.surfaces[id], pic, x, y), Landing(pic.w, pic.h, (x, y)), tracked);
  }

  lemma {:induction false} Sized(s: State, tracked: iset<Spot>, id: nat)
    requires Inv(s, tracked) && Mapped(s, id)
    ensures id in s.surfaces && SurfaceOk(s.surfaces[id])
  {
  }

  /** What a copied picture leaves of a surface. */
  function PutData(surf: Surface, pic: Picture, x: nat, y: nat): (d: seq<Rgba>)
    ensures |d| == |surf.data|
  {
    CopyRows(surf.data, Index(surf.width, x, y), surf.width, pic.data, pic.off, pic.stride, pic.w, pic.h)
  }

  lemma {:induction false} PutAtPaints(s: State, id: nat, pic: Picture, x: nat, y: nat)
    requires id in s.surfaces
    ensures PutAt(s, id, pic, x, y) == Paint(s, id, PutData(s.surfaces[id], pic, x, y), Landing(pic.w, pic.h, (x, y)))
  {
    hide CopyRows, Notify;
  }

  function Landings(w: nat, h: nat, points: seq<(nat, nat)>): (r: seq<Area>)
    ensures |r| == |points|
  {
    seq(|points|, i requires 0 <= i < |points| => Landing(w, h, points[i]))
  }

  lemma {:induction false} PutAllKeeps(s: State, id: nat, pic: Picture, points: seq<(nat, nat)>, tracked: iset<Spot>)
    requires Inv(s, tracked) && Mapped(s, id)
    requires forall i :: 0 <= i < |points| ==> points[i].0 + pic.w <= s.surfaces[id].width
    ensures Inv(PutAll(s, id, pic, points), tracked + AreaSpots(id, Landings(pic.w, pic.h, points)))
    decreases points
  {
    var rects := Landings(pic.w, pic.h, points);
    if points == [] {
      assert tracked + AreaSpots(id, rects) == tracked;
    } else {
      var s1 := PutAt(s, id, pic, points[0].0, points[0].1);
      PutAtKeeps(s, id, pic, points[0].0, points[0].1, tracked);
      AreaSpotsCons(id, rects);
      assert rects[1..] == Landings(pic.w, pic.h, points[1..]);
      assert Mapped(s1, id) && s1.surfaces[id].width == s.surfaces[id].width;
      hide Inv, PutAt, AreaSpots, Spots, Landings;
      PutAllKeeps(s1, id, pic, points[1..], tracked + Spots(id, rects[0]));
      assert tracked + Spots(id, rects[0]) + AreaSpots(id, rects[1..]) == tracked + AreaSpots(id, rects);
    }
  }

  lemma {:induction false} TileKeeps(s: State, id: nat, tileX: nat, tileY: nat, tile: seq<Rgba>, clip: Area, tracked: iset<Spot>)
    requires Inv(s, tracked) && Mapped(s, id)
    ensures Inv(BlitTile(s, id, tileX, tileY, tile, clip), tracked + TileSpots(s, id, tileX, tileY, clip))
  {
    var a := TileArea(s.surfaces[id].width, s.surfaces[id].height, tileX, tileY, clip);
    if a.right <= a.left || a.bottom <= a.top {
      assert tracked + iset{} == tracked;
    } else {
      var pic := TilePicture(tile, tileX, tileY, a);
      assert Landing(pic.w, pic.h, (a.left, a.top)) == a;
      assert a.left + pic.w <= s.surfaces[id].width;
      hide Inv, Spots, TilePicture, TileArea, PutAt;
      PutAtKeeps(s, id, pic, a.left, a.top, tracked);
    }
  }

  ghost function TileSpots(s: State, id: nat, tileX: nat, tileY: nat, clip: Area): iset<Spot>
    requires id in s.surfaces
  {
    var a := TileArea(s.surfaces[id].width, s.surfaces[id].height, tileX, tileY, clip);
    if a.right <= a.left || a.bottom <= a.top then iset{} else Spots(id, a)
  }

  // ---------- whole runs ----------

  /** What a command demands: surfaces it paints are mapped and wide enough, a frame is
      not opened inside a frame, and the layout stays good. */
  ghost predicate Legal(s: State, c: Command) {
    && Placed(Step(s, c))
    && match c
       case StartFrame => !s.inFrame
       case SolidFill(id, _, rects) =>
         id in s.surfaces ==> Mapped(s, id) && forall i :: 0 <= i < |rects| ==> Fits(s.surfaces[id], rects[i])
       case SurfaceToSurface(src, dst, a, points) =>
         src in s.surfaces && dst in s.surfaces && a.left < a.right && a.top < a.bottom ==>
           Mapped(s, dst) && forall i :: 0 <= i < |points| ==> points[i].0 + (a.right - a.left) <= s.surfaces[dst].width
       case CacheToSurface(slot, id, points) =>
         slot in s.cache && id in s.surfaces ==>
           Mapped(s, id) && forall i :: 0 <= i < |points| ==> points[i].0 + s.cache[slot].width <= s.surfaces[id].width
       case WireToSurface(id, a, _) => id in s.surfaces ==> Mapped(s, id) && Fits(s.surfaces[id], a)
       case ProgressiveTile(id, _, _, _, _) => id in s.surfaces ==> Mapped(s, id)
       case _ => true
  }

  /** The pixels a command paints. */
  ghost function Painted(s: State, c: Command): iset<Spot> {
    match c
    case SolidFill(id, _, rects) => if id in s.surfaces then AreaSpots(id, rects) else iset{}
    case SurfaceToSurface(src, dst, a, points) =>
      if src in s.surfaces && dst in s.surfaces && a.left < a.right && a.top < a.bottom then
        AreaSpots(dst, Landings(a.right - a.left, a.bottom - a.top, points))
      else iset{}
    case CacheToSurface(slot, id, points) =>
      if slot in s.cache && id in s.surfaces then AreaSpots(id, Landings(s.cache[slot].width, s.cache[slot].height, points))
      else iset{}
    case WireToSurface(id, a, pixels) =>
      if id in s.surfaces && a.left < a.right && a.top < a.bottom && |pixels| >= (a.right - a.left) * (a.bottom - a.top) then Spots(id, a)
      else iset{}
    case ProgressiveTile(id, x, y, _, clip) => if id in s.surfaces then TileSpots(s, id, x, y, clip) else iset{}
    case _ => iset{}
  }

  /** The command neither makes, removes nor moves the pixel's surface. */
  ghost predicate Undisturbed(c: Command, p: Spot) {
    match c
    case CreateSurface(id, _, _) => p.id != id
    case DeleteSurface(id) => p.id != id
    case MapSurfaceToOutput(id, _, _) => p.id != id
    case ResetGraphics(_, _) => false
    case _ => true
  }

  ghost function Remaining(c: Command, tracked: iset<Spot>): iset<Spot> { iset p: Spot | p in tracked && Undisturbed(c, p) }

  ghost function Track(s: State, c: Command, tracked: iset<Spot>): iset<Spot> {
    Remaining(c, tracked) + Painted(s, c)
  }

  lemma {:induction false} PaintingKeeps(s: State, c: Command, tracked: iset<Spot>)
    requires Inv(s, tracked) && Legal(s, c)
    requires c.SolidFill? || c.SurfaceToSurface? || c.CacheToSurface? || c.WireToSurface? || c.ProgressiveTile?
    ensures Inv(Step(s, c), tracked + Painted(s, c))
  {
    hide *;
    match c
    case SolidFill(_, _, _) => FillKeeps(s, c, tracked);
    case SurfaceToSurface(_, _, _, _) => BlitKeeps(s, c, tracked);
    case CacheToSurface(_, _, _) => RestoreKeeps(s, c, tracked);
    case WireToSurface(_, _, _) => ReceiveKeeps(s, c, tracked);
    case ProgressiveTile(_, _, _, _, _) => TilingKeeps(s, c, tracked);
  }

  lemma {:induction false} FillKeeps(s: State, c: Command, tracked: iset<Spot>)
    requires Inv(s, tracked) && Legal(s, c) && c.SolidFill?
    ensures Inv(Step(s, c), tracked + Painted(s, c))
  {
    hide Inv, FillAreas, AreaSpots, Placed;
    assert tracked + iset{} == tracked;
    if c.id in s.surfaces { FillAreasKeep(s, c.id, c.color.(a := 0xFF), c.rects, tracked); }
  }

  lemma {:induction false} BlitKeeps(s: State, c: Command, tracked: iset<Spot>)
    requires Inv(s, tracked) && Legal(s, c) && c.SurfaceToSurface?
    ensures Inv(Step(s, c), tracked + Painted(s, c))
  {
    hide Inv, PutAll, AreaSpots, Landings, Placed, Cut;
    assert tracked + iset{} == tracked;
    var a := c.area;
    if c.src in s.surfaces && c.dst in s.surfaces && a.left < a.right && a.top < a.bottom {
      PutAllKeeps(s, c.dst, BlitSource(s, c.src, c.dst, a.left, a.top, a.right - a.left, a.bottom - a.top), c.points, tracked);
    }
  }

  lemma {:induction false} RestoreKeeps(s: State, c: Command, tracked: iset<Spot>)
    requires Inv(s, tracked) && Legal(s, c) && c.CacheToSurface?
    ensures Inv(Step(s, c), tracked + Painted(s, c))
  {
    hide Inv, PutAll, AreaSpots, Landings, Placed;
    assert tracked + iset{} == tracked;
    if c.slot in s.cache && c.id in s.surfaces {
      var e := s.cache[c.slot];
      PutAllKeeps(s, c.id, Picture(e.data, 0, e.width, e.width, e.height), c.points, tracked);
    }
  }

  lemma {:induction false} ReceiveKeeps(s: State, c: Command, tracked: iset<Spot>)
    requires Inv(s, tracked) && Legal(s, c) && c.WireToSurface?
    ensures Inv(Step(s, c), tracked + Painted(s, c))
  {
    hide Inv, PutAt, Spots, Placed;
    assert tracked + iset{} == tracked;
    var a := c.area;
    if c.id in s.surfaces && a.left < a.right && a.top < a.bottom {
      var w, h := a.right - a.left, a.bottom - a.top;
      if |c.pixels| >= w * h {
        PutAtKeeps(s, c.id, Picture(c.pixels, 0, w, w, h), a.left, a.top, tracked);
        assert Landing(w, h, (a.left, a.top)) == a;
      }
    }
  }

  lemma {:induction false} TilingKeeps(s: State, c: Command, tracked: iset<Spot>)
    requires Inv(s, tracked) && Legal(s, c) && c.ProgressiveTile?
    ensures Inv(Step(s, c), tracked + Painted(s, c))
  {
    hide Inv, BlitTile, TileSpots, Placed;
    assert tracked + iset{} == tracked;
    if c.id in s.surfaces { TileKeeps(s, c.id, c.tileX, c.tileY, c.tile, c.clip, tracked); }
  }

  lemma {:induction false} EndFrameKeeps(s: State, tracked: iset<Spot>)
    requires Inv(s, tracked)
    ensures Inv(Step(s, EndFrame), tracked)
  {
    var s0 := s.(inFrame := false, dirty := []);
    var s' := Step(s, EndFrame);
    FlushIgnores(s.(inFrame := false), s0, s.dirty);
    Relaid(s, s');
    forall p | p in tracked ensures Agrees(s', p) {
      SameAgree(s, s0, p);
      Relaid(s, s0);
      FlushAgrees(s0, s.dirty, p);
      SameAgree(Flush(s0, s.dirty), s', p);
    }
  }

  lemma {:induction false} SameAgree(s: State, s': State, p: Spot)
    requires WellFormed(s) && WellFormed(s') && s'.surfaces == s.surfaces && s'.outputMap == s.outputMap && s'.screen == s.screen
    ensures Agrees(s, p) <==> Agrees(s', p)
  {
  }

  /** Showing reads neither the frame flag nor the recorded rectangles. */
  lemma {:induction false} FlushIgnores(s: State, s0: State, drs: seq<DirtyRect>)
    requires s0.surfaces == s.surfaces && s0.outputMap == s.outputMap && s0.screen == s.screen
    ensures Flush(s, drs).screen == Flush(s0, drs).screen
    decreases drs
  {
    if drs != [] {
      hide WriteStridedTopDown;
      assert EmitRect(s, drs[0]).screen == EmitRect(s0, drs[0]).screen;
      hide EmitRect;
      FlushIgnores(EmitRect(s, drs[0]), EmitRect(s0, drs[0]), drs[1..]);
    }
  }

  predicate LayoutCommand(c: Command) {
    c.CreateSurface? || c.DeleteSurface? || c.MapSurfaceToOutput? || c.ResetGraphics? || c.StartFrame? || c.SurfaceToCache? || c.EvictCacheEntry?
  }

  lemma {:induction false} LayoutWellFormed(s: State, c: Command)
    requires WellFormed(s) && LayoutCommand(c)
    ensures WellFormed(Step(s, c))
  {
    hide Cut;
  }

  lemma {:induction false} LayoutSpot(s: State, c: Command, p: Spot)
    requires WellFormed(s) && WellFormed(Step(s, c)) && LayoutCommand(c) && Undisturbed(c, p)
    requires (Agrees(s, p) || Covers(s.dirty, p)) && (c.StartFrame? ==> !s.inFrame)
    ensures Agrees(Step(s, c), p) || Covers(Step(s, c).dirty, p)
  {
    hide At, PixelOf, Cut;
  }

  lemma {:induction false} LayoutStepKeeps(s: State, c: Command, tracked: iset<Spot>)
    requires Inv(s, tracked) && Legal(s, c) && LayoutCommand(c)
    ensures Inv(Step(s, c), Remaining(c, tracked))
  {
    var s' := Step(s, c);
    LayoutWellFormed(s, c);
    hide Agrees, Covers, Step, LayoutOk;
    forall p | p in Remaining(c, tracked) ensures Agrees(s', p) || Covers(s'.dirty, p) {
      LayoutSpot(s, c, p);
    }
  }

  lemma {:induction false} StepKeeps(s: State, c: Command, tracked: iset<Spot>)
    requires Inv(s, tracked) && Legal(s, c)
    ensures Inv(Step(s, c), Track(s, c, tracked))
  {
    hide Inv, Legal, Step;
    if c.SolidFill? || c.SurfaceToSurface? || c.CacheToSurface? || c.WireToSurface? || c.ProgressiveTile? {
      PaintingKeeps(s, c, tracked);
      assert Remaining(c, tracked) == tracked;
    } else if c.EndFrame? {
      EndFrameKeeps(s, tracked);
      assert Remaining(c, tracked) == tracked && tracked + iset{} == tracked;
    } else {
      LayoutStepKeeps(s, c, tracked);
      assert Remaining(c, tracked) + iset{} == Remaining(c, tracked);
    }
  }

  ghost predicate LegalRun(s: State, cs: seq<Command>)
    decreases cs
  {
    cs == [] || (Legal(s, cs[0]) && LegalRun(Step(s, cs[0]), cs[1..]))
  }

  ghost function TrackRun(s: State, cs: seq<Command>, tracked: iset<Spot>): iset<Spot>
    decreases cs
  {
    if cs == [] then tracked else TrackRun(Step(s, cs[0]), cs[1..], Track(s, cs[0], tracked))
  }

  /** Display coherence: through any legal run, every pixel that was shown right at the
      start or painted since, and whose surface was not remade or moved, is shown right
      whenever no frame is open. */
  lemma {:induction false} Coherence(s: State, cs: seq<Command>, tracked: iset<Spot>)
    requires Inv(s, tracked) && LegalRun(s, cs)
    ensures var s' := Run(s, cs);
            && Inv(s', TrackRun(s, cs, tracked))
            && (!s'.inFrame ==> forall p :: p in TrackRun(s, cs, tracked) ==> Agrees(s', p))
    decreases cs
  {
    if cs != [] {
      hide Legal, Step, Inv, Track;
      StepKeeps(s, cs[0], tracked);
      Coherence(Step(s, cs[0]), cs[1..], Track(s, cs[0], tracked));
    }
  }
}
