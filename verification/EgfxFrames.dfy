/** Whole frames: any drawing, also past the surfaces' edges, and the replay of the
    announced rectangles at the end. */
module EgfxFrames {
  import opened Raster
  import opened Framebuffer
  import opened Egfx
  import opened EgfxCoherence

  // ---------- drawing in an open frame ----------

  /** Commands that draw, or use the cache. */
  predicate Draws(c: Command) {
    c.SolidFill? || c.SurfaceToSurface? || c.CacheToSurface? || c.WireToSurface? || c.ProgressiveTile? || c.SurfaceToCache? || c.EvictCacheEntry?
  }

  function Announcement(id: nat, rects: seq<Area>): (drs: seq<DirtyRect>)
    ensures |drs| == |rects|
  {
    seq(|rects|, i requires 0 <= i < |rects| => DirtyRect(id, rects[i]))
  }

  /** The rectangles that a command announces, wherever they lie. */
  function Announced(s: State, c: Command): seq<DirtyRect> {
    match c
    case SolidFill(id, _, rects) => if id in s.surfaces then Announcement(id, rects) else []
    case SurfaceToSurface(src, dst, a, points) =>
      if src in s.surfaces && dst in s.surfaces && a.left < a.right && a.top < a.bottom then
        Announcement(dst, Landings(a.right - a.left, a.bottom - a.top, points))
      else []
    case CacheToSurface(slot, id, points) =>
      if slot in s.cache && id in s.surfaces then Announcement(id, Landings(s.cache[slot].width, s.cache[slot].height, points)) else []
    case WireToSurface(id, a, pixels) =>
      if id in s.surfaces && a.left < a.right && a.top < a.bottom && |pixels| >= (a.right - a.left) * (a.bottom - a.top) then [DirtyRect(id, a)]
      else []
    case ProgressiveTile(id, x, y, _, clip) =>
      if id in s.surfaces then
        var a := TileArea(s.surfaces[id].width, s.surfaces[id].height, x, y, clip);
        if a.left < a.right && a.top < a.bottom then [DirtyRect(id, a)] else []
      else []
    case _ => []
  }

  function AnnouncedAll(s: State, cs: seq<Command>): seq<DirtyRect>
    decreases cs
  {
    if cs == [] then [] else Announced(s, cs[0]) + AnnouncedAll(Step(s, cs[0]), cs[1..])
  }

  /** s' is s with surfaces repainted and rectangles announced. */
  ghost predicate Drawn(s: State, s': State, drs: seq<DirtyRect>) {
    && s'.inFrame && s'.screen == s.screen && s'.outputMap == s.outputMap && s'.surfaces.Keys == s.surfaces.Keys
    && (forall id :: id in s.surfaces ==> SameSize(s.surfaces[id], s'.surfaces[id]))
    && s'.dirty == s.dirty + drs
  }

  predicate SameSize(a: Surface, b: Surface) { a.width == b.width && a.height == b.height && |a.data| == |b.data| }

  lemma {:induction false} DrawnNothing(s: State, s': State)
    requires s.inFrame && s' == s.(cache := s'.cache)
    ensures Drawn(s, s', [])
  {
    assert s.dirty + [] == s.dirty;
  }

  lemma {:induction false} DrawnTwice(s: State, s1: State, s2: State, a: seq<DirtyRect>, b: seq<DirtyRect>)
    requires Drawn(s, s1, a) && Drawn(s1, s2, b)
    ensures Drawn(s, s2, a + b)
  {
    assert s.dirty + (a + b) == s.dirty + a + b;
    assert forall id :: id in s.surfaces ==> id in s1.surfaces;
  }

  lemma {:induction false} PaintDraws(s: State, id: nat, data: seq<Rgba>, a: Area)
    requires s.inFrame && id in s.surfaces && |data| == |s.surfaces[id].data|
    ensures Drawn(s, Paint(s, id, data, a), [DirtyRect(id, a)])
  {
  }

  lemma {:induction false} AnnouncementCons(id: nat, rects: seq<Area>)
    requires rects != []
    ensures Announcement(id, rects) == [DirtyRect(id, rects[0])] + Announcement(id, rects[1..])
  {
  }

  lemma {:induction false} FillAreasDraw(s: State, id: nat, c: Rgba, rects: seq<Area>)
    requires s.inFrame && id in s.surfaces
    ensures Drawn(s, FillAreas(s, id, c, rects), Announcement(id, rects))
    decreases rects
  {
    hide FillArea, Drawn;
    if rects == [] {
      DrawnNothing(s, s);
    } else {
      var s1 := FillArea(s, id, c, rects[0]);
      FillAreaPaints(s, id, c, rects[0]);
      PaintDraws(s, id, FilledData(s.surfaces[id], c, rects[0]), rects[0]);
      DrawnIs(s, s1, [DirtyRect(id, rects[0])]);
      FillAreasDraw(s1, id, c, rects[1..]);
      AnnouncementCons(id, rects);
      DrawnTwice(s, s1, FillAreas(s1, id, c, rects[1..]), [DirtyRect(id, rects[0])], Announcement(id, rects[1..]));
    }
  }

  lemma {:induction false} DrawnIs(s: State, s': State, drs: seq<DirtyRect>)
    requires Drawn(s, s', drs)
    ensures s'.inFrame && s'.surfaces.Keys == s.surfaces.Keys
  {
    hide SameSize;
  }

  lemma {:induction false} PutAllDraws(s: State, id: nat, pic: Picture, points: seq<(nat, nat)>)
    requires s.inFrame && id in s.surfaces
    ensures Drawn(s, PutAll(s, id, pic, points), Announcement(id, Landings(pic.w, pic.h, points)))
    decreases points
  {
    hide PutAt, Drawn;
    var rects := Landings(pic.w, pic.h, points);
    if points == [] {
      DrawnNothing(s, s);
    } else {
      var (x, y) := points[0];
      var s1 := PutAt(s, id, pic, x, y);
      PutDraws(s, id, pic, x, y);
      DrawnIs(s, s1, [DirtyRect(id, rects[0])]);
      PutAllDraws(s1, id, pic, points[1..]);
      assert rects[1..] == Landings(pic.w, pic.h, points[1..]);
      AnnouncementCons(id, rects);
      DrawnTwice(s, s1, PutAll(s1, id, pic, points[1..]), [DirtyRect(id, rects[0])], Announcement(id, rects[1..]));
    }
  }

  lemma {:induction false} PutDraws(s: State, id: nat, pic: Picture, x: nat, y: nat)
    requires s.inFrame && id in s.surfaces
    ensures Drawn(s, PutAt(s, id, pic, x, y), [DirtyRect(id, Landing(pic.w, pic.h, (x, y)))])
  {
    hide *;
    PutAtPaints(s, id, pic, x, y);
    PaintDraws(s, id, PutData(s.surfaces[id], pic, x, y), Landing(pic.w, pic.h, (x, y)));
  }

  /** A command in an open frame repaints surfaces and announces its rectangles. */
  lemma {:induction false} StepDraws(s: State, c: Command)
    requires s.inFrame && Draws(c)
    ensures Drawn(s, Step(s, c), Announced(s, c))
  {
    hide FillAreas, PutAll, PutAt, Cut, Drawn, Announcement, Landings, TileArea, TilePicture, Stored;
    match c
    case SolidFill(id, color, rects) =>
      if id in s.surfaces { FillAreasDraw(s, id, color.(a := 0xFF), rects); } else { DrawnNothing(s, s); }
    case SurfaceToSurface(src, dst, a, points) =>
      if src in s.surfaces && dst in s.surfaces && a.left < a.right && a.top < a.bottom {
        PutAllDraws(s, dst, BlitSource(s, src, dst, a.left, a.top, a.right - a.left, a.bottom - a.top), points);
      } else { DrawnNothing(s, s); }
    case CacheToSurface(slot, id, points) =>
      if slot in s.cache && id in s.surfaces {
        var e := s.cache[slot];
        PutAllDraws(s, id, Picture(e.data, 0, e.width, e.width, e.height), points);
      } else { DrawnNothing(s, s); }
    case WireToSurface(id, a, pixels) => ReceiveDraws(s, id, a, pixels);
    case ProgressiveTile(id, x, y, tile, clip) => TileDraws(s, id, x, y, tile, clip);
    case SurfaceToCache(_, _, _, _) => DrawnNothing(s, Step(s, c));
    case EvictCacheEntry(_) => DrawnNothing(s, Step(s, c));
  }

  lemma {:induction false} ReceiveDraws(s: State, id: nat, a: Area, pixels: seq<Rgba>)
    requires s.inFrame
    ensures Drawn(s, Received(s, id, a, pixels), Announced(s, WireToSurface(id, a, pixels)))
  {
    hide PutAt, Drawn;
    DrawnNothing(s, s);
    if id in s.surfaces && a.left < a.right && a.top < a.bottom {
      var w, h := a.right - a.left, a.bottom - a.top;
      PutDraws(s, id, Picture(pixels, 0, w, w, h), a.left, a.top);
      assert Landing(w, h, (a.left, a.top)) == a;
    }
  }

  lemma {:induction false} TileDraws(s: State, id: nat, x: nat, y: nat, tile: seq<Rgba>, clip: Area)
    requires s.inFrame
    ensures Drawn(s, Tiled(s, id, x, y, tile, clip), Announced(s, ProgressiveTile(id, x, y, tile, clip)))
  {
    hide PutAt, Drawn, TileArea;
    DrawnNothing(s, s);
    if id in s.surfaces {
      var a := TileArea(s.surfaces[id].width, s.surfaces[id].height, x, y, clip);
      if a.left < a.right && a.top < a.bottom {
        var pic := TilePicture(tile, x, y, a);
        PutDraws(s, id, pic, a.left, a.top);
        assert Landing(pic.w, pic.h, (a.left, a.top)) == a;
      }
    }
  }

  lemma {:induction false} RunDraws(s: State, cs: seq<Command>)
    requires s.inFrame && forall i :: 0 <= i < |cs| ==> Draws(cs[i])
    ensures Drawn(s, Run(s, cs), AnnouncedAll(s, cs))
    decreases cs
  {
    hide Step, Announced, Drawn, Draws;
    if cs == [] {
      DrawnNothing(s, s);
    } else {
      var s1 := Step(s, cs[0]);
      StepDraws(s, cs[0]);
      DrawnIs(s, s1, Announced(s, cs[0]));
      RunDraws(s1, cs[1..]);
      DrawnTwice(s, s1, Run(s1, cs[1..]), Announced(s, cs[0]), AnnouncedAll(s1, cs[1..]));
    }
  }

  // ---------- a whole frame ----------

  lemma {:induction false} RunConcat(s: State, a: seq<Command>, b: seq<Command>)
    ensures Run(s, a + b) == Run(Run(s, a), b)
    decreases a
  {
    hide Step;
    if a == [] {
      assert a + b == b;
    } else {
      assert (a + b)[1..] == a[1..] + b;
      RunConcat(Step(s, a[0]), a[1..], b);
    }
  }

  /** The states in a frame: opened, drawn, shown. */
  lemma {:induction false} FrameRuns(s: State, cs: seq<Command>)
    ensures Run(s, [StartFrame] + cs + [EndFrame]) == FrameShown(Run(FrameOpened(s), cs))
  {
    hide FrameShown, FrameOpened;
    RunConcat(s, [StartFrame] + cs, [EndFrame]);
    RunConcat(s, [StartFrame], cs);
    RunOne(s, StartFrame);
    RunOne(Run(FrameOpened(s), cs), EndFrame);
    assert Step(s, StartFrame) == FrameOpened(s);
  }

  lemma {:induction false} RunOne(s: State, c: Command)
    ensures Run(s, [c]) == Step(s, c)
  {
    hide Step;
    assert [c][1..] == [];
  }

  lemma {:induction false} DrawnLayout(s: State, s': State, drs: seq<DirtyRect>, p: Spot)
    requires WellFormed(s) && LayoutOk(s) && Drawn(s, s', drs) && Showable(s, drs)
    requires Exists(s, p) && OnScreen(s, p)
    ensures WellFormed(s') && LayoutOk(s') && Showable(s', drs) && Exists(s', p) && OnScreen(s', p)
    ensures ShownAt(s', p) == ShownAt(s, p)
  {
    Relaid(s, s');
    hide At;
  }

  /** The end of a frame. */
  lemma {:induction false} ShownIff(s: State, p: Spot)
    requires WellFormed(s) && LayoutOk(s) && Showable(s, s.dirty)
    ensures WellFormed(FrameShown(s))
    ensures Agrees(FrameShown(s), p) <==> Agrees(s, p) || Covers(s.dirty, p)
  {
    hide Flush, Agrees, LayoutOk, Showable, Covers;
    var s0 := s.(inFrame := false, dirty := []);
    FlushIgnores(s.(inFrame := false), s0, s.dirty);
    Relayout(s, s0);
    FlushAgrees(s0, s.dirty, p);
    SameAgree(s, s0, p);
    SameAgree(Flush(s0, s.dirty), FrameShown(s), p);
  }

  lemma {:induction false} Relayout(s: State, s0: State)
    requires LayoutOk(s) && s0 == s.(inFrame := s0.inFrame, dirty := s0.dirty)
    ensures LayoutOk(s0) && forall drs :: Showable(s, drs) ==> Showable(s0, drs)
  {
    Relaid(s, s0);
  }

  /** Any frame of any drawing, past the edges and over itself: when it ends, a pixel is
      shown right if and only if one of the announced rectangles of its surface holds it,
      or its last colour is the one that was on the screen. */
  lemma {:induction false} FrameRightIff(s: State, cs: seq<Command>, p: Spot)
    requires WellFormed(s) && LayoutOk(s) && forall i :: 0 <= i < |cs| ==> Draws(cs[i])
    requires Showable(s, AnnouncedAll(FrameOpened(s), cs))
    requires Exists(s, p) && OnScreen(s, p)
    ensures var drawn, s' := Run(FrameOpened(s), cs), Run(s, [StartFrame] + cs + [EndFrame]);
            && WellFormed(s') && WellFormed(drawn) && Exists(drawn, p)
            && (Agrees(s', p) <==>
                  Covers(AnnouncedAll(FrameOpened(s), cs), p) || PixelOf(drawn.surfaces[p.id], p.x, p.y) == ShownAt(s, p))
  {
    hide *;
    var s0 := FrameOpened(s);
    OpenedIs(s, p);
    Relayout(s, s0);
    var drawn, drs := Run(s0, cs), AnnouncedAll(s0, cs);
    FrameRuns(s, cs);
    RunDraws(s0, cs);
    DirtyIs(s0, drawn, drs);
    DrawnLayout(s0, drawn, drs, p);
    ShownIff(drawn, p);
    AgreesIs(drawn, p);
  }

  lemma {:induction false} OpenedIs(s: State, p: Spot)
    requires WellFormed(s) && Exists(s, p) && OnScreen(s, p)
    ensures var s0 := FrameOpened(s);
            && s0 == s.(inFrame := s0.inFrame, dirty := s0.dirty) && s0.inFrame && s0.dirty == []
            && WellFormed(s0) && Exists(s0, p) && OnScreen(s0, p) && ShownAt(s0, p) == ShownAt(s, p)
  {
    hide At;
  }

  lemma {:induction false} DirtyIs(s: State, s': State, drs: seq<DirtyRect>)
    requires Drawn(s, s', drs) && s.dirty == []
    ensures s'.dirty == drs
  {
    assert [] + drs == drs;
  }

  /** So a pixel that was shown right before the frame is right after it if and only if it
      was announced or has its old colour. */
  lemma {:induction false} FrameStaysRightIff(s: State, cs: seq<Command>, p: Spot)
    requires WellFormed(s) && LayoutOk(s) && forall i :: 0 <= i < |cs| ==> Draws(cs[i])
    requires Showable(s, AnnouncedAll(FrameOpened(s), cs))
    requires Exists(s, p) && OnScreen(s, p) && Agrees(s, p)
    ensures var drawn, s' := Run(FrameOpened(s), cs), Run(s, [StartFrame] + cs + [EndFrame]);
            && WellFormed(s') && WellFormed(drawn) && Exists(drawn, p)
            && (Agrees(s', p) <==>
                  Covers(AnnouncedAll(FrameOpened(s), cs), p)
                  || PixelOf(drawn.surfaces[p.id], p.x, p.y) == PixelOf(s.surfaces[p.id], p.x, p.y))
  {
    hide *;
    FrameRightIff(s, cs, p);
    AgreesIs(s, p);
  }
}
