/** The graphics pipeline: commands paint off-screen surfaces and record what they
    touched; the end of a frame replays those rectangles onto the screen. */
module Egfx {
  import opened Raster
  import opened Framebuffer

  const MAX_SURFACES := 256
  const MAX_CACHE_ENTRIES := 8192
  const TILE := 64

  /** Top-down pixel buffer. */
  datatype Surface = Surface(width: nat, height: nat, data: seq<Rgba>)

  datatype CacheEntry = CacheEntry(data: seq<Rgba>, width: nat, height: nat)

  /** left, top, right, bottom as the protocol sends them. */
  datatype Area = Area(left: nat, top: nat, right: nat, bottom: nat)

  datatype DirtyRect = DirtyRect(surfID: nat, area: Area)

  datatype State = State(
    surfaces: map<nat, Surface>, outputMap: map<nat, (int, int)>, cache: map<nat, CacheEntry>,
    inFrame: bool, dirty: seq<DirtyRect>, screen: Screen)

  // ---------- showing a surface ----------

  /** Where a surface is shown; an unmapped one reads as the zero origin. */
  function Origin(s: State, id: nat): (int, int) {
    if id in s.outputMap then s.outputMap[id] else (0, 0)
  }

  function Clamp(surf: Surface, a: Area): Area {
    a.(right := if a.right > surf.width then surf.width else a.right,
       bottom := if a.bottom > surf.height then surf.height else a.bottom)
  }

  function EmitRect(s: State, dr: DirtyRect): (s': State)
    ensures s' == s.(screen := s'.screen)
    ensures s'.screen.width == s.screen.width && s'.screen.height == s.screen.height
    ensures |s'.screen.pixels| == |s.screen.pixels|
  {
    if dr.surfID !in s.surfaces then s
    else
      var surf := s.surfaces[dr.surfID];
      var a := Clamp(surf, dr.area);
      var w, h := a.right - a.left, a.bottom - a.top;
      var off := Index(surf.width, a.left, a.top);
      if w <= 0 || h <= 0 || off > |surf.data| then s
      else
        var (ox, oy) := Origin(s, dr.surfID);
        s.(screen := WriteStridedTopDown(s.screen, Rect(ox + a.left, oy + a.top, w, h), surf.data[off..], surf.width))
  }

  /** notifyBitmap: inside a frame the rectangle is recorded, outside it is shown. */
  function Notify(s: State, id: nat, a: Area): State {
    if s.inFrame then s.(dirty := s.dirty + [DirtyRect(id, a)]) else EmitRect(s, DirtyRect(id, a))
  }

  function Flush(s: State, drs: seq<DirtyRect>): (s': State)
    ensures s' == s.(screen := s'.screen)
    ensures s'.screen.width == s.screen.width && s'.screen.height == s.screen.height
    ensures |s'.screen.pixels| == |s.screen.pixels|
    decreases drs
  {
    if drs == [] then s else Flush(EmitRect(s, drs[0]), drs[1..])
  }

  // ---------- painting ----------

  function Repaint(s: State, id: nat, data: seq<Rgba>): State
    requires id in s.surfaces
  {
    s.(surfaces := s.surfaces[id := s.surfaces[id].(data := data)])
  }

  /** Replace a surface's pixels and announce the rectangle. */
  function Paint(s: State, id: nat, data: seq<Rgba>, a: Area): State
    requires id in s.surfaces
  {
    Notify(Repaint(s, id, data), id, a)
  }

  function FillArea(s: State, id: nat, c: Rgba, a: Area): (s': State)
    requires id in s.surfaces
    ensures s'.surfaces.Keys == s.surfaces.Keys
  {
    var surf := s.surfaces[id];
    if a.right < a.left || a.bottom < a.top then Notify(s, id, a)
    else Paint(s, id, FillRows(surf.data, Index(surf.width, a.left, a.top), surf.width, a.right - a.left, a.bottom - a.top, c), a)
  }

  function FillAreas(s: State, id: nat, c: Rgba, rects: seq<Area>): State
    requires id in s.surfaces
    decreases rects
  {
    if rects == [] then s else FillAreas(FillArea(s, id, c, rects[0]), id, c, rects[1..])
  }

  /** A picture to be copied: pixels, the offset of its first row, stride, size. */
  datatype Picture = Picture(data: seq<Rgba>, off: int, stride: int, w: nat, h: nat)

  function PutAt(s: State, id: nat, pic: Picture, x: nat, y: nat): (s': State)
    requires id in s.surfaces
    ensures s'.surfaces.Keys == s.surfaces.Keys
  {
    var surf := s.surfaces[id];
    Paint(s, id, CopyRows(surf.data, Index(surf.width, x, y), surf.width, pic.data, pic.off, pic.stride, pic.w, pic.h),
          Area(x, y, x + pic.w, y + pic.h))
  }

  function PutAll(s: State, id: nat, pic: Picture, points: seq<(nat, nat)>): State
    requires id in s.surfaces
    decreases points
  {
    if points == [] then s else PutAll(PutAt(s, id, pic, points[0].0, points[0].1), id, pic, points[1..])
  }

  function Solid(n: nat, c: Rgba): (d: seq<Rgba>)
    ensures |d| == n
  {
    seq(n, _ => c)
  }

  const OPAQUE := CLEAR.(a := 0xFF)

  /** The rectangle cut out of a surface into a buffer of its own. */
  function Cut(surf: Surface, left: nat, top: nat, w: nat, h: nat): (d: seq<Rgba>)
    ensures |d| == w * h
  {
    CopyRows(Solid(w * h, CLEAR), 0, w, surf.data, Index(surf.width, left, top), surf.width, w, h)
  }

  /** What SurfaceToSurface copies from: within one surface, a copy taken first. */
  function BlitSource(s: State, src: nat, dst: nat, left: nat, top: nat, w: nat, h: nat): Picture
    requires src in s.surfaces
  {
    var surf := s.surfaces[src];
    if src == dst then Picture(Cut(surf, left, top, w, h), 0, w, w, h)
    else Picture(surf.data, Index(surf.width, left, top), surf.width, w, h)
  }

  function Max(a: int, b: int): int { if a > b then a else b }

  function Min(a: int, b: int): int { if a < b then a else b }

  /** The part of a 64x64 tile inside the clip rectangle and the surface. */
  function TileArea(width: nat, height: nat, tileX: nat, tileY: nat, clip: Area): Area {
    Area(Max(tileX, clip.left), Max(tileY, clip.top),
         Min(Min(tileX + TILE, clip.right), width), Min(Min(tileY + TILE, clip.bottom), height))
  }

  function BlitTile(s: State, id: nat, tileX: nat, tileY: nat, tile: seq<Rgba>, clip: Area): State
    requires id in s.surfaces
  {
    var a := TileArea(s.surfaces[id].width, s.surfaces[id].height, tileX, tileY, clip);
    if a.left < a.right && a.top < a.bottom then PutAt(s, id, TilePicture(tile, tileX, tileY, a), a.left, a.top) else s
  }

  /** The part of a tile that falls into an area. */
  function TilePicture(tile: seq<Rgba>, tileX: nat, tileY: nat, a: Area): Picture
    requires a.left < a.right && a.top < a.bottom
  {
    Picture(tile, (a.top - tileY) * TILE + (a.left - tileX), TILE, a.right - a.left, a.bottom - a.top)
  }

  // ---------- commands ----------

  /** Commands with their fields decoded and their bitmaps decompressed.  victim is the
      entry that map iteration yields when the cache is full. */
  datatype Command =
    | CreateSurface(id: nat, w: nat, h: nat)
    | DeleteSurface(id: nat)
    | MapSurfaceToOutput(id: nat, x: int, y: int)
    | ResetGraphics(w: nat, h: nat)
    | StartFrame
    | EndFrame
    | SolidFill(id: nat, color: Rgba, rects: seq<Area>)
    | SurfaceToSurface(src: nat, dst: nat, area: Area, points: seq<(nat, nat)>)
    | SurfaceToCache(id: nat, slot: nat, area: Area, victim: nat)
    | CacheToSurface(slot: nat, id: nat, points: seq<(nat, nat)>)
    | EvictCacheEntry(slot: nat)
    | WireToSurface(id: nat, area: Area, pixels: seq<Rgba>)
    | ProgressiveTile(id: nat, tileX: nat, tileY: nat, tile: seq<Rgba>, clip: Area)

  function Created(s: State, id: nat, w: nat, h: nat): State {
    if id !in s.surfaces && |s.surfaces| >= MAX_SURFACES then s
    else s.(surfaces := s.surfaces[id := Surface(w, h, Solid(w * h, WHITE))])
  }

  function Deleted(s: State, id: nat): State { s.(surfaces := s.surfaces - {id}, outputMap := s.outputMap - {id}) }

  function MappedTo(s: State, id: nat, x: int, y: int): State { s.(outputMap := s.outputMap[id := (x, y)]) }

  function Restarted(s: State, w: nat, h: nat): State {
    s.(surfaces := map[], outputMap := map[], dirty := [], inFrame := false,
       screen := Screen(w, h, Solid(w * h, OPAQUE)))
  }

  function FrameOpened(s: State): State { s.(inFrame := true, dirty := []) }

  function FrameShown(s: State): State { Flush(s.(inFrame := false), s.dirty).(dirty := []) }

  function Filled(s: State, id: nat, color: Rgba, rects: seq<Area>): State {
    if id in s.surfaces then FillAreas(s, id, color.(a := 0xFF), rects) else s
  }

  function Blitted(s: State, src: nat, dst: nat, a: Area, points: seq<(nat, nat)>): State {
    if src !in s.surfaces || dst !in s.surfaces || a.right <= a.left || a.bottom <= a.top then s
    else PutAll(s, dst, BlitSource(s, src, dst, a.left, a.top, a.right - a.left, a.bottom - a.top), points)
  }

  /** A full cache loses the victim before a new slot is taken. */
  function Stored(cache: map<nat, CacheEntry>, slot: nat, e: CacheEntry, victim: nat): map<nat, CacheEntry> {
    (if slot !in cache && |cache| >= MAX_CACHE_ENTRIES then cache - {victim} else cache)[slot := e]
  }

  function Saved(s: State, id: nat, slot: nat, a: Area, victim: nat): State {
    if id !in s.surfaces || a.right <= a.left || a.bottom <= a.top then s
    else
      var w, h := a.right - a.left, a.bottom - a.top;
      s.(cache := Stored(s.cache, slot, CacheEntry(Cut(s.surfaces[id], a.left, a.top, w, h), w, h), victim))
  }

  function Restored(s: State, slot: nat, id: nat, points: seq<(nat, nat)>): State {
    if slot !in s.cache || id !in s.surfaces then s
    else
      var e := s.cache[slot];
      PutAll(s, id, Picture(e.data, 0, e.width, e.width, e.height), points)
  }

  function Evicted(s: State, slot: nat): State { s.(cache := s.cache - {slot}) }

  function Received(s: State, id: nat, a: Area, pixels: seq<Rgba>): State {
    if id !in s.surfaces || a.right <= a.left || a.bottom <= a.top then s
    else
      var w, h := a.right - a.left, a.bottom - a.top;
      if |pixels| < w * h then s else PutAt(s, id, Picture(pixels, 0, w, w, h), a.left, a.top)
  }

  function Tiled(s: State, id: nat, tileX: nat, tileY: nat, tile: seq<Rgba>, clip: Area): State {
    if id !in s.surfaces then s else BlitTile(s, id, tileX, tileY, tile, clip)
  }

  function Step(s: State, c: Command): State {
    match c
    case CreateSurface(id, w, h) => Created(s, id, w, h)
    case DeleteSurface(id) => Deleted(s, id)
    case MapSurfaceToOutput(id, x, y) => MappedTo(s, id, x, y)
    case ResetGraphics(w, h) => Restarted(s, w, h)
    case StartFrame => FrameOpened(s)
    case EndFrame => FrameShown(s)
    case SolidFill(id, color, rects) => Filled(s, id, color, rects)
    case SurfaceToSurface(src, dst, a, points) => Blitted(s, src, dst, a, points)
    case SurfaceToCache(id, slot, a, victim) => Saved(s, id, slot, a, victim)
    case CacheToSurface(slot, id, points) => Restored(s, slot, id, points)
    case EvictCacheEntry(slot) => Evicted(s, slot)
    case WireToSurface(id, a, pixels) => Received(s, id, a, pixels)
    case ProgressiveTile(id, tileX, tileY, tile, clip) => Tiled(s, id, tileX, tileY, tile, clip)
  }

  function Run(s: State, cs: seq<Command>): State
    decreases cs
  {
    if cs == [] then s else Run(Step(s, cs[0]), cs[1..])
  }
}
