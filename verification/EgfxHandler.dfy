/** The graphics handler on its own buffers: every command, run on the heap, does what
    Egfx.Step says. */
module EgfxHandler {
  import opened Raster
  import opened Framebuffer
  import opened Egfx

  /** A surface's size and its pixel buffer. */
  datatype Buffer = Buffer(width: nat, height: nat, data: array<Rgba>)

  ghost function SurfaceOf(b: Buffer): Surface
    reads b.data
  {
    Surface(b.width, b.height, b.data[..])
  }

  ghost function SurfacesOf(bufs: map<nat, Buffer>): map<nat, Surface>
    reads set id | id in bufs :: bufs[id].data
  {
    map id | id in bufs :: SurfaceOf(bufs[id])
  }

  lemma {:induction false} SurfaceIs(b: Buffer)
    ensures SurfaceOf(b) == Surface(b.width, b.height, b.data[..])
  {
  }

  lemma {:induction false} NoSurfaces()
    ensures SurfacesOf(map[]) == map[]
  {
  }

  lemma {:induction false} SurfacesWithout(bufs: map<nat, Buffer>, id: nat)
    ensures SurfacesOf(bufs - {id}) == SurfacesOf(bufs) - {id}
  {
    hide SurfaceOf;
  }

  lemma {:induction false} SurfacesWith(bufs: map<nat, Buffer>, id: nat, b: Buffer)
    ensures SurfacesOf(bufs[id := b]) == SurfacesOf(bufs)[id := SurfaceOf(b)]
  {
    hide SurfaceOf;
  }

  /** Only the pixels count. */
  twostate lemma {:induction false} SurfacesKept(bufs: map<nat, Buffer>)
    requires forall id :: id in bufs ==> bufs[id].data[..] == old(bufs[id].data[..])
    ensures SurfacesOf(bufs) == old(SurfacesOf(bufs))
  {
  }

  method NewBuffer(w: nat, h: nat, c: Rgba) returns (a: array<Rgba>)
    ensures fresh(a) && a[..] == Solid(w * h, c)
  {
    a := new Rgba[w * h](_ => c);
    assert a[..] == Solid(w * h, c);
  }

  lemma {:induction false} BlittedIs(s: State, src: nat, dst: nat, a: Area, points: seq<(nat, nat)>)
    requires src in s.surfaces && dst in s.surfaces && a.left < a.right && a.top < a.bottom
    ensures Blitted(s, src, dst, a, points) == PutAll(s, dst, BlitSource(s, src, dst, a.left, a.top, a.right - a.left, a.bottom - a.top), points)
  {
    hide PutAll, BlitSource;
  }

  lemma {:induction false} BlittedNot(s: State, src: nat, dst: nat, a: Area, points: seq<(nat, nat)>)
    requires !(src in s.surfaces && dst in s.surfaces && a.left < a.right && a.top < a.bottom)
    ensures Blitted(s, src, dst, a, points) == s
  {
    hide PutAll, BlitSource;
  }

  lemma {:induction false} PutAtIs(s: State, id: nat, pic: Picture, x: nat, y: nat)
    requires id in s.surfaces
    ensures var surf := s.surfaces[id];
            PutAt(s, id, pic, x, y) ==
              Notify(Repaint(s, id, CopyRows(surf.data, Index(surf.width, x, y), surf.width, pic.data, pic.off, pic.stride, pic.w, pic.h)), id,
                     Area(x, y, x + pic.w, y + pic.h))
  {
    hide CopyRows, Notify, Repaint;
  }

  lemma {:induction false} FillAreaIs(s: State, id: nat, c: Rgba, a: Area)
    requires id in s.surfaces
    ensures var surf := s.surfaces[id];
            FillArea(s, id, c, a) ==
              if a.left <= a.right && a.top <= a.bottom then
                Notify(Repaint(s, id, FillRows(surf.data, Index(surf.width, a.left, a.top), surf.width, a.right - a.left, a.bottom - a.top, c)), id, a)
              else Notify(s, id, a)
  {
    hide FillRows, Notify, Repaint;
  }

  lemma {:induction false} PutAllStep(s: State, id: nat, pic: Picture, points: seq<(nat, nat)>)
    requires id in s.surfaces
    ensures PutAll(s, id, pic, points) ==
              if points == [] then s else PutAll(PutAt(s, id, pic, points[0].0, points[0].1), id, pic, points[1..])
  {
    hide PutAt;
  }

  lemma {:induction false} FillAreasStep(s: State, id: nat, c: Rgba, rects: seq<Area>)
    requires id in s.surfaces
    ensures FillAreas(s, id, c, rects) == if rects == [] then s else FillAreas(FillArea(s, id, c, rects[0]), id, c, rects[1..])
  {
    hide FillArea;
  }

  lemma {:induction false} FlushStep(s: State, drs: seq<DirtyRect>)
    ensures Flush(s, drs) == if drs == [] then s else Flush(EmitRect(s, drs[0]), drs[1..])
  {
    hide EmitRect;
  }

  lemma {:induction false} FrameShownIs(s: State)
    ensures FrameShown(s) == Flush(s.(inFrame := false), s.dirty).(dirty := [])
  {
    hide Flush;
  }

  lemma {:induction false} FilledIs(s: State, id: nat, color: Rgba, rects: seq<Area>)
    ensures Filled(s, id, color, rects) == if id in s.surfaces then FillAreas(s, id, color.(a := 0xFF), rects) else s
  {
    hide FillAreas;
  }

  lemma {:induction false} ReceivedIs(s: State, id: nat, a: Area, pixels: seq<Rgba>)
    ensures Received(s, id, a, pixels) ==
              if id !in s.surfaces || a.right <= a.left || a.bottom <= a.top then s
              else
                var w, h := a.right - a.left, a.bottom - a.top;
                if |pixels| < w * h then s else PutAt(s, id, Picture(pixels, 0, w, w, h), a.left, a.top)
  {
    hide PutAt;
  }

  class Handler {
    var surfaces: map<nat, Buffer>
    var outputMap: map<nat, (int, int)>
    var cache: map<nat, CacheEntry>
    var inFrame: bool
    var frameDirtyRects: seq<DirtyRect>
    var width: nat
    var height: nat
    var pixels: array<Rgba>

    ghost function Buffers(): (b: set<object>)
      reads this`surfaces, this`pixels
      ensures this !in b && pixels in b && forall id :: id in surfaces ==> surfaces[id].data in b
    {
      {pixels} + set id | id in surfaces :: surfaces[id].data
    }

    /** No two buffers share their pixels. */
    ghost predicate Valid()
      reads this`surfaces, this`pixels
    {
      && (forall id :: id in surfaces ==> surfaces[id].data != pixels)
      && (forall id, id' :: id in surfaces && id' in surfaces && id != id' ==> surfaces[id].data != surfaces[id'].data)
    }

    ghost function Contents(): State
      reads this, Buffers()
    {
      State(SurfacesOf(surfaces), outputMap, cache, inFrame, frameDirtyRects,
            Screen(width, height, pixels[..]))
    }

    /** A buffer was repainted and nothing else changed. */
    twostate lemma {:induction false} Repainted(id: nat)
      requires unchanged(this) && id in surfaces
      requires forall k :: k in surfaces && k != id ==> surfaces[k].data[..] == old(surfaces[k].data[..])
      requires pixels[..] == old(pixels[..])
      ensures id in old(Contents().surfaces) && Contents() == Repaint(old(Contents()), id, surfaces[id].data[..])
    {
      assert Contents().surfaces == old(Contents().surfaces)[id := SurfaceOf(surfaces[id])];
    }

    /** No buffer changed. */
    twostate lemma {:induction false} FieldsSet()
      requires surfaces == old(surfaces) && pixels == old(pixels) && width == old(width) && height == old(height)
      requires forall k :: k in surfaces ==> surfaces[k].data[..] == old(surfaces[k].data[..])
      requires pixels[..] == old(pixels[..])
      ensures Contents() == old(Contents()).(outputMap := outputMap, cache := cache, inFrame := inFrame, dirty := frameDirtyRects)
    {
    }

    constructor (w: nat, h: nat)
      ensures Valid() && fresh(Buffers())
      ensures Contents() == State(map[], map[], map[], false, [], Screen(w, h, Solid(w * h, OPAQUE)))
    {
      surfaces, outputMap, cache, inFrame, frameDirtyRects := map[], map[], map[], false, [];
      width, height := w, h;
      pixels := new Rgba[w * h](_ => OPAQUE);
      new;
      assert pixels[..] == Solid(w * h, OPAQUE);
    }

    method WriteRectStridedTopDown(r: Rect, src: seq<Rgba>, srcStride: int)
      modifies pixels
      ensures Screen(width, height, pixels[..]) == WriteStridedTopDown(old(Screen(width, height, pixels[..])), r, src, srcStride)
    {
      if srcStride < r.w || |src| < (r.h - 1) * srcStride + r.w {
        return;
      }
      var c := ClipRect(width, height, r);
      if c.w <= 0 || c.h <= 0 {
        return;
      }
      BlitRows(pixels, (height - c.y - c.h) * width + c.x, width, src, (c.h - 1) * srcStride, 0 - srcStride, c.w, c.h);
    }

    method EmitBitmapRect(surfID: nat, area: Area)
      requires Valid()
      modifies pixels
      ensures Valid() && Contents() == EmitRect(old(Contents()), DirtyRect(surfID, area))
    {
      hide WriteStridedTopDown;
      if surfID !in surfaces {
        return;
      }
      var surf := surfaces[surfID];
      var right := if area.right > surf.width then surf.width else area.right;
      var bottom := if area.bottom > surf.height then surf.height else area.bottom;
      var w, h := right - area.left, bottom - area.top;
      var off := Index(surf.width, area.left, area.top);
      if w <= 0 || h <= 0 || off > surf.data.Length {
        return;
      }
      var origin := if surfID in outputMap then outputMap[surfID] else (0, 0);
      ghost var before := Contents();
      WriteRectStridedTopDown(Rect(origin.0 + area.left, origin.1 + area.top, w, h), surf.data[off..], surf.width);
      assert Contents().surfaces == before.surfaces;
    }

    method NotifyBitmap(surfID: nat, area: Area)
      requires Valid()
      modifies pixels, this`frameDirtyRects
      ensures Valid() && Contents() == Notify(old(Contents()), surfID, area)
    {
      hide EmitRect;
      if !inFrame {
        EmitBitmapRect(surfID, area);
      } else {
        frameDirtyRects := frameDirtyRects + [DirtyRect(surfID, area)];
      }
    }

    /** Copy a picture's rows onto a surface and announce the rectangle. */
    method PutRows(id: nat, pic: Picture, x: nat, y: nat)
      requires Valid() && id in surfaces
      modifies Buffers(), this`frameDirtyRects
      ensures Valid() && Contents() == PutAt(old(Contents()), id, pic, x, y)
    {
      hide *;
      var surf := surfaces[id];
      BuffersOf(id);
      KnownSurface(id);
      PutAtIs(Contents(), id, pic, x, y);
      BlitRows(surf.data, Index(surf.width, x, y), surf.width, pic.data, pic.off, pic.stride, pic.w, pic.h);
      Repainted(id);
      NotifyBitmap(id, Area(x, y, x + pic.w, y + pic.h));
    }

    method FillRect(id: nat, c: Rgba, a: Area)
      requires Valid() && id in surfaces
      modifies Buffers(), this`frameDirtyRects
      ensures Valid() && Contents() == FillArea(old(Contents()), id, c, a)
    {
      hide *;
      var surf := surfaces[id];
      BuffersOf(id);
      KnownSurface(id);
      FillAreaIs(Contents(), id, c, a);
      if a.left <= a.right && a.top <= a.bottom {
        PaintRows(surf.data, Index(surf.width, a.left, a.top), surf.width, a.right - a.left, a.bottom - a.top, c);
        Repainted(id);
      }
      NotifyBitmap(id, a);
    }

    lemma {:induction false} BuffersOf(id: nat)
      requires Valid() && id in surfaces
      ensures surfaces[id].data != pixels && forall k :: k in surfaces && k != id ==> surfaces[k].data != surfaces[id].data
    {
    }

    method PutEach(id: nat, pic: Picture, points: seq<(nat, nat)>)
      requires Valid() && id in surfaces
      modifies Buffers(), this`frameDirtyRects
      ensures Valid() && Contents() == PutAll(old(Contents()), id, pic, points)
    {
      hide *;
      KnownSurface(id);
      ghost var goal := PutAll(Contents(), id, pic, points);
      assert points[0..] == points;
      for i := 0 to |points|
        invariant Valid() && id in Contents().surfaces && PutAll(Contents(), id, pic, points[i..]) == goal
      {
        PutAllStep(Contents(), id, pic, points[i..]);
        assert points[i..][1..] == points[i + 1..];
        PutRows(id, pic, points[i].0, points[i].1);
      }
      PutAllStep(Contents(), id, pic, points[|points|..]);
    }

    // ---------- the commands ----------

    lemma {:induction false} Known()
      requires Valid()
      ensures Contents().surfaces.Keys == surfaces.Keys && Contents().cache == cache
    {
    }

    lemma {:induction false} KnownId(id: nat)
      ensures id in Contents().surfaces <==> id in surfaces
    {
    }

    lemma {:induction false} KnownSurface(id: nat)
      requires id in surfaces
      ensures id in Contents().surfaces && Contents().surfaces[id] == Surface(surfaces[id].width, surfaces[id].height, surfaces[id].data[..])
    {
    }

    lemma {:induction false} ContentsAre()
      ensures Contents() == State(SurfacesOf(surfaces), outputMap, cache, inFrame, frameDirtyRects, Screen(width, height, pixels[..]))
    {
    }

    /** A surface with a buffer of its own, over whatever has the number. */
    method Install(id: nat, w: nat, h: nat)
      requires Valid()
      modifies this`surfaces
      ensures Valid() && fresh(Buffers() - old(Buffers()))
      ensures Contents() == old(Contents()).(surfaces := old(Contents()).surfaces[id := Surface(w, h, Solid(w * h, WHITE))])
    {
      hide SurfaceOf, SurfacesOf, Contents;
      ContentsAre();
      var pixBuf := NewBuffer(w, h, WHITE);
      ghost var were := surfaces;
      surfaces := surfaces[id := Buffer(w, h, pixBuf)];
      SurfacesKept(were);
      SurfacesWith(were, id, Buffer(w, h, pixBuf));
      SurfaceIs(Buffer(w, h, pixBuf));
      ContentsAre();
    }

    method HandleCreateSurface(id: nat, w: nat, h: nat)
      requires Valid()
      modifies this`surfaces
      ensures Valid() && fresh(Buffers() - old(Buffers())) && Contents() == Created(old(Contents()), id, w, h)
    {
      Known();
      assert |Contents().surfaces| == |Contents().surfaces.Keys| == |surfaces|;
      hide Contents, Valid, SurfaceOf;
      if id in surfaces || |surfaces| < MAX_SURFACES {
        Install(id, w, h);
      }
    }

    method HandleDeleteSurface(id: nat)
      requires Valid()
      modifies this`surfaces, this`outputMap
      ensures Buffers() <= old(Buffers())
      ensures Valid() && Contents() == Deleted(old(Contents()), id)
    {
      hide SurfaceOf, SurfacesOf, Contents;
      ContentsAre();
      ghost var were := surfaces;
      surfaces, outputMap := surfaces - {id}, outputMap - {id};
      SurfacesKept(were);
      SurfacesWithout(were, id);
      ContentsAre();
    }

    method HandleMapSurfaceToOutput(id: nat, x: int, y: int)
      requires Valid()
      modifies this`outputMap
      ensures Valid() && Contents() == MappedTo(old(Contents()), id, x, y)
    {
      outputMap := outputMap[id := (x, y)];
    }

    method HandleResetGraphics(w: nat, h: nat)
      requires Valid()
      modifies this
      ensures Valid() && fresh(Buffers() - old(Buffers())) && Contents() == Restarted(old(Contents()), w, h)
    {
      hide SurfaceOf, SurfacesOf, Contents, Solid;
      ContentsAre();
      surfaces, outputMap, frameDirtyRects, inFrame := map[], map[], [], false;
      width, height := w, h;
      pixels := NewBuffer(w, h, OPAQUE);
      NoSurfaces();
      ContentsAre();
    }

    method HandleStartFrame()
      requires Valid()
      modifies this`inFrame, this`frameDirtyRects
      ensures Valid() && Contents() == FrameOpened(old(Contents()))
    {
      inFrame := true;
      frameDirtyRects := [];
    }

    method HandleEndFrame()
      requires Valid()
      modifies this`inFrame, this`frameDirtyRects, pixels
      ensures Valid() && Contents() == FrameShown(old(Contents()))
    {
      hide *;
      FrameShownIs(Contents());
      DirtyIs();
      inFrame := false;
      FieldsSet();
      var drs := frameDirtyRects;
      ghost var goal := Flush(Contents(), drs);
      assert drs[0..] == drs;
      for i := 0 to |drs|
        invariant Valid() && Flush(Contents(), drs[i..]) == goal
      {
        FlushStep(Contents(), drs[i..]);
        assert drs[i..][1..] == drs[i + 1..];
        EmitBitmapRect(drs[i].surfID, drs[i].area);
      }
      FlushStep(Contents(), drs[|drs|..]);
      ClearDirty();
    }

    lemma {:induction false} DirtyIs()
      ensures Contents().dirty == frameDirtyRects && Contents().inFrame == inFrame && Contents().outputMap == outputMap && Contents().cache == cache
    {
    }

    method ClearDirty()
      modifies this`frameDirtyRects
      ensures Contents() == old(Contents()).(dirty := [])
    {
      hide *;
      DirtyIs();
      assert this !in Buffers();
      frameDirtyRects := [];
      FieldsSet();
    }

    method HandleSolidFill(id: nat, color: Rgba, rects: seq<Area>)
      requires Valid()
      modifies Buffers(), this`frameDirtyRects
      ensures Valid() && Contents() == Filled(old(Contents()), id, color, rects)
    {
      hide *;
      KnownId(id);
      FilledIs(Contents(), id, color, rects);
      if id !in surfaces {
        return;
      }
      var c := color.(a := 0xFF);
      ghost var goal := FillAreas(Contents(), id, c, rects);
      assert rects[0..] == rects;
      for i := 0 to |rects|
        invariant Valid() && id in Contents().surfaces && FillAreas(Contents(), id, c, rects[i..]) == goal
      {
        FillAreasStep(Contents(), id, c, rects[i..]);
        assert rects[i..][1..] == rects[i + 1..];
        FillRect(id, c, rects[i]);
      }
      FillAreasStep(Contents(), id, c, rects[|rects|..]);
    }

    /** Copy a rectangle of a surface into a buffer of its own. */
    method CutOut(id: nat, left: nat, top: nat, w: nat, h: nat) returns (data: seq<Rgba>)
      requires id in surfaces
      ensures data == Cut(SurfaceOf(surfaces[id]), left, top, w, h)
    {
      hide CopyRows;
      var surf := surfaces[id];
      var tmp := NewBuffer(w, h, CLEAR);
      BlitRows(tmp, 0, w, surf.data[..], Index(surf.width, left, top), surf.width, w, h);
      data := tmp[..];
    }

    method BlitFrom(src: nat, dst: nat, left: nat, top: nat, w: nat, h: nat) returns (pic: Picture)
      requires Valid() && src in surfaces
      ensures Valid() && Contents() == old(Contents())
      ensures src in Contents().surfaces && pic == BlitSource(Contents(), src, dst, left, top, w, h)
    {
      hide Cut;
      if src == dst {
        var tmp := CutOut(src, left, top, w, h);
        pic := Picture(tmp, 0, w, w, h);
      } else {
        var surf := surfaces[src];
        pic := Picture(surf.data[..], Index(surf.width, left, top), surf.width, w, h);
      }
    }

    method BlitTo(src: nat, dst: nat, left: nat, top: nat, w: nat, h: nat, points: seq<(nat, nat)>)
      requires Valid() && src in surfaces && dst in surfaces
      requires src in Contents().surfaces && dst in Contents().surfaces
      modifies Buffers(), this`frameDirtyRects
      ensures Valid()
      ensures Contents() == PutAll(old(Contents()), dst, BlitSource(old(Contents()), src, dst, left, top, w, h), points)
    {
      hide *;
      var pic := BlitFrom(src, dst, left, top, w, h);
      PutEach(dst, pic, points);
    }

    method HandleSurfaceToSurface(src: nat, dst: nat, a: Area, points: seq<(nat, nat)>)
      requires Valid()
      modifies Buffers(), this`frameDirtyRects
      ensures Valid()
      ensures Contents() == Blitted(old(Contents()), src, dst, a, points)
    {
      KnownId(src);
      KnownId(dst);
      ghost var before := Contents();
      hide *;
      if src in surfaces && dst in surfaces && a.left < a.right && a.top < a.bottom {
        BlittedIs(before, src, dst, a, points);
        BlitTo(src, dst, a.left, a.top, a.right - a.left, a.bottom - a.top, points);
      } else {
        BlittedNot(before, src, dst, a, points);
      }
    }

    /** victim is the entry map iteration yields first when the cache is full. */
    method Store(slot: nat, e: CacheEntry, victim: nat)
      modifies this`cache
      ensures cache == Stored(old(cache), slot, e, victim)
    {
      if slot !in cache && |cache| >= MAX_CACHE_ENTRIES {
        cache := cache - {victim};
      }
      cache := cache[slot := e];
    }

    method HandleSurfaceToCache(id: nat, slot: nat, a: Area, victim: nat)
      requires Valid()
      modifies this`cache
      ensures Valid() && Contents() == Saved(old(Contents()), id, slot, a, victim)
    {
      hide Cut, Stored;
      ghost var before := Contents();
      if id !in surfaces || a.right <= a.left || a.bottom <= a.top {
        return;
      }
      var w, h := a.right - a.left, a.bottom - a.top;
      var pixBuf := CutOut(id, a.left, a.top, w, h);
      Store(slot, CacheEntry(pixBuf, w, h), victim);
      assert Contents() == before.(cache := cache);
    }

    method HandleCacheToSurface(slot: nat, id: nat, points: seq<(nat, nat)>)
      requires Valid()
      modifies Buffers(), this`frameDirtyRects
      ensures Valid() && Contents() == Restored(old(Contents()), slot, id, points)
    {
      Known();
      hide Contents, Valid, SurfaceOf, PutAll;
      if slot !in cache || id !in surfaces {
        return;
      }
      var e := cache[slot];
      PutEach(id, Picture(e.data, 0, e.width, e.width, e.height), points);
    }

    method HandleEvictCacheEntry(slot: nat)
      requires Valid()
      modifies this`cache
      ensures Valid() && Contents() == Evicted(old(Contents()), slot)
    {
      cache := cache - {slot};
    }

    /** The write-out half of WireToSurface1, on decoded pixels. */
    method HandleWireToSurface(id: nat, a: Area, decoded: seq<Rgba>)
      requires Valid()
      modifies Buffers(), this`frameDirtyRects
      ensures Valid() && Contents() == Received(old(Contents()), id, a, decoded)
    {
      hide *;
      KnownId(id);
      ReceivedIs(Contents(), id, a, decoded);
      if id !in surfaces || a.right <= a.left || a.bottom <= a.top {
        return;
      }
      var w, h := a.right - a.left, a.bottom - a.top;
      if |decoded| < w * h {
        return;
      }
      PutRows(id, Picture(decoded, 0, w, w, h), a.left, a.top);
    }

    method BlitTileClipped(id: nat, tileX: nat, tileY: nat, tile: seq<Rgba>, clip: Area)
      requires Valid() && id in surfaces && id in Contents().surfaces
      modifies Buffers(), this`frameDirtyRects
      ensures Valid() && Contents() == BlitTile(old(Contents()), id, tileX, tileY, tile, clip)
    {
      KnownSurface(id);
      var surf := surfaces[id];
      assert surf.width == Contents().surfaces[id].width && surf.height == Contents().surfaces[id].height;
      hide *;
      var b := TileArea(surf.width, surf.height, tileX, tileY, clip);
      if b.left < b.right && b.top < b.bottom {
        PutRows(id, TilePicture(tile, tileX, tileY, b), b.left, b.top);
      }
    }

    method HandleProgressiveTile(id: nat, tileX: nat, tileY: nat, tile: seq<Rgba>, clip: Area)
      requires Valid()
      modifies Buffers(), this`frameDirtyRects
      ensures Valid() && Contents() == Tiled(old(Contents()), id, tileX, tileY, tile, clip)
    {
      Known();
      hide BlitTile, Contents, Valid, SurfaceOf;
      if id in surfaces {
        BlitTileClipped(id, tileX, tileY, tile, clip);
      }
    }

    method HandleCommand(c: Command)
      requires Valid()
      modifies this, Buffers()
      ensures Valid() && fresh(Buffers() - old(Buffers()))
      ensures Contents() == Step(old(Contents()), c)
    {
      hide Created, Deleted, MappedTo, Restarted, FrameOpened, FrameShown, Filled, Blitted, Saved, Restored, Evicted, Received, Tiled;
      hide Contents, Valid;
      match c
      case CreateSurface(id, w, h) => HandleCreateSurface(id, w, h);
      case DeleteSurface(id) => HandleDeleteSurface(id);
      case MapSurfaceToOutput(id, x, y) => HandleMapSurfaceToOutput(id, x, y);
      case ResetGraphics(w, h) => HandleResetGraphics(w, h);
      case StartFrame => HandleStartFrame();
      case EndFrame => HandleEndFrame();
      case SolidFill(id, color, rects) => HandleSolidFill(id, color, rects);
      case SurfaceToSurface(src, dst, a, points) => HandleSurfaceToSurface(src, dst, a, points);
      case SurfaceToCache(id, slot, a, victim) => HandleSurfaceToCache(id, slot, a, victim);
      case CacheToSurface(slot, id, points) => HandleCacheToSurface(slot, id, points);
      case EvictCacheEntry(slot) => HandleEvictCacheEntry(slot);
      case WireToSurface(id, a, decoded) => HandleWireToSurface(id, a, decoded);
      case ProgressiveTile(id, tileX, tileY, tile, clip) => HandleProgressiveTile(id, tileX, tileY, tile, clip);
    }

    method HandleAll(cs: seq<Command>)
      requires Valid()
      modifies this, Buffers()
      ensures Valid() && fresh(Buffers() - old(Buffers()))
      ensures Contents() == Run(old(Contents()), cs)
    {
      hide Step, Contents, Valid;
      ghost var goal := Run(Contents(), cs);
      assert cs[0..] == cs;
      for i := 0 to |cs|
        invariant Valid() && fresh(Buffers() - old(Buffers())) && Run(Contents(), cs[i..]) == goal
      {
        assert cs[i..][1..] == cs[i + 1..];
        HandleCommand(cs[i]);
      }
      assert cs[|cs|..] == [];
    }
  }
}
