/** The blit orders on the client's pixel buffer. */
module BlitOrders {
  import opened Bits
  import opened Raster
  import opened Framebuffer
  import opened Rop
  import opened Shading
  import opened Blits

  /** What the display callback gets; it is not called for NOTHING. */
  datatype Update = Update(at: Rect, rows: seq<Rgba>)

  /** The update for a painted rectangle: its pixels, bottom row first. */
  function Shown(s: Screen, r: Rect, sh: Shader): Update
    requires Framebuffer.Valid(s) && ShaderOk(sh) && OnScreen(s.width, s.height, r)
  {
    Update(r, Paint(s, r, sh).rows)
  }

  class Canvas {
    var pixels: array<Rgba>
    var width: nat
    var height: nat
    var clip: Clip

    ghost predicate Valid()
      reads this
    {
      pixels.Length == width * height
    }

    ghost function Contents(): Screen
      reads this, pixels
    {
      Screen(width, height, pixels[..])
    }

    method ClipToBounds(x0: int, y0: int, w0: int, h0: int) returns (x: int, y: int, w: int, h: int)
      ensures Rect(x, y, w, h) == ClipTo(clip, Rect(x0, y0, w0, h0))
    {
      x, y, w, h := x0, y0, w0, h0;
      if clip.NoClip? {
        return;
      }
      if x < clip.left { w := w - (clip.left - x); x := clip.left; }
      if y < clip.top { h := h - (clip.top - y); y := clip.top; }
      if x + w > clip.right + 1 { w := clip.right + 1 - x; }
      if y + h > clip.bottom + 1 { h := clip.bottom + 1 - y; }
    }

    /** The screen blits' clamps. */
    method Visible(r: Rect) returns (t: Rect)
      ensures t == Target(width, height, r, clip)
    {
      hide ClipRect, ClipTo;
      if r.w <= 0 || r.h <= 0 { return NOTHING; }
      var a := ClipToScreen(r);
      if a.w <= 0 || a.h <= 0 { return NOTHING; }
      var x, y, w, h := ClipToBounds(a.x, a.y, a.w, a.h);
      if w <= 0 || h <= 0 { return NOTHING; }
      t := Rect(x, y, w, h);
    }

    method ClipToScreen(r: Rect) returns (a: Rect)
      ensures a == ClipRect(width, height, r)
    {
      var x, y, w, h := r.x, r.y, r.w, r.h;
      if x < 0 { w := w + x; x := 0; }
      if y < 0 { h := h + y; y := 0; }
      if x + w > width { w := width - x; }
      if y + h > height { h := height - y; }
      a := Rect(x, y, w, h);
    }

    /** The memory blits' clamps to the bitmap and the screen, both sides in turn. */
    method ClampBoth(p: Placement, entryW: nat, entryH: nat) returns (a: Side, b: Side)
      ensures a == Clamp(entryW, width, Side(p.dst.x, p.dst.w, p.srcX))
      ensures b == Clamp(entryH, height, Side(p.dst.y, p.dst.h, p.srcY))
    {
      var dstX, dstY, srcX, srcY, w, h := p.dst.x, p.dst.y, p.srcX, p.srcY, p.dst.w, p.dst.h;
      if srcX < 0 { dstX := dstX - srcX; w := w + srcX; srcX := 0; }
      if srcY < 0 { dstY := dstY - srcY; h := h + srcY; srcY := 0; }
      if srcX + w > entryW { w := entryW - srcX; }
      if srcY + h > entryH { h := entryH - srcY; }
      if dstX < 0 { srcX := srcX - dstX; w := w + dstX; dstX := 0; }
      if dstY < 0 { srcY := srcY - dstY; h := h + dstY; dstY := 0; }
      if dstX + w > width { w := width - dstX; }
      if dstY + h > height { h := height - dstY; }
      a, b := Side(dstX, w, srcX), Side(dstY, h, srcY);
    }

    method Placed(p: Placement, entryW: nat, entryH: nat) returns (q: Placement)
      ensures q == Place(entryW, entryH, width, height, p, clip)
    {
      hide Clamp, ClipTo;
      var a, b := ClampBoth(p, entryW, entryH);
      if a.len <= 0 || b.len <= 0 { return Placement(NOTHING, 0, 0); }
      var nx, ny, nw, nh := ClipToBounds(a.dst, b.dst, a.len, b.len);
      if nw <= 0 || nh <= 0 { return Placement(NOTHING, 0, 0); }
      q := Placement(Rect(nx, ny, nw, nh), a.src + (nx - a.dst), b.src + (ny - b.dst));
    }

    /** Fill the rectangle and the callback's buffer in one pass. */
    method PaintInto(r: Rect, path: Path, sh: Shader) returns (u: Update)
      requires Valid() && ShaderOk(sh) && Serves(path, sh) && OnScreen(width, height, r) && r.w > 0 && r.h > 0
      modifies pixels
      ensures Framebuffer.Valid(old(Contents()))
      ensures Contents() == old(Contents()).(pixels := Paint(old(Contents()), r, sh).data)
      ensures u == Shown(old(Contents()), r, sh)
    {
      hide ShadeRows, ShaderOk, Serves;
      var fbBaseRow := height - r.y - r.h;
      var render := new Rgba[r.h * r.w];
      RectRowsFit(pixels.Length, width, height, r.x, fbBaseRow, r.w, r.h);
      PaintRect(pixels, render, Index(width, r.x, fbBaseRow), width, r.w, r.h, path, sh, r.x, r.y + r.h - 1);
      u := Update(r, render[..]);
    }

    method ExecutePatBlt(r: Rect, rop: byte, b: BrushSpec, cache: map<nat, CachedBrush>) returns (u: Update)
      requires Valid() && SpecOk(b, cache)
      modifies pixels
      ensures Framebuffer.Valid(old(Contents())) && Contents() == PatBlt(old(Contents()), r, rop, b, cache, clip)
      ensures u.at == (if b.style == 1 && rop != BLACKNESS && rop != WHITENESS then NOTHING else Target(width, height, r, clip))
      ensures OnScreen(width, height, u.at) && u == Shown(old(Contents()), u.at, Pattern(rop, PatBrush(b, cache)))
    {
      hide Paint, Target, PatBrush, SpecOk;
      u := Update(NOTHING, []);
      var t := Visible(r);
      TargetOnScreen(width, height, r, clip);
      PaintNothing(Contents(), Pattern(rop, PatBrush(b, cache)));
      if t == NOTHING {
        return;
      }
      var sh := Pattern(rop, PatBrush(b, cache));
      if rop == BLACKNESS {
        u := PaintInto(t, Black, sh);
      } else if rop == WHITENESS {
        u := PaintInto(t, White, sh);
      } else if b.style == 1 {
        return;
      } else if rop == PATCOPY && b.style != 0 {
        u := PaintInto(t, CopyPattern, sh);
      } else {
        u := PaintInto(t, Operate, sh);
      }
    }

    /** What a memory blit paints. */
    function Painted(p: Placement, entry: Screen): Rect
      reads this
    {
      Place(entry.width, entry.height, width, height, p, clip).dst
    }

    method ExecuteMemBlt(p: Placement, rop: byte, entry: Screen) returns (u: Update)
      requires Valid() && Framebuffer.Valid(entry)
      modifies pixels
      ensures Framebuffer.Valid(old(Contents())) && ShaderOk(Source(p, rop, entry))
      ensures Contents() == MemBlt(old(Contents()), p, entry, Source(p, rop, entry), clip)
      ensures OnScreen(width, height, Painted(p, entry)) && u == Shown(old(Contents()), Painted(p, entry), Source(p, rop, entry))
    {
      u := Blit(p, entry, Source(p, rop, entry), if rop == SRCCOPY then CopySource else Operate);
    }

    method ExecuteMem3Blt(p: Placement, rop: byte, b: BrushSpec, cache: map<nat, CachedBrush>, entry: Screen) returns (u: Update)
      requires Valid() && Framebuffer.Valid(entry) && SpecOk(b, cache)
      modifies pixels
      ensures Framebuffer.Valid(old(Contents())) && ShaderOk(PatternedSource(p, rop, Mem3Brush(b, cache), entry))
      ensures Contents() == MemBlt(old(Contents()), p, entry, PatternedSource(p, rop, Mem3Brush(b, cache), entry), clip)
      ensures OnScreen(width, height, Painted(p, entry)) && u == Shown(old(Contents()), Painted(p, entry), PatternedSource(p, rop, Mem3Brush(b, cache), entry))
    {
      hide SpecOk, Mem3Brush;
      u := Blit(p, entry, PatternedSource(p, rop, Mem3Brush(b, cache), entry), if rop == SRCCOPY then CopySource else Operate);
    }

    method Blit(p: Placement, entry: Screen, sh: Shader, path: Path) returns (u: Update)
      requires Valid() && ShaderOk(sh) && Serves(path, sh)
      modifies pixels
      ensures Framebuffer.Valid(old(Contents())) && Contents() == MemBlt(old(Contents()), p, entry, sh, clip)
      ensures OnScreen(width, height, Painted(p, entry)) && u == Shown(old(Contents()), Painted(p, entry), sh)
    {
      hide Paint, Place, ShaderOk, Serves;
      var q := Placed(p, entry.width, entry.height);
      PlaceKeepsOffset(entry.width, entry.height, width, height, p, clip);
      if q.dst == NOTHING {
        PaintNothing(Contents(), sh);
        return Update(NOTHING, []);
      }
      u := PaintInto(q.dst, path, sh);
    }
  }

  lemma {:induction false} PaintNothing(s: Screen, sh: Shader)
    requires Framebuffer.Valid(s) && ShaderOk(sh)
    ensures OnScreen(s.width, s.height, NOTHING) && Paint(s, NOTHING, sh).data == s.pixels && Shown(s, NOTHING, sh) == Update(NOTHING, [])
  {
  }
}
