/** The blit orders: a chain of clamps finds what is visible, then the rectangle is
    painted. */
module Blits {
  import opened Bits
  import opened Raster
  import opened Framebuffer
  import opened Rop
  import opened Shading

  /** The active clip; its right and bottom edges belong to it. */
  datatype Clip = NoClip | Clip(left: int, top: int, right: int, bottom: int)

  predicate InClip(c: Clip, x: int, y: int) { c.Clip? ==> c.left <= x <= c.right && c.top <= y <= c.bottom }

  /** One side of the client's clipRect: start and length. */
  function ClipSide(lo: int, hi: int, x: int, w: int): (int, int) {
    var (x', w') := if x < lo then (lo, w - (lo - x)) else (x, w);
    (x', if x' + w' > hi + 1 then hi + 1 - x' else w')
  }

  function ClipTo(c: Clip, r: Rect): Rect {
    if c.NoClip? then r
    else
      var (x, w) := ClipSide(c.left, c.right, r.x, r.w);
      var (y, h) := ClipSide(c.top, c.bottom, r.y, r.h);
      Rect(x, y, w, h)
  }

  const NOTHING := Rect(0, 0, 0, 0)

  /** What a screen blit paints. */
  function Target(width: nat, height: nat, r: Rect, clip: Clip): Rect {
    if r.w <= 0 || r.h <= 0 then NOTHING
    else
      var a := ClipRect(width, height, r);
      if a.w <= 0 || a.h <= 0 then NOTHING
      else
        var b := ClipTo(clip, a);
        if b.w <= 0 || b.h <= 0 then NOTHING else b
  }

  /** The part of the rectangle on the screen and in the clip. */
  lemma {:induction false} TargetIsIntersection(width: nat, height: nat, r: Rect, clip: Clip, x: int, y: int)
    ensures Inside(Target(width, height, r, clip), x, y) <==>
              Inside(r, x, y) && 0 <= x < width && 0 <= y < height && InClip(clip, x, y)
  {
  }

  ghost predicate OnScreen(width: nat, height: nat, r: Rect) {
    r.w > 0 && r.h > 0 ==> 0 <= r.x && 0 <= r.y && r.x + r.w <= width && r.y + r.h <= height
  }

  lemma {:induction false} TargetOnScreen(width: nat, height: nat, r: Rect, clip: Clip)
    ensures var t := Target(width, height, r, clip);
            OnScreen(width, height, t) && (t == Rect(0, 0, 0, 0) || (t.w > 0 && t.h > 0))
  {
  }

  /** A memory blit's rectangle and where it reads the cached bitmap. */
  datatype Placement = Placement(dst: Rect, srcX: int, srcY: int)

  /** One side of a memory blit: destination, length, source. */
  datatype Side = Side(dst: int, len: int, src: int)

  /** Clamp to the bitmap, then to the screen. */
  function Clamp(entry: nat, screen: nat, s: Side): Side {
    var a := if s.src < 0 then Side(s.dst - s.src, s.len + s.src, 0) else s;
    var b := if a.src + a.len > entry then a.(len := entry - a.src) else a;
    var c := if b.dst < 0 then Side(0, b.len + b.dst, b.src - b.dst) else b;
    if c.dst + c.len > screen then c.(len := screen - c.dst) else c
  }

  /** The clamps of a memory blit, one after the other: to the bitmap, to the screen, to
      the clip. */
  function Place(entryW: nat, entryH: nat, width: nat, height: nat, p: Placement, clip: Clip): Placement {
    var h, v := Clamp(entryW, width, Side(p.dst.x, p.dst.w, p.srcX)), Clamp(entryH, height, Side(p.dst.y, p.dst.h, p.srcY));
    if h.len <= 0 || v.len <= 0 then Placement(NOTHING, 0, 0)
    else
      var n := ClipTo(clip, Rect(h.dst, v.dst, h.len, v.len));
      if n.w <= 0 || n.h <= 0 then Placement(NOTHING, 0, 0)
      else Placement(n, h.src + (n.x - h.dst), v.src + (n.y - v.dst))
  }

  predicate On(s: Side, x: int) { s.dst <= x < s.dst + s.len }

  lemma {:induction false} ClampIsIntersection(entry: nat, screen: nat, s: Side, x: int)
    ensures On(Clamp(entry, screen, s), x) <==> On(s, x) && 0 <= x < screen && 0 <= x - s.dst + s.src < entry
  {
  }

  lemma {:induction false} ClampKeepsOffset(entry: nat, screen: nat, s: Side)
    ensures var c := Clamp(entry, screen, s);
            && c.src - c.dst == s.src - s.dst
            && (c.len > 0 ==> 0 <= c.dst && c.dst + c.len <= screen && 0 <= c.src && c.src + c.len <= entry)
  {
  }

  /** Exactly the pixels that are in the rectangle, on the screen, in the clip, and whose
      source pixel is in the bitmap. */
  lemma {:induction false} PlaceIsIntersection(entryW: nat, entryH: nat, width: nat, height: nat, p: Placement, clip: Clip, x: int, y: int)
    ensures Inside(Place(entryW, entryH, width, height, p, clip).dst, x, y) <==>
              && Inside(p.dst, x, y) && 0 <= x < width && 0 <= y < height && InClip(clip, x, y)
              && 0 <= x - p.dst.x + p.srcX < entryW && 0 <= y - p.dst.y + p.srcY < entryH
  {
    hide Clamp;
    ClampIsIntersection(entryW, width, Side(p.dst.x, p.dst.w, p.srcX), x);
    ClampIsIntersection(entryH, height, Side(p.dst.y, p.dst.h, p.srcY), y);
  }

  /** The clamps move the source with the destination, and stay inside both. */
  lemma {:induction false} PlaceKeepsOffset(entryW: nat, entryH: nat, width: nat, height: nat, p: Placement, clip: Clip)
    ensures var q := Place(entryW, entryH, width, height, p, clip);
            && OnScreen(width, height, q.dst) && (q.dst == Rect(0, 0, 0, 0) || (q.dst.w > 0 && q.dst.h > 0))
            && OnScreen(entryW, entryH, Rect(q.srcX, q.srcY, q.dst.w, q.dst.h))
            && (q.dst != Rect(0, 0, 0, 0) ==> q.srcX - q.dst.x == p.srcX - p.dst.x && q.srcY - q.dst.y == p.srcY - p.dst.y)
  {
    hide Clamp;
    ClampKeepsOffset(entryW, width, Side(p.dst.x, p.dst.w, p.srcX));
    ClampKeepsOffset(entryH, height, Side(p.dst.y, p.dst.h, p.srcY));
  }

  /** The index of the last pixel of a rectangle of a bottom-up buffer is in range, so
      the check before the loops succeeds. */
  lemma {:induction false} LastIndexInRange(width: nat, height: nat, r: Rect)
    requires OnScreen(width, height, r) && r.w > 0 && r.h > 0
    ensures var top := height - r.y - r.h;
            0 <= (top + r.h - 1) * width + r.x + r.w - 1 < width * height
  {
    RowFits(width, height, r.x, height - r.y - 1, r.w);
  }

  // ---------- the orders as functions of the screen ----------

  /** Paint a rectangle that is on the screen. */
  function Paint(s: Screen, r: Rect, sh: Shader): Painting
    requires Valid(s) && ShaderOk(sh) && OnScreen(s.width, s.height, r)
  {
    if r.w <= 0 || r.h <= 0 then Painting(s.pixels, [])
    else
      RectRowsFit(|s.pixels|, s.width, s.height, r.x, s.height - r.y - r.h, r.w, r.h);
      ShadeRows(s.pixels, Index(s.width, r.x, s.height - r.y - r.h), s.width, r.w, r.h, sh, r.x, r.y + r.h - 1)
  }

  lemma {:induction false} PaintAt(s: Screen, r: Rect, sh: Shader, x: nat, y: nat)
    requires Valid(s) && ShaderOk(sh) && OnScreen(s.width, s.height, r) && x < s.width && y < s.height
    ensures Valid(s.(pixels := Paint(s, r, sh).data))
    ensures At(s.(pixels := Paint(s, r, sh).data), x, y) == if Inside(r, x, y) then Shade(sh, x, y, At(s, x, y)) else At(s, x, y)
  {
    hide ShadeRows, Shade, ShaderOk;
    if r.w > 0 && r.h > 0 {
      var top := s.height - r.y - r.h;
      ShadeRowsAt(s.pixels, s.width, s.height, r.x, top, r.w, r.h, sh, r.x, r.y + r.h - 1, x, s.height - 1 - y);
      hide Index;
    }
  }

  /** The rows given to the display, bottom row first, are the painted screen. */
  lemma {:induction false} PaintShown(s: Screen, r: Rect, sh: Shader, x: nat, y: nat)
    requires Valid(s) && ShaderOk(sh) && OnScreen(s.width, s.height, r) && Inside(r, x, y)
    ensures Valid(s.(pixels := Paint(s, r, sh).data))
    ensures Pick(Paint(s, r, sh).rows, Index(r.w, x - r.x, r.y + r.h - 1 - y)) == At(s.(pixels := Paint(s, r, sh).data), x, y)
  {
    hide ShadeRows, Shade, ShaderOk;
    var top := s.height - r.y - r.h;
    RowsShown(s.pixels, s.width, s.height, r.x, top, r.w, r.h, sh, r.x, r.y + r.h - 1, x - r.x, r.y + r.h - 1 - y);
    IndexInRange(s.width, s.height, x, s.height - 1 - y);
    assert top + (r.y + r.h - 1 - y) == s.height - 1 - y;
    hide Index;
  }

  // ---------- brushes ----------

  datatype CachedBrush = RowsOfBits(rows: seq<byte>) | RowsOfCells(cells: seq<Rgba>)

  /** Brush fields of an order, its two colours converted. */
  datatype BrushSpec = BrushSpec(style: byte, hatch: byte, extra: seq<byte>, orgX: byte, orgY: byte, fg: Rgba, bg: Rgba)

  ghost predicate SpecOk(b: BrushSpec, cache: map<nat, CachedBrush>) {
    && |b.extra| == 7
    && forall i :: i in cache ==> i < 64 && if cache[i].RowsOfBits? then |cache[i].rows| == 8 else |cache[i].cells| == 64
  }

  const HATCHES: seq<seq<byte>> := [
    [0x00, 0x00, 0x00, 0xFF, 0x00, 0x00, 0x00, 0x00],
    [0x08, 0x08, 0x08, 0x08, 0x08, 0x08, 0x08, 0x08],
    [0x80, 0x40, 0x20, 0x10, 0x08, 0x04, 0x02, 0x01],
    [0x01, 0x02, 0x04, 0x08, 0x10, 0x20, 0x40, 0x80],
    [0x08, 0x08, 0x08, 0xFF, 0x08, 0x08, 0x08, 0x08],
    [0x81, 0x42, 0x24, 0x18, 0x18, 0x24, 0x42, 0x81]]

  const ONES: seq<byte> := [0xFF, 0xFF, 0xFF, 0xFF, 0xFF, 0xFF, 0xFF, 0xFF]

  function MonoOf(b: BrushSpec, rows: seq<byte>): Brush { Mono(rows, b.fg, b.bg, b.orgX, b.orgY) }

  function FromCache(b: BrushSpec, c: CachedBrush): Brush {
    match c
    case RowsOfBits(rows) => MonoOf(b, rows)
    case RowsOfCells(cells) => Colored(cells, b.orgX, b.orgY)
  }

  /** The rows of a brush given in the order: the last byte sent is the top row. */
  function GivenRows(b: BrushSpec): seq<byte>
    requires |b.extra| == 7
  {
    [b.extra[6], b.extra[5], b.extra[4], b.extra[3], b.extra[2], b.extra[1], b.extra[0], b.hatch]
  }

  /** resolveBrush: what it does not know is a pattern of ones. */
  function Resolve(b: BrushSpec, cache: map<nat, CachedBrush>): (r: Brush)
    requires SpecOk(b, cache)
    ensures BrushOk(r)
  {
    if b.style >= 0x80 then if b.hatch in cache then FromCache(b, cache[b.hatch]) else MonoOf(b, ONES)
    else if b.style == 3 then MonoOf(b, GivenRows(b))
    else if b.style == 2 && b.hatch < 6 then assert |HATCHES| == 6 && |HATCHES[b.hatch]| == 8; MonoOf(b, HATCHES[b.hatch])
    else MonoOf(b, ONES)
  }

  /** The pattern of a pattern blit; style 1 paints nothing. */
  function PatBrush(b: BrushSpec, cache: map<nat, CachedBrush>): (r: Brush)
    requires SpecOk(b, cache)
    ensures BrushOk(r)
  {
    if b.style <= 1 then Plain(b.fg) else Resolve(b, cache)
  }

  /** The pattern of a memory blit: what it does not know is the foreground colour. */
  function Mem3Brush(b: BrushSpec, cache: map<nat, CachedBrush>): (r: Brush)
    requires SpecOk(b, cache)
    ensures BrushOk(r)
  {
    if b.style <= 1 then Plain(b.fg)
    else if b.style >= 0x80 then if b.hatch in cache then FromCache(b, cache[b.hatch]) else Plain(b.fg)
    else if b.style == 3 then MonoOf(b, GivenRows(b))
    else if b.style == 2 && b.hatch < 6 then assert |HATCHES| == 6 && |HATCHES[b.hatch]| == 8; MonoOf(b, HATCHES[b.hatch])
    else Plain(b.fg)
  }

  /** A brush that neither order can resolve. */
  predicate Unresolved(b: BrushSpec, cache: map<nat, CachedBrush>) {
    if b.style >= 0x80 then b.hatch !in cache else b.style > 3 || (b.style == 2 && b.hatch >= 6)
  }

  lemma {:induction false} UnresolvedBrushes(b: BrushSpec, cache: map<nat, CachedBrush>)
    requires SpecOk(b, cache) && Unresolved(b, cache)
    ensures PatBrush(b, cache) == MonoOf(b, ONES) && Mem3Brush(b, cache) == Plain(b.fg)
  {
  }

  lemma {:induction false} ResolvedBrushes(b: BrushSpec, cache: map<nat, CachedBrush>)
    requires SpecOk(b, cache) && !Unresolved(b, cache)
    ensures PatBrush(b, cache) == Mem3Brush(b, cache)
  {
  }

  lemma {:induction false} PlainPattern(c: Rgba, x: int, y: int)
    ensures PatternAt(Plain(c), x, y) == c
  {
  }

  lemma {:induction false} OnesPattern(b: BrushSpec, x: int, y: int)
    ensures BrushOk(MonoOf(b, ONES)) && PatternAt(MonoOf(b, ONES), x, y) == b.bg
  {
    hide LeftBit;
    OnesAreSet((y - b.orgY) % 8, (x - b.orgX) % 8);
  }

  lemma {:induction false} OnesAreSet(row: nat, k: nat)
    requires row < 8 && k < 8
    ensures LeftBit(ONES[row], k)
  {
    Codes();
    hide BitsOf;
  }

  // ---------- the orders ----------

  /** A pattern blit.  Black and white are painted whatever the brush. */
  function PatBlt(s: Screen, r: Rect, rop: byte, b: BrushSpec, cache: map<nat, CachedBrush>, clip: Clip): (s': Screen)
    requires Valid(s) && SpecOk(b, cache)
    ensures Valid(s') && s'.width == s.width && s'.height == s.height
  {
    var t := Target(s.width, s.height, r, clip);
    TargetOnScreen(s.width, s.height, r, clip);
    if b.style == 1 && rop != BLACKNESS && rop != WHITENESS then s
    else s.(pixels := Paint(s, t, Pattern(rop, PatBrush(b, cache))).data)
  }

  /** For every brush but the null one, each pixel of the rectangle on the screen and in
      the clip becomes the operation on pattern and old pixel; nothing else changes. */
  lemma {:induction false} PatBltAt(s: Screen, r: Rect, rop: byte, b: BrushSpec, cache: map<nat, CachedBrush>, clip: Clip, x: nat, y: nat)
    requires Valid(s) && SpecOk(b, cache) && x < s.width && y < s.height
    ensures At(PatBlt(s, r, rop, b, cache, clip), x, y) ==
              if Inside(r, x, y) && InClip(clip, x, y) && (b.style != 1 || rop == BLACKNESS || rop == WHITENESS)
              then Apply(rop, PatternAt(PatBrush(b, cache), x, y), WHITE, At(s, x, y))
              else At(s, x, y)
  {
    var t := Target(s.width, s.height, r, clip);
    TargetOnScreen(s.width, s.height, r, clip);
    TargetIsIntersection(s.width, s.height, r, clip, x, y);
    hide Target, Paint, Apply, PatternAt, PatBrush, SpecOk;
    PaintAt(s, t, Pattern(rop, PatBrush(b, cache)), x, y);
  }

  /** Painting under a clip is the unclipped painting, restricted to the clip: the
      pattern does not shift. */
  lemma {:induction false} ClipOnlyRestricts(s: Screen, r: Rect, rop: byte, b: BrushSpec, cache: map<nat, CachedBrush>, clip: Clip, x: nat, y: nat)
    requires Valid(s) && SpecOk(b, cache) && x < s.width && y < s.height
    ensures At(PatBlt(s, r, rop, b, cache, clip), x, y) ==
              At(if InClip(clip, x, y) then PatBlt(s, r, rop, b, cache, NoClip) else s, x, y)
  {
    PatBltAt(s, r, rop, b, cache, clip, x, y);
    PatBltAt(s, r, rop, b, cache, NoClip, x, y);
    hide PatBlt, PatternAt, Apply, PatBrush, SpecOk;
  }

  /** A memory blit, with or without a pattern. */
  function MemBlt(s: Screen, p: Placement, entry: Screen, sh: Shader, clip: Clip): (s': Screen)
    requires Valid(s) && ShaderOk(sh)
    ensures Valid(s') && s'.width == s.width && s'.height == s.height
  {
    PlaceKeepsOffset(entry.width, entry.height, s.width, s.height, p, clip);
    s.(pixels := Paint(s, Place(entry.width, entry.height, s.width, s.height, p, clip).dst, sh).data)
  }

  /** The shader of a memory blit: the bitmap lies where the order's corners put it. */
  function Source(p: Placement, rop: byte, entry: Screen): Shader { Cached(rop, entry, p.dst.x - p.srcX, p.dst.y - p.srcY) }

  function PatternedSource(p: Placement, rop: byte, brush: Brush, entry: Screen): Shader {
    Patterned(rop, brush, entry, p.dst.x - p.srcX, p.dst.y - p.srcY)
  }

  /** The pixel of the bitmap that belongs to a screen pixel. */
  predicate Reads(p: Placement, entry: Screen, x: int, y: int) {
    Inside(p.dst, x, y) && 0 <= x - p.dst.x + p.srcX < entry.width && 0 <= y - p.dst.y + p.srcY < entry.height
  }

  lemma {:induction false} BltAt(s: Screen, p: Placement, entry: Screen, sh: Shader, clip: Clip, x: nat, y: nat)
    requires Valid(s) && ShaderOk(sh) && x < s.width && y < s.height
    ensures At(MemBlt(s, p, entry, sh, clip), x, y) ==
              if Reads(p, entry, x, y) && InClip(clip, x, y) then Shade(sh, x, y, At(s, x, y)) else At(s, x, y)
  {
    PlaceKeepsOffset(entry.width, entry.height, s.width, s.height, p, clip);
    PlaceIsIntersection(entry.width, entry.height, s.width, s.height, p, clip, x, y);
    hide Place, Paint, Shade, ShaderOk;
    PaintAt(s, Place(entry.width, entry.height, s.width, s.height, p, clip).dst, sh, x, y);
  }

  lemma {:induction false} ReadsWhere(p: Placement, entry: Screen, x: int, y: int)
    requires Valid(entry) && Reads(p, entry, x, y)
    ensures CachedAt(entry, p.dst.x - p.srcX, p.dst.y - p.srcY, x, y) == At(entry, p.srcX + x - p.dst.x, p.srcY + y - p.dst.y)
  {
    hide At;
    assert x - (p.dst.x - p.srcX) == p.srcX + x - p.dst.x && y - (p.dst.y - p.srcY) == p.srcY + y - p.dst.y;
  }

  lemma {:induction false} ShadeSource(p: Placement, rop: byte, entry: Screen, x: int, y: int, was: Rgba)
    requires Valid(entry) && Reads(p, entry, x, y)
    ensures ShaderOk(Source(p, rop, entry))
    ensures var src := At(entry, p.srcX + x - p.dst.x, p.srcY + y - p.dst.y);
            Shade(Source(p, rop, entry), x, y, was) == if rop == SRCCOPY then src else Apply(rop, WHITE, src, was)
  {
    hide At, CachedAt, Apply;
    ReadsWhere(p, entry, x, y);
  }

  lemma {:induction false} ShadePatterned(p: Placement, rop: byte, brush: Brush, entry: Screen, x: int, y: int, was: Rgba)
    requires Valid(entry) && Reads(p, entry, x, y) && BrushOk(brush)
    ensures ShaderOk(PatternedSource(p, rop, brush, entry))
    ensures var src := At(entry, p.srcX + x - p.dst.x, p.srcY + y - p.dst.y);
            Shade(PatternedSource(p, rop, brush, entry), x, y, was) ==
              if rop == SRCCOPY then src else Apply(rop, PatternAt(brush, x, y), src, was)
  {
    hide At, CachedAt, Apply, PatternAt;
    ReadsWhere(p, entry, x, y);
  }

  /** MemBlt: the source is read at srcLeft + x - left, srcTop + y - top. */
  lemma {:induction false} MemBltAt(s: Screen, p: Placement, rop: byte, entry: Screen, clip: Clip, x: nat, y: nat)
    requires Valid(s) && Valid(entry) && x < s.width && y < s.height
    ensures ShaderOk(Source(p, rop, entry))
    ensures At(MemBlt(s, p, entry, Source(p, rop, entry), clip), x, y) ==
              if Reads(p, entry, x, y) && InClip(clip, x, y) then
                var src := At(entry, p.srcX + x - p.dst.x, p.srcY + y - p.dst.y);
                if rop == SRCCOPY then src else Apply(rop, WHITE, src, At(s, x, y))
              else At(s, x, y)
  {
    assert Reads(p, entry, x, y) ==> Valid(entry) && 0 <= p.srcX + x - p.dst.x < entry.width && 0 <= p.srcY + y - p.dst.y < entry.height;
    hide *;
    BltAt(s, p, entry, Source(p, rop, entry), clip, x, y);
    if Reads(p, entry, x, y) { ShadeSource(p, rop, entry, x, y, At(s, x, y)); }
  }

  /** Mem3Blt: the same source, and a pattern fixed to the screen. */
  lemma {:induction false} Mem3BltAt(s: Screen, p: Placement, rop: byte, brush: Brush, entry: Screen, clip: Clip, x: nat, y: nat)
    requires Valid(s) && Valid(entry) && BrushOk(brush) && x < s.width && y < s.height
    ensures At(MemBlt(s, p, entry, PatternedSource(p, rop, brush, entry), clip), x, y) ==
              if Reads(p, entry, x, y) && InClip(clip, x, y) then
                var src := At(entry, p.srcX + x - p.dst.x, p.srcY + y - p.dst.y);
                if rop == SRCCOPY then src else Apply(rop, PatternAt(brush, x, y), src, At(s, x, y))
              else At(s, x, y)
  {
    assert ShaderOk(PatternedSource(p, rop, brush, entry));
    assert Reads(p, entry, x, y) ==> Valid(entry) && 0 <= p.srcX + x - p.dst.x < entry.width && 0 <= p.srcY + y - p.dst.y < entry.height;
    hide *;
    BltAt(s, p, entry, PatternedSource(p, rop, brush, entry), clip, x, y);
    if Reads(p, entry, x, y) { ShadePatterned(p, rop, brush, entry, x, y, At(s, x, y)); }
  }

  /** A plain copy is the operation whose code says so, but for the alpha byte, which it
      takes from the source. */
  lemma {:induction false} CopyIsOperation(src: Rgba, pat: Rgba, was: Rgba)
    ensures Apply(SRCCOPY, pat, src, was) == src.(a := 0xFF)
    ensures Apply(SRCCOPY, pat, src, was) == src <==> src.a == 0xFF
  {
    SpecialPixels(pat, src, was);
    hide Apply;
  }

  /** A memory blit under a clip is the unclipped one, restricted to the clip. */
  lemma {:induction false} ClipOnlyRestrictsBlt(s: Screen, p: Placement, entry: Screen, sh: Shader, clip: Clip, x: nat, y: nat)
    requires Valid(s) && ShaderOk(sh) && x < s.width && y < s.height
    ensures At(MemBlt(s, p, entry, sh, clip), x, y) == At(if InClip(clip, x, y) then MemBlt(s, p, entry, sh, NoClip) else s, x, y)
  {
    BltAt(s, p, entry, sh, clip, x, y);
    BltAt(s, p, entry, sh, NoClip, x, y);
    hide MemBlt, Shade, ShaderOk;
  }

  // ---------- the pixels bit by bit ----------

  /** A pattern blit: every bit of every channel, from pattern and old pixel. */
  lemma {:induction false} PatBltBits(s: Screen, r: Rect, rop: byte, b: BrushSpec, cache: map<nat, CachedBrush>, clip: Clip, x: nat, y: nat)
    requires Valid(s) && SpecOk(b, cache) && x < s.width && y < s.height
    requires Inside(r, x, y) && InClip(clip, x, y) && (b.style != 1 || rop == 0x00 || rop == 0xFF)
    ensures PixelCombines(rop, PatternAt(PatBrush(b, cache), x, y), Rgba(0xFF, 0xFF, 0xFF, 0xFF), At(s, x, y), At(PatBlt(s, r, rop, b, cache, clip), x, y))
  {
    assert WHITE == Rgba(0xFF, 0xFF, 0xFF, 0xFF) && BLACKNESS == 0x00 && WHITENESS == 0xFF;
    hide PatBlt, PixelCombines, PatternAt, Apply, At, InClip;
    PatBltAt(s, r, rop, b, cache, clip, x, y);
    ApplyCombines(rop, PatternAt(PatBrush(b, cache), x, y), WHITE, At(s, x, y));
  }

  /** A memory blit: every bit, from source and old pixel; the plain copy takes the source
      as it is. */
  lemma {:induction false} MemBltBits(s: Screen, p: Placement, rop: byte, entry: Screen, clip: Clip, x: nat, y: nat)
    requires Valid(s) && Valid(entry) && x < s.width && y < s.height && Reads(p, entry, x, y) && InClip(clip, x, y)
    ensures ShaderOk(Source(p, rop, entry))
    ensures var src, now := At(entry, p.srcX + x - p.dst.x, p.srcY + y - p.dst.y), At(MemBlt(s, p, entry, Source(p, rop, entry), clip), x, y);
            if rop == 0xCC then now == src else PixelCombines(rop, Rgba(0xFF, 0xFF, 0xFF, 0xFF), src, At(s, x, y), now)
  {
    assert WHITE == Rgba(0xFF, 0xFF, 0xFF, 0xFF) && SRCCOPY == 0xCC;
    hide MemBlt, PixelCombines, Apply, At, InClip, Source, ShaderOk;
    MemBltAt(s, p, rop, entry, clip, x, y);
    ApplyCombines(rop, WHITE, At(entry, p.srcX + x - p.dst.x, p.srcY + y - p.dst.y), At(s, x, y));
  }

  /** With a pattern: every bit, from all three. */
  lemma {:induction false} Mem3BltBits(s: Screen, p: Placement, rop: byte, brush: Brush, entry: Screen, clip: Clip, x: nat, y: nat)
    requires Valid(s) && Valid(entry) && BrushOk(brush) && x < s.width && y < s.height && Reads(p, entry, x, y) && InClip(clip, x, y)
    ensures ShaderOk(PatternedSource(p, rop, brush, entry))
    ensures var src, now := At(entry, p.srcX + x - p.dst.x, p.srcY + y - p.dst.y), At(MemBlt(s, p, entry, PatternedSource(p, rop, brush, entry), clip), x, y);
            if rop == 0xCC then now == src else PixelCombines(rop, PatternAt(brush, x, y), src, At(s, x, y), now)
  {
    assert SRCCOPY == 0xCC && ShaderOk(PatternedSource(p, rop, brush, entry));
    hide MemBlt, PixelCombines, Apply, At, InClip, PatternedSource, ShaderOk, PatternAt, BrushOk;
    Mem3BltAt(s, p, rop, brush, entry, clip, x, y);
    ApplyCombines(rop, PatternAt(brush, x, y), At(entry, p.srcX + x - p.dst.x, p.srcY + y - p.dst.y), At(s, x, y));
  }

  // ---------- what the brushes look like ----------

  /** Two colours by a bit: a set one means background. */
  function Two(b: BrushSpec, on: bool): Rgba { if on then b.bg else b.fg }

  /** Bit k of a pattern row, counted from the left. */
  lemma {:induction false} MonoAt(b: BrushSpec, rows: seq<byte>, x: int, y: int)
    requires |rows| == 8
    ensures BrushOk(MonoOf(b, rows))
    ensures PatternAt(MonoOf(b, rows), x, y) == Two(b, Bit(rows[(y - b.orgY) % 8], 7 - (x - b.orgX) % 8) == 1)
  {
    hide BitsOf, Bit;
    BitsAreBits(rows[(y - b.orgY) % 8], 7 - (x - b.orgX) % 8);
  }

  /** Solid brushes are the foreground colour everywhere. */
  lemma {:induction false} SolidAt(b: BrushSpec, cache: map<nat, CachedBrush>, x: int, y: int)
    requires SpecOk(b, cache) && b.style <= 1
    ensures PatternAt(PatBrush(b, cache), x, y) == b.fg && PatternAt(Mem3Brush(b, cache), x, y) == b.fg
  {
    hide Resolve;
  }

  /** A brush given in the order: its last byte is the top row, the hatch byte the bottom
      one. */
  lemma {:induction false} GivenAt(b: BrushSpec, cache: map<nat, CachedBrush>, x: int, y: int)
    requires SpecOk(b, cache) && b.style == 3
    ensures var v, k := (y - b.orgY) % 8, 7 - (x - b.orgX) % 8;
            var row := if v == 7 then b.hatch else b.extra[6 - v];
            && PatternAt(PatBrush(b, cache), x, y) == Two(b, Bit(row, k) == 1)
            && PatternAt(Mem3Brush(b, cache), x, y) == Two(b, Bit(row, k) == 1)
  {
    GivenIs(b, cache, (y - b.orgY) % 8);
    hide *;
    MonoAt(b, GivenRows(b), x, y);
  }

  lemma {:induction false} GivenIs(b: BrushSpec, cache: map<nat, CachedBrush>, v: nat)
    requires SpecOk(b, cache) && b.style == 3 && v < 8
    ensures |b.extra| == 7 && |GivenRows(b)| == 8 && GivenRows(b)[v] == if v == 7 then b.hatch else b.extra[6 - v]
    ensures PatBrush(b, cache) == MonoOf(b, GivenRows(b)) && Mem3Brush(b, cache) == MonoOf(b, GivenRows(b))
  {
  }

  /** The six hatches: a horizontal and a vertical line, the two diagonals, and the two
      crosses. */
  lemma {:induction false} HatchedAt(b: BrushSpec, cache: map<nat, CachedBrush>, x: int, y: int)
    requires SpecOk(b, cache) && b.style == 2 && b.hatch < 6
    ensures var u, v := (x - b.orgX) % 8, (y - b.orgY) % 8;
            var on := match b.hatch
              case 0 => v == 3
              case 1 => u == 4
              case 2 => u == v
              case 3 => u + v == 7
              case 4 => u == 4 || v == 3
              case _ => u == v || u + v == 7;
            PatternAt(PatBrush(b, cache), x, y) == Two(b, on) && PatternAt(Mem3Brush(b, cache), x, y) == Two(b, on)
  {
    HatchedIs(b, cache);
    hide *;
    MonoAt(b, HATCHES[b.hatch], x, y);
    HatchBits(b.hatch, (x - b.orgX) % 8, (y - b.orgY) % 8);
  }

  lemma {:induction false} HatchedIs(b: BrushSpec, cache: map<nat, CachedBrush>)
    requires SpecOk(b, cache) && b.style == 2 && b.hatch < 6
    ensures |HATCHES| == 6 && |HATCHES[b.hatch]| == 8
    ensures PatBrush(b, cache) == MonoOf(b, HATCHES[b.hatch]) && Mem3Brush(b, cache) == MonoOf(b, HATCHES[b.hatch])
  {
  }

  lemma {:induction false} HatchBits(hatch: nat, u: nat, v: nat)
    requires hatch < 6 && u < 8 && v < 8
    ensures |HATCHES| == 6 && |HATCHES[hatch]| == 8
    ensures Bit(HATCHES[hatch][v], 7 - u) == 1 <==>
              match hatch
              case 0 => v == 3
              case 1 => u == 4
              case 2 => u == v
              case 3 => u + v == 7
              case 4 => u == 4 || v == 3
              case _ => u == v || u + v == 7
  {
    assert hatch == 0 || hatch == 1 || hatch == 2 || hatch == 3 || hatch == 4 || hatch == 5;
    assert v == 0 || v == 1 || v == 2 || v == 3 || v == 4 || v == 5 || v == 6 || v == 7;
  }

  /** A cached brush: rows of bits, or cells row by row. */
  lemma {:induction false} CachedBrushAt(b: BrushSpec, cache: map<nat, CachedBrush>, x: int, y: int)
    requires SpecOk(b, cache) && b.style >= 0x80 && b.hatch in cache
    ensures var u, v := (x - b.orgX) % 8, (y - b.orgY) % 8;
            match cache[b.hatch]
            case RowsOfBits(rows) =>
              && |rows| == 8
              && PatternAt(PatBrush(b, cache), x, y) == Two(b, Bit(rows[v], 7 - u) == 1)
              && PatternAt(Mem3Brush(b, cache), x, y) == Two(b, Bit(rows[v], 7 - u) == 1)
            case RowsOfCells(cells) =>
              && |cells| == 64
              && PatternAt(PatBrush(b, cache), x, y) == cells[8 * v + u] && PatternAt(Mem3Brush(b, cache), x, y) == cells[8 * v + u]
  {
    hide Bit, BitsOf;
    if cache[b.hatch].RowsOfBits? {
      MonoAt(b, cache[b.hatch].rows, x, y);
    }
  }

  // ---------- the two orders compared ----------

  /** A bitmap that covers the order's rectangle and is white there: the source that a
      pattern blit stands in for. */
  ghost predicate WhiteSource(p: Placement, entry: Screen) {
    && Valid(entry)
    && forall x, y :: Inside(p.dst, x, y) ==> Reads(p, entry, x, y) && At(entry, p.srcX + x - p.dst.x, p.srcY + y - p.dst.y) == WHITE
  }

  /** A pattern blit and a memory blit with the same brush leave the same pixel. */
  ghost predicate Alike(s: Screen, p: Placement, rop: byte, b: BrushSpec, cache: map<nat, CachedBrush>, entry: Screen, clip: Clip, x: nat, y: nat)
    requires Valid(s) && SpecOk(b, cache) && x < s.width && y < s.height
  {
    At(PatBlt(s, p.dst, rop, b, cache, clip), x, y)
      == At(MemBlt(s, p, entry, PatternedSource(p, rop, Mem3Brush(b, cache), entry), clip), x, y)
  }

  function Opaque(c: Rgba): Rgba { c.(a := 0xFF) }

  /** Over a white source the two orders paint the same, whatever the screen, rectangle,
      code, bitmap and clip, if and only if the brush is not the null brush, which only
      the pattern blit leaves unpainted, and can be resolved: a brush that cannot is the
      background colour to one and the foreground to the other. */
  lemma {:induction false} OrdersAgreeIff(b: BrushSpec, cache: map<nat, CachedBrush>)
    requires SpecOk(b, cache)
    ensures (forall s: Screen, p, rop, entry, clip, x: nat, y: nat ::
               Valid(s) && WhiteSource(p, entry) && x < s.width && y < s.height ==> Alike(s, p, rop, b, cache, entry, clip, x, y))
       <==> b.style != 1 && (Unresolved(b, cache) ==> Opaque(b.fg) == Opaque(b.bg))
  {
    hide *;
    if b.style != 1 && (Unresolved(b, cache) ==> Opaque(b.fg) == Opaque(b.bg)) {
      forall s: Screen, p, rop, entry, clip, x: nat, y: nat | Valid(s) && WhiteSource(p, entry) && x < s.width && y < s.height
        ensures Alike(s, p, rop, b, cache, entry, clip, x, y)
      {
        OrdersAgree(s, p, rop, b, cache, entry, clip, x, y);
      }
    } else {
      OrdersDiffer(b, cache);
      OneDot(WHITE);
    }
  }

  /** A screen colour that a null brush would change. */
  function Other(b: BrushSpec): Rgba { if Opaque(b.fg) == WHITE then CLEAR else WHITE }

  function Dot(c: Rgba): Screen { Screen(1, 1, [c]) }

  const DOT := Placement(Rect(0, 0, 1, 1), 0, 0)

  lemma {:induction false} OneDot(c: Rgba)
    ensures Valid(Dot(c)) && Dot(c).width == 1 && Dot(c).height == 1 && WhiteSource(DOT, Dot(WHITE)) && At(Dot(c), 0, 0) == c
  {
  }

  lemma {:induction false} OrdersDiffer(b: BrushSpec, cache: map<nat, CachedBrush>)
    requires SpecOk(b, cache)
    requires b.style == 1 || (Unresolved(b, cache) && Opaque(b.fg) != Opaque(b.bg))
    ensures var c := Other(b);
            && Valid(Dot(c)) && Dot(c).width == 1 && Dot(c).height == 1
            && !Alike(Dot(c), DOT, PATCOPY, b, cache, Dot(WHITE), NoClip, 0, 0)
  {
    hide *;
    var c := Other(b);
    OneDot(c);
    OneDot(WHITE);
    BrushesOk(b, cache);
    PatDot(b, cache, c);
    Mem3Dot(b, cache, c);
    AlikeMeans(Dot(c), DOT, PATCOPY, b, cache, Dot(WHITE), NoClip, 0, 0);
    PlainPattern(b.fg, 0, 0);
    OtherDiffers(b, cache);
    if b.style != 1 {
      UnresolvedBrushes(b, cache);
      OnesPattern(b, 0, 0);
    }
  }

  lemma {:induction false} OtherDiffers(b: BrushSpec, cache: map<nat, CachedBrush>)
    requires SpecOk(b, cache)
    ensures Other(b) != Opaque(b.fg) && (b.style == 1 ==> Mem3Brush(b, cache) == Plain(b.fg))
  {
  }

  lemma {:induction false} DotPlace()
    ensures InClip(NoClip, 0, 0) && Inside(DOT.dst, 0, 0) && DOT.dst.x == 0 && DOT.dst.y == 0 && DOT.srcX == 0 && DOT.srcY == 0
    ensures PATCOPY != BLACKNESS && PATCOPY != WHITENESS && PATCOPY != SRCCOPY
  {
  }

  lemma {:induction false} PatDot(b: BrushSpec, cache: map<nat, CachedBrush>, c: Rgba)
    requires SpecOk(b, cache)
    ensures Valid(Dot(c)) && Dot(c).width == 1 && Dot(c).height == 1 && BrushOk(PatBrush(b, cache))
    ensures At(PatBlt(Dot(c), DOT.dst, PATCOPY, b, cache, NoClip), 0, 0) == if b.style == 1 then c else Opaque(PatternAt(PatBrush(b, cache), 0, 0))
  {
    hide *;
    OneDot(c);
    DotPlace();
    BrushesOk(b, cache);
    PatBltAt(Dot(c), DOT.dst, PATCOPY, b, cache, NoClip, 0, 0);
    SpecialPixels(PatternAt(PatBrush(b, cache), 0, 0), WHITE, c);
    OpaqueIs(PatternAt(PatBrush(b, cache), 0, 0));
  }

  lemma {:induction false} Mem3Dot(b: BrushSpec, cache: map<nat, CachedBrush>, c: Rgba)
    requires SpecOk(b, cache)
    ensures Valid(Dot(c)) && Dot(c).width == 1 && Dot(c).height == 1 && BrushOk(Mem3Brush(b, cache))
    ensures ShaderOk(PatternedSource(DOT, PATCOPY, Mem3Brush(b, cache), Dot(WHITE)))
    ensures At(MemBlt(Dot(c), DOT, Dot(WHITE), PatternedSource(DOT, PATCOPY, Mem3Brush(b, cache), Dot(WHITE)), NoClip), 0, 0)
              == Opaque(PatternAt(Mem3Brush(b, cache), 0, 0))
  {
    hide *;
    OneDot(c);
    OneDot(WHITE);
    DotPlace();
    BrushesOk(b, cache);
    WhiteReads(DOT, Dot(WHITE), 0, 0);
    AlikeMeans(Dot(c), DOT, PATCOPY, b, cache, Dot(WHITE), NoClip, 0, 0);
    Mem3BltAt(Dot(c), DOT, PATCOPY, Mem3Brush(b, cache), Dot(WHITE), NoClip, 0, 0);
    SpecialPixels(PatternAt(Mem3Brush(b, cache), 0, 0), WHITE, c);
    OpaqueIs(PatternAt(Mem3Brush(b, cache), 0, 0));
  }

  lemma {:induction false} OpaqueIs(c: Rgba)
    ensures Opaque(c) == c.(a := 0xFF)
  {
  }

  lemma {:induction false} AlikeMeans(s: Screen, p: Placement, rop: byte, b: BrushSpec, cache: map<nat, CachedBrush>, entry: Screen, clip: Clip, x: nat, y: nat)
    requires Valid(s) && SpecOk(b, cache) && x < s.width && y < s.height
    ensures BrushOk(Mem3Brush(b, cache)) && ShaderOk(PatternedSource(p, rop, Mem3Brush(b, cache), entry))
    ensures Alike(s, p, rop, b, cache, entry, clip, x, y) <==>
              At(PatBlt(s, p.dst, rop, b, cache, clip), x, y)
                == At(MemBlt(s, p, entry, PatternedSource(p, rop, Mem3Brush(b, cache), entry), clip), x, y)
  {
    hide PatBlt, MemBlt, At;
  }

  lemma {:induction false} BrushesOk(b: BrushSpec, cache: map<nat, CachedBrush>)
    requires SpecOk(b, cache)
    ensures BrushOk(Mem3Brush(b, cache)) && BrushOk(PatBrush(b, cache))
  {
  }

  lemma {:induction false} WhiteReads(p: Placement, entry: Screen, x: int, y: int)
    requires WhiteSource(p, entry)
    ensures Valid(entry) && (Reads(p, entry, x, y) <==> Inside(p.dst, x, y))
    ensures Reads(p, entry, x, y) ==>
              && 0 <= p.srcX + x - p.dst.x < entry.width && 0 <= p.srcY + y - p.dst.y < entry.height
              && At(entry, p.srcX + x - p.dst.x, p.srcY + y - p.dst.y) == WHITE
  {
    hide At;
  }

  lemma {:induction false} OrdersAgree(s: Screen, p: Placement, rop: byte, b: BrushSpec, cache: map<nat, CachedBrush>, entry: Screen, clip: Clip, x: nat, y: nat)
    requires Valid(s) && SpecOk(b, cache) && WhiteSource(p, entry) && x < s.width && y < s.height
    requires b.style != 1 && (Unresolved(b, cache) ==> Opaque(b.fg) == Opaque(b.bg))
    ensures Alike(s, p, rop, b, cache, entry, clip, x, y)
  {
    hide *;
    var was := At(s, x, y);
    WhiteReads(p, entry, x, y);
    BrushesOk(b, cache);
    AlikeMeans(s, p, rop, b, cache, entry, clip, x, y);
    PatBltAt(s, p.dst, rop, b, cache, clip, x, y);
    Mem3BltAt(s, p, rop, Mem3Brush(b, cache), entry, clip, x, y);
    SamePattern(b, cache, rop, was, x, y);
    SpecialPixels(PatternAt(Mem3Brush(b, cache), x, y), WHITE, was);
    WhiteIsOpaque();
  }

  lemma {:induction false} WhiteIsOpaque()
    ensures WHITE.(a := 0xFF) == WHITE
  {
  }

  lemma {:induction false} SamePattern(b: BrushSpec, cache: map<nat, CachedBrush>, rop: byte, was: Rgba, x: int, y: int)
    requires SpecOk(b, cache) && (Unresolved(b, cache) ==> Opaque(b.fg) == Opaque(b.bg))
    ensures BrushOk(PatBrush(b, cache)) && BrushOk(Mem3Brush(b, cache))
    ensures Apply(rop, PatternAt(PatBrush(b, cache), x, y), WHITE, was) == Apply(rop, PatternAt(Mem3Brush(b, cache), x, y), WHITE, was)
  {
    hide *;
    BrushesOk(b, cache);
    if Unresolved(b, cache) {
      UnresolvedBrushes(b, cache);
      OnesPattern(b, x, y);
      PlainPattern(b.fg, x, y);
      ApplyOpaque(rop, b.fg, b.bg, was);
    } else {
      ResolvedBrushes(b, cache);
    }
  }

  lemma {:induction false} ApplyOpaque(rop: byte, p: Rgba, q: Rgba, was: Rgba)
    ensures Opaque(p) == Opaque(q) ==> Apply(rop, p, WHITE, was) == Apply(rop, q, WHITE, was)
  {
    hide ByteOp;
  }
}
