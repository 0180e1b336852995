/** The client's screen buffer: bottom-up rows, written by clipped rectangle copies. */
module Framebuffer {
  import opened Bits
  import opened Raster

  datatype Screen = Screen(width: nat, height: nat, pixels: seq<Rgba>)

  predicate Valid(s: Screen) { |s.pixels| == s.width * s.height }

  /** The pixel at column x of the row y from the top. */
  function At(s: Screen, x: int, y: int): Rgba
    requires Valid(s) && 0 <= x < s.width && 0 <= y < s.height
  {
    IndexInRange(s.width, s.height, x, s.height - 1 - y);
    s.pixels[Index(s.width, x, s.height - 1 - y)]
  }

  datatype Rect = Rect(x: int, y: int, w: int, h: int)

  /** clipRect, step by step as the program shrinks the rectangle. */
  function ClipRect(width: nat, height: nat, r: Rect): Rect {
    var (x, w) := if r.x < 0 then (0, r.w + r.x) else (r.x, r.w);
    var (y, h) := if r.y < 0 then (0, r.h + r.y) else (r.y, r.h);
    Rect(x, y, if x + w > width then width - x else w, if y + h > height then height - y else h)
  }

  predicate Inside(r: Rect, x: int, y: int) { InRect(x, y, r.x, r.y, r.w, r.h) }

  /** The clipped rectangle is the part of the rectangle that is on the screen. */
  lemma {:induction false} ClipIsIntersection(width: nat, height: nat, r: Rect, x: int, y: int)
    ensures Inside(ClipRect(width, height, r), x, y) <==> Inside(r, x, y) && 0 <= x < width && 0 <= y < height
  {
  }

  /** Copy a top-down source of the given stride; src is the buffer from the
      rectangle's first pixel on. */
  function WriteStridedTopDown(s: Screen, r: Rect, src: seq<Rgba>, srcStride: int): (s': Screen)
    ensures s'.width == s.width && s'.height == s.height && |s'.pixels| == |s.pixels|
  {
    if srcStride < r.w || |src| < (r.h - 1) * srcStride + r.w then s
    else
      var c := ClipRect(s.width, s.height, r);
      if c.w <= 0 || c.h <= 0 then s
      else
        s.(pixels := CopyRows(s.pixels, (s.height - c.y - c.h) * s.width + c.x, s.width, src, (c.h - 1) * srcStride, 0 - srcStride, c.w, c.h))
  }

  /** Reading the source rows from the last to the first. */
  lemma {:induction false} BackwardRow(start: int, step: int, stride: nat, h: nat, r: int)
    requires start == (h - 1) * stride && step == 0 - stride
    ensures SourceRow(start, step, r) == (h - 1 - r) * stride
  {
  }

  lemma {:induction false} BackwardSource(src: seq<Rgba>, start: int, step: int, stride: nat, w: nat, h: nat, w': nat, h': nat)
    requires 0 < h' <= h && w' <= w && |src| >= (h - 1) * stride + w
    requires start == (h' - 1) * stride && step == 0 - stride
    ensures SourceOk(src, start, step, w', h')
  {
    forall r | 0 <= r < h'
      ensures 0 <= SourceRow(start, step, r) && SourceRow(start, step, r) + w' <= |src|
    {
      BackwardRow(start, step, stride, h', r);
      RowBound(h - 1, h' - 1 - r, stride);
    }
  }

  lemma {:induction false} RowBound(a: nat, b: nat, d: nat)
    requires b <= a
    ensures 0 <= b * d <= a * d
  {
    if b < a {
      MulLessOrEqual(b, a, d);
    }
  }

  lemma {:induction false} MulLessOrEqual(a: nat, b: nat, d: nat)
    requires a <= b
    ensures a * d <= b * d
  {
    MulAtLeast(b - a, d);
    assert b * d == a * d + (b - a) * d;
  }

  /** What the write does, pixel by pixel, for every rectangle and source. */
  lemma {:induction false} WriteStridedAt(s: Screen, r: Rect, src: seq<Rgba>, srcStride: int, x: int, y: int)
    requires Valid(s) && 0 <= x < s.width && 0 <= y < s.height
    ensures var c := ClipRect(s.width, s.height, r);
            var i := (y - c.y) * srcStride + (x - c.x);
            if srcStride >= r.w && |src| >= (r.h - 1) * srcStride + r.w && Inside(r, x, y) then
              0 <= i < |src| && At(WriteStridedTopDown(s, r, src, srcStride), x, y) == src[i]
            else At(WriteStridedTopDown(s, r, src, srcStride), x, y) == At(s, x, y)
  {
    var c := ClipRect(s.width, s.height, r);
    ClipIsIntersection(s.width, s.height, r, x, y);
    if srcStride >= r.w && |src| >= (r.h - 1) * srcStride + r.w && c.w > 0 && c.h > 0 {
      BackwardSource(src, (c.h - 1) * srcStride, 0 - srcStride, srcStride, r.w, r.h, c.w, c.h);
      hide CopyRows, Index, SourceRow;
      ClippedCopyAt(s, c, src, srcStride, x, y);
    }
  }

  lemma {:induction false} ClippedCopyAt(s: Screen, c: Rect, src: seq<Rgba>, stride: nat, x: nat, y: nat)
    requires Valid(s) && x < s.width && y < s.height
    requires 0 <= c.x && 0 <= c.y && 0 < c.w && 0 < c.h && c.x + c.w <= s.width && c.y + c.h <= s.height
    requires SourceOk(src, (c.h - 1) * stride, 0 - stride, c.w, c.h)
    ensures var i := (y - c.y) * stride + (x - c.x);
            var s' := s.(pixels := CopyRows(s.pixels, (s.height - c.y - c.h) * s.width + c.x, s.width, src, (c.h - 1) * stride, 0 - stride, c.w, c.h));
            if Inside(c, x, y) then 0 <= i < |src| && At(s', x, y) == src[i] else At(s', x, y) == At(s, x, y)
  {
    hide CopyRows;
    var top, row := s.height - c.y - c.h, s.height - 1 - y;
    var start, step := (c.h - 1) * stride, 0 - stride;
    CopyRowsAt(s.pixels, s.width, s.height, c.x, top, src, start, step, c.w, c.h, x, row);
    BackwardRow(start, step, stride, c.h, row - top);
  }

  /** The pixel written is the one the rectangle's own coordinates mean exactly when
      the rectangle does not start left of or above the screen. */
  lemma {:induction false} SourceUnshiftedIff(s: Screen, r: Rect, srcStride: int, x: int, y: int)
    requires srcStride > 0 && Inside(r, x, y) && 0 <= x < s.width && 0 <= y < s.height
    ensures var c := ClipRect(s.width, s.height, r);
            (y - c.y) * srcStride + (x - c.x) == (y - r.y) * srcStride + (x - r.x) <==> r.x >= 0 && r.y >= 0
  {
    var c := ClipRect(s.width, s.height, r);
    assert (y - r.y) * srcStride == (y - c.y) * srcStride + (c.y - r.y) * srcStride;
    MulAtLeast(c.y - r.y, srcStride);
  }

  /** Rows are stored from the bottom up. */
  lemma {:induction false} RawAt(s: Screen, x: nat, y: nat, i: nat)
    requires Valid(s) && x < s.width && y < s.height && i == (s.height - 1 - y) * s.width + x
    ensures i < |s.pixels| && At(s, x, y) == s.pixels[i]
  {
    RawIndex(s.width, x, s.height - 1 - y, i);
    hide Index;
  }

  lemma {:induction false} RawIndex(width: nat, x: nat, row: nat, i: nat)
    requires i == row * width + x
    ensures Index(width, x, row) == i
  {
  }

  /** The buffer after a write: where the rectangle is on the screen, the source's pixel in
      its row and column counted from the rectangle's first place that is on it; elsewhere,
      and for a source too short or too narrow, the old pixel. */
  lemma {:induction false} RawWritten(s: Screen, r: Rect, src: seq<Rgba>, stride: int, x: nat, y: nat, i: nat, j: int)
    requires Valid(s) && x < s.width && y < s.height && i == (s.height - 1 - y) * s.width + x
    requires var x0, y0 := if r.x < 0 then 0 else r.x, if r.y < 0 then 0 else r.y;
             j == (y - y0) * stride + (x - x0)
    ensures var s' := WriteStridedTopDown(s, r, src, stride);
            && s'.width == s.width && s'.height == s.height && |s'.pixels| == |s.pixels| && i < |s.pixels|
            && if stride >= r.w && |src| >= (r.h - 1) * stride + r.w && r.x <= x < r.x + r.w && r.y <= y < r.y + r.h
               then 0 <= j < |src| && s'.pixels[i] == src[j] else s'.pixels[i] == s.pixels[i]
  {
    RawAt(s, x, y, i);
    RawAt(WriteStridedTopDown(s, r, src, stride), x, y, i);
    ClippedCorner(s.width, s.height, r);
    WriteStridedAt(s, r, src, stride, x, y);
    hide WriteStridedTopDown, At;
  }

  lemma {:induction false} ClippedCorner(width: nat, height: nat, r: Rect)
    ensures var c := ClipRect(width, height, r); c.x == (if r.x < 0 then 0 else r.x) && c.y == (if r.y < 0 then 0 else r.y)
  {
  }
}
