/** Pixel buffers stored row by row, and the row-copying loop every blit uses.

    A pixel is four bytes and every offset in the program is a multiple of four, so a
    buffer is modelled as a sequence of pixels and offsets count pixels. */
module Raster {
  import opened Bits

  datatype Rgba = Rgba(r: byte, g: byte, b: byte, a: byte)

  const WHITE := Rgba(0xFF, 0xFF, 0xFF, 0xFF)
  const CLEAR := Rgba(0, 0, 0, 0)

  /** Overwrite data at off, if the new part and its place both exist. */
  function Splice(data: seq<Rgba>, off: int, src: seq<Rgba>, srcOff: int, n: nat): (d: seq<Rgba>)
    ensures |d| == |data|
  {
    if 0 <= off && off + n <= |data| && 0 <= srcOff && srcOff + n <= |src| then
      data[..off] + src[srcOff..srcOff + n] + data[off + n..]
    else data
  }

  /** rows times: copy n pixels, then advance both offsets by their strides.  A row
      that does not fit either buffer is skipped. */
  function CopyRows(data: seq<Rgba>, off: int, stride: int, src: seq<Rgba>, srcOff: int, srcStride: int, n: nat, rows: nat): (d: seq<Rgba>)
    ensures |d| == |data|
    decreases rows
  {
    if rows == 0 then data
    else CopyRows(Splice(data, off, src, srcOff, n), off + stride, stride, src, srcOff + srcStride, srcStride, n, rows - 1)
  }

  /** Position of column x of row y. */
  function Index(width: nat, x: nat, y: nat): nat { y * width + x }

  lemma {:induction false} IndexInRange(width: nat, height: nat, x: nat, y: nat)
    requires x < width && y < height
    ensures Index(width, x, y) < width * height
  {
    MulAtLeast(height - y, width);
    assert height * width == y * width + (height - y) * width;
  }

  /** A row's stretch of the buffer holds exactly that row's columns. */
  lemma {:induction false} IndexInBand(width: nat, x: nat, y: nat, left: nat, top: nat, n: nat)
    requires x < width && left + n <= width
    ensures Index(width, left, top) <= Index(width, x, y) < Index(width, left, top) + n <==> y == top && left <= x < left + n
  {
    MulAtLeast(top - y, width);
    MulAtLeast(y - top, width);
    assert (top - y) * width == top * width - y * width && (y - top) * width == y * width - top * width;
  }

  lemma {:induction false} NextRow(width: int, x: int, y: int)
    ensures (y + 1) * width + x == y * width + x + width
  {
  }

  /** Rows rows of n source pixels are available from srcOff at the given stride. */
  ghost predicate SourceOk(src: seq<Rgba>, srcOff: int, srcStride: int, n: nat, rows: nat) {
    forall r :: 0 <= r < rows ==> 0 <= SourceRow(srcOff, srcStride, r) && SourceRow(srcOff, srcStride, r) + n <= |src|
  }

  function SourceRow(srcOff: int, srcStride: int, r: int): int { srcOff + r * srcStride }

  predicate InRect(x: int, y: int, left: int, top: int, w: int, h: int) {
    left <= x < left + w && top <= y < top + h
  }

  lemma {:induction false} SourceRowShift(srcOff: int, srcStride: int, r: int)
    ensures SourceRow(srcOff + srcStride, srcStride, r) == SourceRow(srcOff, srcStride, r + 1)
  {
  }

  lemma {:induction false} SourceTail(src: seq<Rgba>, srcOff: int, srcStride: int, n: nat, rows: nat)
    requires rows > 0 && SourceOk(src, srcOff, srcStride, n, rows)
    ensures SourceOk(src, srcOff + srcStride, srcStride, n, rows - 1)
    ensures 0 <= srcOff && srcOff + n <= |src|
  {
    assert SourceRow(srcOff, srcStride, 0) == srcOff;
    var off := srcOff + srcStride;
    forall r | 0 <= r < rows - 1
      ensures 0 <= SourceRow(off, srcStride, r) && SourceRow(off, srcStride, r) + n <= |src|
    {
      SourceRowShift(srcOff, srcStride, r);
    }
  }

  /** The copy of a rectangle that does not run past the right edge: its pixels come from
      the source rows and every other pixel stays.  Rows below the buffer are skipped. */
  lemma {:induction false} CopyRowsAt(data: seq<Rgba>, width: nat, height: nat, left: nat, top: nat,
      src: seq<Rgba>, srcOff: int, srcStride: int, n: nat, rows: nat, x: nat, y: nat)
    requires |data| == width * height && left + n <= width && x < width && y < height
    requires SourceOk(src, srcOff, srcStride, n, rows)
    ensures Index(width, x, y) < |data|
    ensures CopyRows(data, Index(width, left, top), width, src, srcOff, srcStride, n, rows)[Index(width, x, y)] ==
      if InRect(x, y, left, top, n, rows) then src[SourceRow(srcOff, srcStride, y - top) + (x - left)]
      else data[Index(width, x, y)]
    decreases rows
  {
    hide *;
    IndexInRange(width, height, x, y);
    RectCons(left, top, n, rows, x, y);
    CopyRowsCons(data, Index(width, left, top), width, src, srcOff, srcStride, n, rows);
    if rows > 0 {
      SourceTail(src, srcOff, srcStride, n, rows);
      NextIndex(width, left, top);
      CopyRowsAt(Splice(data, Index(width, left, top), src, srcOff, n), width, height, left, top + 1,
                 src, srcOff + srcStride, srcStride, n, rows - 1, x, y);
      SourceRowShift(srcOff, srcStride, y - top - 1);
      SpliceAt(data, width, height, left, top, src, srcOff, n, x, y);
      FirstSourceRow(srcOff, srcStride);
    }
  }

  lemma {:induction false} NextIndex(width: nat, left: nat, top: nat)
    ensures Index(width, left, top) + width == Index(width, left, top + 1)
  {
    NextRow(width, left, top);
  }

  lemma {:induction false} FirstSourceRow(srcOff: int, srcStride: int)
    ensures SourceRow(srcOff, srcStride, 0) == srcOff
  {
  }

  lemma {:induction false} CopyRowsCons(data: seq<Rgba>, off: int, stride: int, src: seq<Rgba>, srcOff: int, srcStride: int, n: nat, rows: nat)
    ensures CopyRows(data, off, stride, src, srcOff, srcStride, n, rows) ==
              if rows == 0 then data
              else CopyRows(Splice(data, off, src, srcOff, n), off + stride, stride, src, srcOff + srcStride, srcStride, n, rows - 1)
  {
    hide Splice;
  }

  /** A rectangle is its first row and the others. */
  lemma {:induction false} RectCons(left: int, top: int, n: int, rows: nat, x: int, y: int)
    ensures InRect(x, y, left, top, n, rows) <==>
              rows > 0 && ((y == top && left <= x < left + n) || InRect(x, y, left, top + 1, n, rows - 1))
    ensures InRect(x, y, left, top + 1, n, rows - 1) ==> y > top
  {
  }

  lemma {:induction false} SpliceBelow(data: seq<Rgba>, width: nat, height: nat, left: nat, top: nat, src: seq<Rgba>, srcOff: int, n: nat)
    requires |data| == width * height && top >= height
    ensures Splice(data, Index(width, left, top), src, srcOff, n) == data
  {
    MulGrows(height, top, width);
    assert height * width == width * height;
    if n == 0 && Index(width, left, top) <= |data| {
      assert data[..Index(width, left, top)] + [] + data[Index(width, left, top)..] == data;
    }
  }

  /** Outside the rectangle nothing changes, whatever the source offers. */
  lemma {:induction false} CopyRowsOutside(data: seq<Rgba>, width: nat, height: nat, left: nat, top: nat,
      src: seq<Rgba>, srcOff: int, srcStride: int, n: nat, rows: nat, x: nat, y: nat)
    requires |data| == width * height && left + n <= width && x < width && y < height
    requires !InRect(x, y, left, top, n, rows)
    ensures Index(width, x, y) < |data|
    ensures CopyRows(data, Index(width, left, top), width, src, srcOff, srcStride, n, rows)[Index(width, x, y)] == data[Index(width, x, y)]
    decreases rows
  {
    IndexInRange(width, height, x, y);
    if rows > 0 {
      NextRow(width, left, top);
      CopyRowsOutside(Splice(data, Index(width, left, top), src, srcOff, n), width, height, left, top + 1, src, srcOff + srcStride, srcStride, n, rows - 1, x, y);
      IndexInBand(width, x, y, left, top, n);
    }
  }

  lemma {:induction false} SpliceAt(data: seq<Rgba>, width: nat, height: nat, left: nat, top: nat,
      src: seq<Rgba>, srcOff: int, n: nat, x: nat, y: nat)
    requires |data| == width * height && left + n <= width && x < width && y < height
    requires 0 <= srcOff && srcOff + n <= |src|
    ensures Index(width, x, y) < |data|
    ensures Splice(data, Index(width, left, top), src, srcOff, n)[Index(width, x, y)] ==
      if y == top && left <= x < left + n then src[srcOff + (x - left)] else data[Index(width, x, y)]
  {
    IndexInRange(width, height, x, y);
    if top < height {
      RowFits(width, height, left, top, n);
      IndexInBand(width, x, y, left, top, n);
    } else {
      SpliceBelow(data, width, height, left, top, src, srcOff, n);
      hide Splice;
    }
  }

  lemma {:induction false} RowFits(width: nat, height: nat, left: nat, top: nat, n: nat)
    requires left + n <= width && top < height
    ensures Index(width, left, top) + n <= width * height
  {
    MulAtLeast(height - top, width);
    assert height * width == top * width + (height - top) * width;
  }

  // ---------- solid rows ----------

  /** Set n pixels from off on, one by one, skipping those past the end. */
  function FillRow(data: seq<Rgba>, off: nat, n: nat, c: Rgba): (d: seq<Rgba>)
    ensures |d| == |data|
    ensures forall i :: 0 <= i < |data| ==> d[i] == if off <= i < off + n then c else data[i]
    decreases n
  {
    if n == 0 then data
    else FillRow(if off < |data| then data[off := c] else data, off + 1, n - 1, c)
  }

  function FillRows(data: seq<Rgba>, off: nat, stride: nat, n: nat, rows: nat, c: Rgba): (d: seq<Rgba>)
    ensures |d| == |data|
    decreases rows
  {
    if rows == 0 then data else FillRows(FillRow(data, off, n, c), off + stride, stride, n, rows - 1, c)
  }

  lemma {:induction false} FillRowsAt(data: seq<Rgba>, width: nat, height: nat, left: nat, top: nat, n: nat, rows: nat, c: Rgba, x: nat, y: nat)
    requires |data| == width * height && left + n <= width && x < width && y < height
    ensures Index(width, x, y) < |data|
    ensures FillRows(data, Index(width, left, top), width, n, rows, c)[Index(width, x, y)] ==
      if InRect(x, y, left, top, n, rows) then c else data[Index(width, x, y)]
    decreases rows
  {
    IndexInRange(width, height, x, y);
    if rows > 0 {
      NextRow(width, left, top);
      FillRowsAt(FillRow(data, Index(width, left, top), n, c), width, height, left, top + 1, n, rows - 1, c, x, y);
      IndexInBand(width, x, y, left, top, n);
    }
  }

  // ---------- the loops ----------

  /** copy(dst[off:off+n], src[srcOff:srcOff+n]), if both stretches exist. */
  method CopyRow(dst: array<Rgba>, off: int, src: seq<Rgba>, srcOff: int, n: nat)
    modifies dst
    ensures dst[..] == Splice(old(dst[..]), off, src, srcOff, n)
  {
    if 0 <= off && off + n <= dst.Length && 0 <= srcOff && srcOff + n <= |src| {
      forall i | 0 <= i < n {
        dst[off + i] := src[srcOff + i];
      }
    }
  }

  method BlitRows(dst: array<Rgba>, off: int, stride: int, src: seq<Rgba>, srcOff: int, srcStride: int, n: nat, rows: nat)
    modifies dst
    ensures dst[..] == CopyRows(old(dst[..]), off, stride, src, srcOff, srcStride, n, rows)
  {
    hide Splice;
    ghost var goal := CopyRows(dst[..], off, stride, src, srcOff, srcStride, n, rows);
    var dOff, sOff := off, srcOff;
    for row := 0 to rows
      invariant CopyRows(dst[..], dOff, stride, src, sOff, srcStride, n, rows - row) == goal
    {
      CopyRow(dst, dOff, src, sOff, n);
      dOff, sOff := dOff + stride, sOff + srcStride;
    }
  }

  method PaintRow(dst: array<Rgba>, off: nat, n: nat, c: Rgba)
    modifies dst
    ensures dst[..] == FillRow(old(dst[..]), off, n, c)
  {
    ghost var goal := FillRow(dst[..], off, n, c);
    for col := 0 to n
      invariant FillRow(dst[..], off + col, n - col, c) == goal
    {
      if off + col < dst.Length {
        ghost var before := dst[..];
        dst[off + col] := c;
        assert dst[..] == before[off + col := c];
      }
    }
  }

  method PaintRows(dst: array<Rgba>, off: nat, stride: nat, n: nat, rows: nat, c: Rgba)
    modifies dst
    ensures dst[..] == FillRows(old(dst[..]), off, stride, n, rows, c)
  {
    ghost var goal := FillRows(dst[..], off, stride, n, rows, c);
    var rowOff: nat := off;
    for row := 0 to rows
      invariant FillRows(dst[..], rowOff, stride, n, rows - row, c) == goal
    {
      PaintRow(dst, rowOff, n, c);
      rowOff := rowOff + stride;
    }
  }
}
