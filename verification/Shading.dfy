/** Painting a rectangle pixel by pixel, each new pixel computed from its place on the
    screen and the old pixel. */
module Shading {
  import opened Bits
  import opened Raster
  import opened Framebuffer
  import opened Rop

  /** An 8x8 pattern: one colour, two colours by bits, or 64 colours. */
  datatype Brush =
    | Plain(color: Rgba)
    | Mono(rows: seq<byte>, fg: Rgba, bg: Rgba, orgX: int, orgY: int)
    | Colored(cells: seq<Rgba>, orgX: int, orgY: int)

  predicate BrushOk(b: Brush) {
    match b
    case Plain(_) => true
    case Mono(rows, _, _, _, _) => |rows| == 8
    case Colored(cells, _, _) => |cells| == 64
  }

  /** Bit k of a pattern row, counted from the left. */
  function LeftBit(row: byte, k: nat): bool
    requires k < 8
  {
    BitsOf(row)[7 - k]
  }

  /** The pattern's colour at a place on the screen; a set bit means background. */
  function PatternAt(b: Brush, x: int, y: int): Rgba
    requires BrushOk(b)
  {
    match b
    case Plain(color) => color
    case Mono(rows, fg, bg, orgX, orgY) => if LeftBit(rows[(y - orgY) % 8], (x - orgX) % 8) then bg else fg
    case Colored(cells, orgX, orgY) => cells[(y - orgY) % 8 * 8 + (x - orgX) % 8]
  }

  /** A cached bitmap's pixel, placed on the screen with its corner at (dx, dy). */
  function CachedAt(entry: Screen, dx: int, dy: int, x: int, y: int): Rgba {
    if Valid(entry) && 0 <= x - dx < entry.width && 0 <= y - dy < entry.height then At(entry, x - dx, y - dy) else CLEAR
  }

  /** What a blit computes for a pixel. */
  datatype Shader =
    | Pattern(rop: byte, brush: Brush)
    | Cached(rop: byte, entry: Screen, dx: int, dy: int)
    | Patterned(rop: byte, brush: Brush, entry: Screen, dx: int, dy: int)

  ghost predicate ShaderOk(sh: Shader) { !sh.Cached? ==> BrushOk(sh.brush) }

  /** One specification per order: the ternary operation on pattern, source and old
      pixel, where a missing operand is all ones; a plain copy keeps the source's alpha. */
  function Shade(sh: Shader, x: int, y: int, was: Rgba): Rgba
    requires ShaderOk(sh)
  {
    match sh
    case Pattern(rop, brush) => Apply(rop, PatternAt(brush, x, y), WHITE, was)
    case Cached(rop, entry, dx, dy) =>
      if rop == SRCCOPY then CachedAt(entry, dx, dy, x, y) else Apply(rop, WHITE, CachedAt(entry, dx, dy, x, y), was)
    case Patterned(rop, brush, entry, dx, dy) =>
      if rop == SRCCOPY then CachedAt(entry, dx, dy, x, y)
      else Apply(rop, PatternAt(brush, x, y), CachedAt(entry, dx, dy, x, y), was)
  }

  /** n pixels from off on, the first at column x of screen row y. */
  function ShadeRow(data: seq<Rgba>, off: int, n: nat, sh: Shader, x: int, y: int): (d: seq<Rgba>)
    requires ShaderOk(sh) && 0 <= off && off + n <= |data|
    ensures |d| == |data|
    decreases n
  {
    if n == 0 then data else ShadeRow(data[off := Shade(sh, x, y, data[off])], off + 1, n - 1, sh, x + 1, y)
  }

  lemma {:induction false} ShadeRowAt(data: seq<Rgba>, off: int, n: nat, sh: Shader, x: int, y: int, i: nat)
    requires ShaderOk(sh) && 0 <= off && off + n <= |data| && i < |data|
    ensures ShadeRow(data, off, n, sh, x, y)[i] == if off <= i < off + n then Shade(sh, x + (i - off), y, data[i]) else data[i]
    decreases n
  {
    hide Shade, ShaderOk;
    if n > 0 {
      ShadeRowAt(data[off := Shade(sh, x, y, data[off])], off + 1, n - 1, sh, x + 1, y, i);
    }
  }

  /** The buffer afterwards, and the painted rows on their own for the display. */
  datatype Painting = Painting(data: seq<Rgba>, rows: seq<Rgba>)

  ghost predicate RowsFit(len: nat, off: int, stride: nat, n: nat, rows: nat) { 0 <= off && off + n <= len && (rows > 1 ==> off + stride * (rows - 1) + n <= len) }

  /** rows rows upward from screen row y: buffer rows go up the screen. */
  function ShadeRows(data: seq<Rgba>, off: int, stride: nat, n: nat, rows: nat, sh: Shader, x: int, y: int): (p: Painting)
    requires ShaderOk(sh) && (rows > 0 ==> RowsFit(|data|, off, stride, n, rows))
    ensures |p.data| == |data|
    decreases rows
  {
    if rows == 0 then Painting(data, [])
    else
      NextRowFits(|data|, off, stride, n, rows);
      var d := ShadeRow(data, off, n, sh, x, y);
      var p := ShadeRows(d, off + stride, stride, n, rows - 1, sh, x, y - 1);
      Painting(p.data, d[off..off + n] + p.rows)
  }

  lemma {:induction false} RowsSize(data: seq<Rgba>, off: int, stride: nat, n: nat, rows: nat, sh: Shader, x: int, y: int)
    requires ShaderOk(sh) && (rows > 0 ==> RowsFit(|data|, off, stride, n, rows))
    ensures |ShadeRows(data, off, stride, n, rows, sh, x, y).rows| == rows * n
    decreases rows
  {
    if rows > 0 {
      NextRowFits(|data|, off, stride, n, rows);
      RowsSize(ShadeRow(data, off, n, sh, x, y), off + stride, stride, n, rows - 1, sh, x, y - 1);
      assert rows * n == n + (rows - 1) * n;
      hide ShaderOk, ShadeRow, RowsFit, Shade;
    }
  }

  lemma {:induction false} NextRowFits(len: nat, off: int, stride: nat, n: nat, rows: nat)
    requires rows > 0 && RowsFit(len, off, stride, n, rows)
    ensures rows > 1 ==> RowsFit(len, off + stride, stride, n, rows - 1)
  {
    if rows > 2 {
      assert stride * (rows - 1) == stride + stride * (rows - 2);
      MulAtLeast(rows - 2, stride);
    }
  }

  lemma {:induction false} ShadeRowsStep(data: seq<Rgba>, off: int, stride: nat, n: nat, rows: nat, sh: Shader, x: int, y: int)
    requires ShaderOk(sh) && rows > 0 && RowsFit(|data|, off, stride, n, rows)
    ensures 0 <= off && off + n <= |data| && (rows > 1 ==> RowsFit(|data|, off + stride, stride, n, rows - 1))
    ensures var d := ShadeRow(data, off, n, sh, x, y);
            var p := ShadeRows(d, off + stride, stride, n, rows - 1, sh, x, y - 1);
            ShadeRows(data, off, stride, n, rows, sh, x, y) == Painting(p.data, d[off..off + n] + p.rows)
  {
    NextRowFits(|data|, off, stride, n, rows);
    hide ShaderOk, ShadeRow, Shade;
  }

  ghost predicate Sized(len: nat, width: nat, height: nat) { len == width * height }

  lemma {:induction false} RectRowsFit(len: nat, width: nat, height: nat, left: nat, top: nat, n: nat, rows: nat)
    requires left + n <= width && top + rows <= height && rows > 0 && Sized(len, width, height)
    ensures RowsFit(len, Index(width, left, top), width, n, rows)
  {
    RowFits(width, height, left, top, n);
    RowFits(width, height, left, top + rows - 1, n);
    assert Index(width, left, top + rows - 1) == Index(width, left, top) + width * (rows - 1);
  }

  /** The rectangle's pixels are shaded from the old ones, the others stay. */
  lemma {:induction false} ShadeRowsAt(data: seq<Rgba>, width: nat, height: nat, left: nat, top: nat, n: nat, rows: nat,
      sh: Shader, x: int, y: int, px: nat, py: nat)
    requires ShaderOk(sh) && Sized(|data|, width, height) && left + n <= width && top + rows <= height && px < width && py < height
    ensures rows > 0 ==> RowsFit(|data|, Index(width, left, top), width, n, rows)
    ensures Index(width, px, py) < |data|
    ensures ShadeRows(data, Index(width, left, top), width, n, rows, sh, x, y).data[Index(width, px, py)] ==
              if InRect(px, py, left, top, n, rows) then Shade(sh, x + (px - left), y - (py - top), data[Index(width, px, py)])
              else data[Index(width, px, py)]
    decreases rows
  {
    hide *;
    PixelIn(|data|, width, height, px, py);
    RectCons(left, top, n, rows, px, py);
    if rows > 0 {
      RectRowsFit(|data|, width, height, left, top, n, rows);
      ShadeRowsStep(data, Index(width, left, top), width, n, rows, sh, x, y);
      AfterFirstRow(width, left, top, n, 0, 1);
      var d := ShadeRow(data, Index(width, left, top), n, sh, x, y);
      ShadeRowsAt(d, width, height, left, top + 1, n, rows - 1, sh, x, y - 1, px, py);
      FirstRowAt(data, width, height, left, top, n, sh, x, y, px, py);
    } else {
      NoRows(data, Index(width, left, top), width, n, sh, x, y);
    }
  }

  lemma {:induction false} NoRows(data: seq<Rgba>, off: int, stride: nat, n: nat, sh: Shader, x: int, y: int)
    requires ShaderOk(sh)
    ensures ShadeRows(data, off, stride, n, 0, sh, x, y) == Painting(data, [])
  {
  }

  lemma {:induction false} PixelIn(len: nat, width: nat, height: nat, px: nat, py: nat)
    requires Sized(len, width, height) && px < width && py < height
    ensures Index(width, px, py) < len
  {
    IndexInRange(width, height, px, py);
  }

  lemma {:induction false} FirstRowAt(data: seq<Rgba>, width: nat, height: nat, left: nat, top: nat, n: nat, sh: Shader, x: int, y: int, px: nat, py: nat)
    requires ShaderOk(sh) && left + n <= width && px < width && Index(width, px, py) < |data| && Index(width, left, top) + n <= |data|
    ensures ShadeRow(data, Index(width, left, top), n, sh, x, y)[Index(width, px, py)] ==
              if py == top && left <= px < left + n then Shade(sh, x + (px - left), y, data[Index(width, px, py)]) else data[Index(width, px, py)]
  {
    hide *;
    ShadeRowAt(data, Index(width, left, top), n, sh, x, y, Index(width, px, py));
    IndexInBand(width, px, py, left, top, n);
    AlongRow(width, left, px, top);
  }

  lemma {:induction false} AlongRow(width: nat, left: nat, px: nat, y: nat)
    ensures Index(width, px, y) - Index(width, left, y) == px - left
  {
  }

  /** Reading a buffer; nothing is past its end. */
  function Pick(data: seq<Rgba>, i: int): Rgba { if 0 <= i < |data| then data[i] else CLEAR }

  lemma {:induction false} PickConcat(a: seq<Rgba>, b: seq<Rgba>, i: nat)
    ensures Pick(a + b, |a| + i) == Pick(b, i) && (i < |a| ==> Pick(a + b, i) == a[i])
  {
  }

  /** The rows handed to the display are the rectangle as it now stands. */
  lemma {:induction false} RowsShown(data: seq<Rgba>, width: nat, height: nat, left: nat, top: nat, n: nat, rows: nat,
      sh: Shader, x: int, y: int, px: nat, py: nat)
    requires ShaderOk(sh) && Sized(|data|, width, height) && left + n <= width && top + rows <= height && px < n && py < rows
    ensures RowsFit(|data|, Index(width, left, top), width, n, rows)
    ensures var p := ShadeRows(data, Index(width, left, top), width, n, rows, sh, x, y);
            Pick(p.rows, Index(n, px, py)) == Pick(p.data, Index(width, left + px, top + py))
    decreases rows
  {
    hide *;
    RectRowsFit(|data|, width, height, left, top, n, rows);
    if py == 0 {
      FirstRowShown(data, width, height, left, top, n, rows, sh, x, y, px);
    } else {
      RectRowsFit(|data|, width, height, left, top + 1, n, rows - 1);
      RowInside(|data|, Index(width, left, top), width, n, rows);
      RowsShown(ShadeRow(data, Index(width, left, top), n, sh, x, y), width, height, left, top + 1, n, rows - 1, sh, x, y - 1, px, py - 1);
      LaterRowShown(data, width, height, left, top, n, rows, sh, x, y, px, py);
    }
  }

  lemma {:induction false} RowInside(len: nat, off: int, stride: nat, n: nat, rows: nat)
    requires RowsFit(len, off, stride, n, rows)
    ensures 0 <= off && off + n <= len
  {
  }

  lemma {:induction false} LaterRowShown(data: seq<Rgba>, width: nat, height: nat, left: nat, top: nat, n: nat, rows: nat,
      sh: Shader, x: int, y: int, px: nat, py: nat)
    requires ShaderOk(sh) && rows > 1 && 0 < py && RowsFit(|data|, Index(width, left, top), width, n, rows)
    requires RowsFit(|data|, Index(width, left, top + 1), width, n, rows - 1)
    requires var p := ShadeRows(ShadeRow(data, Index(width, left, top), n, sh, x, y), Index(width, left, top + 1), width, n, rows - 1, sh, x, y - 1);
             Pick(p.rows, Index(n, px, py - 1)) == Pick(p.data, Index(width, left + px, top + 1 + (py - 1)))
    ensures var p := ShadeRows(data, Index(width, left, top), width, n, rows, sh, x, y);
            Pick(p.rows, Index(n, px, py)) == Pick(p.data, Index(width, left + px, top + py))
  {
    hide *;
    ShadeRowsStep(data, Index(width, left, top), width, n, rows, sh, x, y);
    AfterFirstRow(width, left, top, n, px, py);
    var d := ShadeRow(data, Index(width, left, top), n, sh, x, y);
    var p := ShadeRows(d, Index(width, left, top + 1), width, n, rows - 1, sh, x, y - 1);
    PickConcat(d[Index(width, left, top)..Index(width, left, top) + n], p.rows, Index(n, px, py - 1));
  }

  lemma {:induction false} FirstRowShown(data: seq<Rgba>, width: nat, height: nat, left: nat, top: nat, n: nat, rows: nat,
      sh: Shader, x: int, y: int, px: nat)
    requires ShaderOk(sh) && Sized(|data|, width, height) && left + n <= width && top + rows <= height && px < n && rows > 0
    requires RowsFit(|data|, Index(width, left, top), width, n, rows)
    ensures var p := ShadeRows(data, Index(width, left, top), width, n, rows, sh, x, y);
            Pick(p.rows, Index(n, px, 0)) == Pick(p.data, Index(width, left + px, top))
  {
    hide *;
    ShadeRowsStep(data, Index(width, left, top), width, n, rows, sh, x, y);
    AfterFirstRow(width, left, top, n, px, 1);
    var d := ShadeRow(data, Index(width, left, top), n, sh, x, y);
    var row := d[Index(width, left, top)..Index(width, left, top) + n];
    FirstRowStays(d, width, height, left, top, n, rows, sh, x, y, px);
    PickConcat(row, ShadeRows(d, Index(width, left, top + 1), width, n, rows - 1, sh, x, y - 1).rows, px);
  }

  lemma {:induction false} AfterFirstRow(width: nat, left: nat, top: nat, n: nat, px: nat, py: nat)
    requires py > 0
    ensures Index(n, px, py) == n + Index(n, px, py - 1) && Index(width, left, top) + width == Index(width, left, top + 1)
    ensures Index(n, px, 0) == px && Index(width, left + px, top) == Index(width, left, top) + px
  {
    NextRow(width, left, top);
    NextRow(n, px, py - 1);
  }

  /** Painting the rows above leaves a row alone. */
  lemma {:induction false} FirstRowStays(d: seq<Rgba>, width: nat, height: nat, left: nat, top: nat, n: nat, rows: nat,
      sh: Shader, x: int, y: int, px: nat)
    requires ShaderOk(sh) && Sized(|d|, width, height) && left + n <= width && top + rows <= height && px < n && rows > 0
    ensures rows > 1 ==> RowsFit(|d|, Index(width, left, top + 1), width, n, rows - 1)
    ensures Index(width, left + px, top) < |d|
    ensures Pick(ShadeRows(d, Index(width, left, top + 1), width, n, rows - 1, sh, x, y - 1).data, Index(width, left + px, top))
              == d[Index(width, left + px, top)]
  {
    hide Shade, ShaderOk, ShadeRow, RowsFit, ShadeRows, Index, Sized;
    ShadeRowsAt(d, width, height, left, top + 1, n, rows - 1, sh, x, y - 1, left + px, top);
  }

  // ---------- the loops ----------

  /** The loop bodies an order chooses from: constants and plain copies skip the
      operation. */
  datatype Path = Black | White | CopyPattern | CopySource | Operate

  /** What one loop body stores; the operands are read only where it reads them. */
  function Body(path: Path, sh: Shader, x: int, y: int, was: Rgba): Rgba
    requires ShaderOk(sh)
  {
    match path
    case Black => Rgba(0, 0, 0, 0xFF)
    case White => WHITE
    case CopyPattern => if sh.Cached? then WHITE else PatternAt(sh.brush, x, y).(a := 0xFF)
    case CopySource => if sh.Pattern? then WHITE else CachedAt(sh.entry, sh.dx, sh.dy, x, y)
    case Operate =>
      match sh
      case Pattern(rop, brush) => Apply(rop, PatternAt(brush, x, y), WHITE, was)
      case Cached(rop, entry, dx, dy) => Apply(rop, WHITE, CachedAt(entry, dx, dy, x, y), was)
      case Patterned(rop, brush, entry, dx, dy) => Apply(rop, PatternAt(brush, x, y), CachedAt(entry, dx, dy, x, y), was)
  }

  /** The codes for which a loop body is chosen. */
  predicate Serves(path: Path, sh: Shader) {
    match path
    case Black => sh.Pattern? && sh.rop == BLACKNESS
    case White => sh.Pattern? && sh.rop == WHITENESS
    case CopyPattern => sh.Pattern? && sh.rop == PATCOPY
    case CopySource => !sh.Pattern? && sh.rop == SRCCOPY
    case Operate => sh.Pattern? || sh.rop != SRCCOPY
  }

  /** Every loop body computes the one specification. */
  lemma {:induction false} BodyIsShade(path: Path, sh: Shader, x: int, y: int, was: Rgba)
    requires ShaderOk(sh) && Serves(path, sh)
    ensures Body(path, sh, x, y, was) == Shade(sh, x, y, was)
  {
    hide PatternAt, CachedAt, Apply;
    if sh.Pattern? {
      SpecialPixels(PatternAt(sh.brush, x, y), WHITE, was);
    }
  }

  method PaintRow(fb: array<Rgba>, render: array<Rgba>, off: nat, outOff: nat, n: nat, path: Path, sh: Shader, x: int, y: int)
    requires ShaderOk(sh) && Serves(path, sh) && fb != render
    requires off + n <= fb.Length && outOff + n <= render.Length
    modifies fb, render
    ensures fb[..] == ShadeRow(old(fb[..]), off, n, sh, x, y)
    ensures render[..outOff] == old(render[..outOff]) && render[outOff..outOff + n] == fb[off..off + n]
  {
    hide *;
    ghost var goal := ShadeRow(fb[..], off, n, sh, x, y);
    for px := 0 to n
      invariant ShadeRow(fb[..], off + px, n - px, sh, x + px, y) == goal
      invariant render[..outOff] == old(render[..outOff])
      invariant render[outOff..outOff + px] == fb[off..off + px]
    {
      BodyIsShade(path, sh, x + px, y, fb[off + px]);
      var c := Body(path, sh, x + px, y, fb[off + px]);
      ghost var before, shown := fb[..], render[..];
      ShadeRowStep(before, off + px, n - px, sh, x + px, y);
      fb[off + px] := c;
      render[outOff + px] := c;
      assert fb[..] == before[off + px := c] && render[..] == shown[outOff + px := c];
      Grown(before, off, px, c);
      Grown(shown, outOff, px, c);
      assert render[..outOff] == render[..][..outOff] == shown[..outOff];
      assert fb[off..off + (px + 1)] == fb[..][off..off + (px + 1)] && render[outOff..outOff + (px + 1)] == render[..][outOff..outOff + (px + 1)];
    }
    NoMorePixels(fb[..], off + n, sh, x + n, y);
  }

  lemma {:induction false} Grown(data: seq<Rgba>, off: nat, n: nat, c: Rgba)
    requires off + n < |data|
    ensures data[off + n := c][off..off + (n + 1)] == data[off..off + n] + [c] && data[off + n := c][..off] == data[..off]
  {
  }

  lemma {:induction false} ShadeRowStep(data: seq<Rgba>, off: nat, n: nat, sh: Shader, x: int, y: int)
    requires ShaderOk(sh) && n > 0 && off + n <= |data|
    ensures ShadeRow(data, off, n, sh, x, y) == ShadeRow(data[off := Shade(sh, x, y, data[off])], off + 1, n - 1, sh, x + 1, y)
  {
    hide Shade, ShaderOk;
  }

  lemma {:induction false} NoMorePixels(data: seq<Rgba>, off: nat, sh: Shader, x: int, y: int)
    requires ShaderOk(sh) && off <= |data|
    ensures ShadeRow(data, off, 0, sh, x, y) == data
  {
    hide Shade, ShaderOk;
  }

  method PaintRect(fb: array<Rgba>, render: array<Rgba>, off: nat, stride: nat, n: nat, rows: nat, path: Path, sh: Shader, x: int, y: int)
    requires ShaderOk(sh) && Serves(path, sh) && fb != render
    requires rows > 0 && RowsFit(fb.Length, off, stride, n, rows) && render.Length == rows * n
    modifies fb, render
    ensures Painting(fb[..], render[..]) == ShadeRows(old(fb[..]), off, stride, n, rows, sh, x, y)
  {
    ghost var goal := ShadeRows(fb[..], off, stride, n, rows, sh, x, y);
    RowsSize(fb[..], off, stride, n, rows, sh, x, y);
    ContinuesFirst(fb[..], off, stride, n, rows, sh, x, y);
    PaintRowsTo(fb, render, off, stride, n, rows, path, sh, x, y, goal);
  }

  method PaintRowsTo(fb: array<Rgba>, render: array<Rgba>, off: nat, stride: nat, n: nat, rows: nat, path: Path, sh: Shader, x: int, y: int, ghost goal: Painting)
    requires ShaderOk(sh) && Serves(path, sh) && fb != render && |goal.rows| == render.Length
    requires Continues(fb[..], [], off, stride, n, rows, sh, x, y, goal)
    modifies fb, render
    ensures Painting(fb[..], render[..]) == goal
  {
    hide *;
    var rowOff: nat, outOff: nat := off, 0;
    assert render[..0] == [];
    for r := 0 to rows
      invariant outOff <= render.Length
      invariant Continues(fb[..], render[..outOff], rowOff, stride, n, rows - r, sh, x, y - r, goal)
    {
      ContinuesOn(fb[..], render[..outOff], rowOff, stride, n, rows - r, sh, x, y - r, goal);
      ghost var done := render[..outOff];
      PaintRow(fb, render, rowOff, outOff, n, path, sh, x, y - r);
      assert render[..outOff + n] == done + fb[..][rowOff..rowOff + n];
      rowOff, outOff := rowOff + stride, outOff + n;
    }
    ContinuesNoMore(fb[..], render[..outOff], rowOff, stride, n, sh, x, y - rows, goal);
    assert render[..outOff] == render[..];
  }

  lemma {:induction false} ContinuesFirst(data: seq<Rgba>, off: int, stride: nat, n: nat, rows: nat, sh: Shader, x: int, y: int)
    requires ShaderOk(sh) && rows > 0 && RowsFit(|data|, off, stride, n, rows)
    ensures Continues(data, [], off, stride, n, rows, sh, x, y, ShadeRows(data, off, stride, n, rows, sh, x, y))
  {
    hide ShadeRows, RowsFit;
    var p := ShadeRows(data, off, stride, n, rows, sh, x, y);
    assert [] + p.rows == p.rows;
  }

  /** The rows still to be painted complete what was done. */
  ghost predicate Continues(data: seq<Rgba>, done: seq<Rgba>, off: int, stride: nat, n: nat, rows: nat, sh: Shader, x: int, y: int, goal: Painting)
    requires ShaderOk(sh)
  {
    (rows > 0 ==> RowsFit(|data|, off, stride, n, rows)) &&
    var p := ShadeRows(data, off, stride, n, rows, sh, x, y);
    p.data == goal.data && done + p.rows == goal.rows
  }

  lemma {:induction false} ContinuesNoMore(data: seq<Rgba>, done: seq<Rgba>, off: int, stride: nat, n: nat, sh: Shader, x: int, y: int, goal: Painting)
    requires ShaderOk(sh) && Continues(data, done, off, stride, n, 0, sh, x, y, goal)
    ensures Painting(data, done) == goal
  {
    assert done + [] == done;
  }

  lemma {:induction false} ContinuesOn(data: seq<Rgba>, done: seq<Rgba>, off: int, stride: nat, n: nat, rows: nat, sh: Shader, x: int, y: int, goal: Painting)
    requires ShaderOk(sh) && rows > 0 && Continues(data, done, off, stride, n, rows, sh, x, y, goal)
    ensures 0 <= off && off + n <= |data| && |done| + n <= |goal.rows|
    ensures var d := ShadeRow(data, off, n, sh, x, y);
            Continues(d, done + d[off..off + n], off + stride, stride, n, rows - 1, sh, x, y - 1, goal)
  {
    ShadeRowsStep(data, off, stride, n, rows, sh, x, y);
    hide Shade, ShaderOk, RowsFit, ShadeRows, ShadeRow;
    var d := ShadeRow(data, off, n, sh, x, y);
    var p := ShadeRows(d, off + stride, stride, n, rows - 1, sh, x, y - 1);
    assert done + (d[off..off + n] + p.rows) == done + d[off..off + n] + p.rows;
  }
}
