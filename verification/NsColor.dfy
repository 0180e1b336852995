/** NSCodec colours: luma and chroma planes turned into pixels, with or without
    subsampled chroma. */
module NsColor {
  import opened Bits
  import opened Wire
  import opened Raster

  /** A chroma byte moved up by the loss level, as a signed byte: bits shifted out are
      lost, and a level of zero wraps to a shift that leaves none. */
  function Chroma(b: byte, level: byte): (c: int)
    ensures -128 <= c <= 127
  {
    var shift := (level - 1) % 256;
    Int8(if shift >= 8 then 0 else b * Pow2(shift) % 256)
  }

  /** Level l stands for the chroma byte times the l-th power of two, from one to 128, cut
      to a signed byte; above eight nothing is left, and level zero is above eight too. */
  lemma {:induction false} ChromaMeans(b: byte, level: byte, factor: nat)
    requires match level
             case 1 => factor == 1 case 2 => factor == 2 case 3 => factor == 4 case 4 => factor == 8
             case 5 => factor == 16 case 6 => factor == 32 case 7 => factor == 64 case 8 => factor == 128
             case _ => factor == 0
    ensures var c := Chroma(b, level);
            -128 <= c <= 127 && c % 256 == (b as int) * factor % 256
  {
    hide *;
    if 1 <= level <= 8 {
      Power(level - 1, factor);
      Shifted(b, level);
    } else {
      ShiftedOut(b, level);
    }
  }

  lemma {:induction false} Shifted(b: byte, level: byte)
    requires 1 <= level <= 8
    ensures Chroma(b, level) % 256 == (b as int) * Pow2(level - 1) % 256
  {
    hide Pow2;
    assert (level - 1) % 256 == level - 1;
    SignedByte(b * Pow2(level - 1) % 256);
  }

  lemma {:induction false} SignedByte(v: byte)
    ensures Int8(v) % 256 == v
  {
  }

  lemma {:induction false} ShiftedOut(b: byte, level: byte)
    requires level == 0 || level > 8
    ensures Chroma(b, level) == 0
  {
    hide Pow2;
  }

  lemma {:induction false} Power(n: nat, factor: nat)
    requires match n
             case 0 => factor == 1 case 1 => factor == 2 case 2 => factor == 4 case 3 => factor == 8
             case 4 => factor == 16 case 5 => factor == 32 case 6 => factor == 64 case 7 => factor == 128
             case _ => false
    ensures Pow2(n) == factor
  {
    assert Pow2(0) == 1;
    assert Pow2(1) == 2;
    assert Pow2(2) == 4;
    assert Pow2(3) == 8;
    assert Pow2(4) == 16;
    assert Pow2(5) == 32;
    assert Pow2(6) == 64;
    assert Pow2(7) == 128;
  }

  ghost predicate Fits16(n: int) { -32768 <= n <= 32767 }

  /** clampByte: the high byte tells whether to clamp, the sign to which end.  The shift
      right by 15 gives 0 or -1, its complement -1 or 0, taken as a byte. */
  function ClampByte(v: int): byte
    requires Fits16(v)
  {
    if v % 0x1_0000 / 0x100 == 0 then v else (-1 - v / 32768) % 256
  }

  lemma {:induction false} ClampByteClamps(v: int)
    requires Fits16(v)
    ensures ClampByte(v) == if v < 0 then 0 else if v > 255 then 255 else v
  {
  }

  function Pixel(y: byte, co: byte, cg: byte, a: byte, level: byte): Rgba {
    var c, g := Chroma(co, level), Chroma(cg, level);
    Rgba(ClampByte(y + c - g), ClampByte(y + g), ClampByte(y - c - g), a)
  }

  /** No sum leaves the 16-bit range. */
  lemma {:induction false} SumsFit(y: byte, co: byte, cg: byte, level: byte)
    ensures var c, g := Chroma(co, level), Chroma(cg, level);
            Fits16(y + c - g) && Fits16(y + g) && Fits16(y - c - g)
  {
    hide Chroma;
  }

  /** Where no channel is clamped the pixel determines luma and chroma. */
  lemma {:induction false} ColorRecovers(y: byte, co: byte, cg: byte, a: byte, level: byte)
    requires var c, g := Chroma(co, level), Chroma(cg, level);
             0 <= y + c - g <= 255 && 0 <= y + g <= 255 && 0 <= y - c - g <= 255
    ensures var p := Pixel(y, co, cg, a, level);
            && (p.r + p.b + 2 * p.g) == 4 * y
            && (p.r as int) - p.b == 2 * Chroma(co, level)
            && (2 * p.g as int) - p.r - p.b == 4 * Chroma(cg, level)
  {
    hide Chroma, ClampByte;
    SumsFit(y, co, cg, level);
    ClampByteClamps(y + Chroma(co, level) - Chroma(cg, level));
    ClampByteClamps(y + Chroma(cg, level));
    ClampByteClamps(y - Chroma(co, level) - Chroma(cg, level));
  }

  // ---------- whole images ----------

  function Direct(luma: seq<byte>, co: seq<byte>, cg: seq<byte>, alpha: seq<byte>, level: byte): (image: seq<Rgba>)
    requires |co| == |cg| == |alpha| == |luma|
    ensures |image| == |luma|
  {
    seq(|luma|, i requires 0 <= i < |luma| => Pixel(luma[i], co[i], cg[i], alpha[i], level))
  }

  function Halved(n: nat): nat { (n + 1) / 2 }

  /** The chroma sample of a pixel: one for every two by two pixels. */
  function ChromaIndex(width: nat, col: nat, row: nat): nat { Index(Halved(width), col / 2, row / 2) }

  lemma {:induction false} ChromaInRange(width: nat, height: nat, col: nat, row: nat)
    requires col < width && row < height
    ensures ChromaIndex(width, col, row) < Halved(width) * Halved(height)
  {
    IndexInRange(Halved(width), Halved(height), col / 2, row / 2);
  }

  lemma {:induction false} RowAndColumn(width: nat, height: nat, i: nat)
    requires i < width * height
    ensures width > 0 && i % width < width && i / width < height
  {
    if width > 0 {
      assert i == (i / width) * width + i % width;
      MulGrows(height, i / width, width);
    }
  }

  /** A chroma plane with every sample repeated for its two by two pixels. */
  function Replicate(plane: seq<byte>, width: nat, height: nat): (p: seq<byte>)
    requires |plane| == Halved(width) * Halved(height)
    ensures |p| == width * height
  {
    seq(width * height, i requires 0 <= i < width * height => ChromaOf(plane, width, height, i))
  }

  /** The chroma sample of pixel i. */
  function ChromaOf(plane: seq<byte>, width: nat, height: nat, i: nat): byte
    requires |plane| == Halved(width) * Halved(height) && i < width * height
  {
    RowAndColumn(width, height, i);
    ChromaInRange(width, height, i % width, i / width);
    plane[ChromaIndex(width, i % width, i / width)]
  }

  lemma {:induction false} ReplicateAt(plane: seq<byte>, width: nat, height: nat, col: nat, row: nat)
    requires |plane| == Halved(width) * Halved(height) && col < width && row < height
    ensures Index(width, col, row) < width * height && ChromaIndex(width, col, row) < |plane|
    ensures Replicate(plane, width, height)[Index(width, col, row)] == plane[ChromaIndex(width, col, row)]
  {
    IndexInRange(width, height, col, row);
    ChromaInRange(width, height, col, row);
    DivisionUnique(Index(width, col, row), width, row, col);
  }

  /** A colour channel's value, cut to a byte. */
  ghost predicate Cut(v: byte, n: int) { v as int == if n < 0 then 0 else if n > 255 then 255 else n }

  /** Red, green and blue from luma, orange chroma and green chroma. */
  lemma {:induction false} PixelMeans(y: byte, co: byte, cg: byte, a: byte, level: byte)
    ensures var p, o, g, l := Pixel(y, co, cg, a, level), Chroma(co, level), Chroma(cg, level), y as int;
            Cut(p.r, l + o - g) && Cut(p.g, l + g) && Cut(p.b, l - o - g) && p.a == a
  {
    hide Chroma, ClampByte;
    SumsFit(y, co, cg, level);
    ClampByteClamps(y + Chroma(co, level) - Chroma(cg, level));
    ClampByteClamps(y + Chroma(cg, level));
    ClampByteClamps(y - Chroma(co, level) - Chroma(cg, level));
  }

  /** Pixel (x, y) of an image with subsampled chroma: its own luma and alpha, and the
      chroma of its square of two by two, which at the right and bottom edge may be cut. */
  lemma {:induction false} SubsampledAt(luma: seq<byte>, co: seq<byte>, cg: seq<byte>, alpha: seq<byte>, width: nat, height: nat, level: byte, x: nat, y: nat, i: nat, c: nat)
    requires |alpha| == |luma| == width * height && |co| == |cg| == ((width + 1) / 2) * ((height + 1) / 2)
    requires x < width && y < height && i == y * width + x && c == y / 2 * ((width + 1) / 2) + x / 2
    ensures |co| == Halved(width) * Halved(height) && i < |luma| && c < |co|
    ensures Direct(luma, Replicate(co, width, height), Replicate(cg, width, height), alpha, level)[i] == Pixel(luma[i], co[c], cg[c], alpha[i], level)
  {
    Halves(width, height, x, y);
    hide *;
    Subsampled(luma, co, cg, alpha, width, height, level, x, y);
  }

  lemma {:induction false} Subsampled(luma: seq<byte>, co: seq<byte>, cg: seq<byte>, alpha: seq<byte>, width: nat, height: nat, level: byte, x: nat, y: nat)
    requires |alpha| == |luma| == width * height && |co| == |cg| == Halved(width) * Halved(height)
    requires x < width && y < height
    ensures var i, c := Index(width, x, y), ChromaIndex(width, x, y);
            && i < |luma| && c < |co|
            && Direct(luma, Replicate(co, width, height), Replicate(cg, width, height), alpha, level)[i] == Pixel(luma[i], co[c], cg[c], alpha[i], level)
  {
    hide *;
    ReplicateAt(co, width, height, x, y);
    ReplicateAt(cg, width, height, x, y);
    DirectIs(luma, Replicate(co, width, height), Replicate(cg, width, height), alpha, level, Index(width, x, y));
  }

  lemma {:induction false} Halves(width: nat, height: nat, x: nat, y: nat)
    ensures Halved(width) == (width + 1) / 2 && Halved(height) == (height + 1) / 2
    ensures Index(width, x, y) == y * width + x && ChromaIndex(width, x, y) == y / 2 * ((width + 1) / 2) + x / 2
  {
  }

  lemma {:induction false} DirectIs(luma: seq<byte>, co: seq<byte>, cg: seq<byte>, alpha: seq<byte>, level: byte, i: nat)
    requires |co| == |cg| == |alpha| == |luma| && i < |luma|
    ensures Direct(luma, co, cg, alpha, level)[i] == Pixel(luma[i], co[i], cg[i], alpha[i], level)
  {
    hide Pixel;
  }

  // ---------- the loops ----------

  method ConvertDirect(dst: array<Rgba>, luma: seq<byte>, co: seq<byte>, cg: seq<byte>, alpha: seq<byte>, level: byte)
    requires |co| == |cg| == |alpha| == |luma| == dst.Length
    modifies dst
    ensures dst[..] == Direct(luma, co, cg, alpha, level)
  {
    hide Pixel;
    for i := 0 to dst.Length
      invariant dst[..i] == Direct(luma, co, cg, alpha, level)[..i]
    {
      dst[i] := Pixel(luma[i], co[i], cg[i], alpha[i], level);
      assert dst[..i + 1] == dst[..i] + [dst[i]];
    }
    assert dst[..dst.Length] == dst[..];
  }

  /** Converting with subsampled chroma is converting directly with every chroma sample
      repeated. */
  method ConvertSubsampled(dst: array<Rgba>, luma: seq<byte>, co: seq<byte>, cg: seq<byte>, alpha: seq<byte>, width: nat, height: nat, level: byte)
    requires |alpha| == |luma| == dst.Length == width * height && |co| == |cg| == Halved(width) * Halved(height)
    modifies dst
    ensures dst[..] == Direct(luma, Replicate(co, width, height), Replicate(cg, width, height), alpha, level)
  {
    hide *;
    ghost var goal := Direct(luma, Replicate(co, width, height), Replicate(cg, width, height), alpha, level);
    var off: nat := 0;
    RowStarts(width, height);
    for row := 0 to height
      invariant off == Index(width, 0, row) && off <= dst.Length
      invariant dst[..off] == goal[..off]
    {
      RowFits(width, height, 0, row, width);
      off := ConvertRow(dst, luma, co, cg, alpha, width, height, level, row, off);
    }
    assert dst[..off] == dst[..] && goal[..off] == goal;
  }

  lemma {:induction false} RowStarts(width: nat, height: nat)
    ensures Index(width, 0, 0) == 0 && Index(width, 0, height) == width * height
  {
  }

  method ConvertRow(dst: array<Rgba>, luma: seq<byte>, co: seq<byte>, cg: seq<byte>, alpha: seq<byte>, width: nat, height: nat, level: byte, row: nat, start: nat)
    returns (off: nat)
    requires |alpha| == |luma| == dst.Length == width * height && |co| == |cg| == Halved(width) * Halved(height)
    requires row < height && start == Index(width, 0, row) && start + width <= dst.Length
    requires dst[..start] == Direct(luma, Replicate(co, width, height), Replicate(cg, width, height), alpha, level)[..start]
    modifies dst
    ensures off == Index(width, 0, row + 1) && off <= dst.Length
    ensures dst[..off] == Direct(luma, Replicate(co, width, height), Replicate(cg, width, height), alpha, level)[..off]
  {
    ghost var goal := Direct(luma, Replicate(co, width, height), Replicate(cg, width, height), alpha, level);
    NextRow(width, 0, row);
    assert Index(width, 0, row + 1) == start + width;
    off := start;
    for col := 0 to width
      invariant off == start + col && dst[..off] == goal[..off]
    {
      var c := DirectAt(luma, co, cg, alpha, width, height, level, row, col, off);
      dst[off] := c;
      assert dst[..off + 1] == dst[..off] + [dst[off]];
      assert goal[..off + 1] == goal[..off] + [goal[off]];
      off := off + 1;
    }
  }

  /** One pixel of the subsampled loop. */
  method DirectAt(luma: seq<byte>, co: seq<byte>, cg: seq<byte>, alpha: seq<byte>, width: nat, height: nat, level: byte, row: nat, col: nat, lumaOff: nat)
    returns (p: Rgba)
    requires |alpha| == |luma| == width * height && |co| == |cg| == Halved(width) * Halved(height)
    requires row < height && col < width && lumaOff == Index(width, 0, row) + col
    ensures lumaOff < width * height
    ensures p == Direct(luma, Replicate(co, width, height), Replicate(cg, width, height), alpha, level)[lumaOff]
  {
    hide Pixel, Replicate;
    ReplicateAt(co, width, height, col, row);
    ReplicateAt(cg, width, height, col, row);
    assert lumaOff == Index(width, col, row);
    var chromaIdx := ChromaIndex(width, col, row);
    p := Pixel(luma[lumaOff], co[chromaIdx], cg[chromaIdx], alpha[lumaOff], level);
  }
}
