/** The ClearCodec band layer: columns parsed, looked up, stored and painted. */
module VBarBands {
  import opened Bits
  import opened Wire
  import opened Raster
  import opened VBars

  // ---------- one column code ----------

  datatype Parsed = Bad | Got(code: Code, size: nat)

  /** A blue, green, red triple. */
  function Bgr(src: seq<byte>): Rgba
    requires |src| >= 3
  {
    Rgba(src[2], src[1], src[0], 0xFF)
  }

  function ReadPixels(src: seq<byte>, n: nat): (px: seq<Rgba>)
    requires |src| >= 3 * n
    ensures |px| == n
  {
    seq(n, i requires 0 <= i < n => Bgr(src[3 * i..]))
  }

  /** A short column with its pixels. */
  function ParseMiss(src: seq<byte>, yOn: nat, yOff: nat): (p: Parsed)
    requires |src| >= 2
    ensures p.Got? ==> 2 <= p.size <= |src|
  {
    if yOff < yOn || yOff - yOn > MAX_HEIGHT || 2 + 3 * (yOff - yOn) > |src| then Bad
    else Got(ShortMiss(yOn, ReadPixels(src[2..], yOff - yOn)), 2 + 3 * (yOff - yOn))
  }

  /** The two high bits of the first word select the kind. */
  function ParseCode(src: seq<byte>): (p: Parsed)
    ensures p.Got? ==> 2 <= p.size <= |src|
  {
    if |src| < 2 then Bad
    else
      var h := GetLe16(src);
      if h / 0x4000 == 1 then
        if |src| < 3 then Bad else Got(ShortHit(h % 0x4000, src[2]), 3)
      else if h / 0x4000 == 0 then ParseMiss(src, h % 0x100, h / 0x100 % 0x40)
      else Got(FullHit(h % 0x8000), 2)
  }

  ghost predicate Opaque(px: seq<Rgba>) { forall i :: 0 <= i < |px| ==> px[i].a == 0xFF }

  /** What the format can say. */
  ghost predicate Sendable(code: Code) {
    match code
    case ShortHit(idx, yOn) => idx < SHORT_CACHE && yOn < 0x100
    case ShortMiss(yOn, pixels) => Opaque(pixels) && |pixels| <= MAX_HEIGHT && yOn + |pixels| < 0x40
    case FullHit(idx) => idx < VBAR_CACHE
  }

  function PutPixels(px: seq<Rgba>): (bytes: seq<byte>)
    ensures |bytes| == 3 * |px|
  {
    seq(3 * |px|, i requires 0 <= i < 3 * |px| => var p := px[i / 3]; if i % 3 == 0 then p.b else if i % 3 == 1 then p.g else p.r)
  }

  function EncodeCode(code: Code): (bytes: seq<byte>)
    requires Sendable(code)
    ensures |bytes| >= 2
  {
    match code
    case ShortHit(idx, yOn) => PutLe16(0x4000 + idx) + [yOn]
    case ShortMiss(yOn, pixels) => PutLe16(0x100 * (yOn + |pixels|) + yOn) + PutPixels(pixels)
    case FullHit(idx) => PutLe16(0x8000 + idx)
  }

  lemma {:induction false} PixelsRoundTrip(px: seq<Rgba>, rest: seq<byte>)
    requires Opaque(px)
    ensures ReadPixels(PutPixels(px) + rest, |px|) == px
  {
    var src := PutPixels(px) + rest;
    forall i | 0 <= i < |px| ensures ReadPixels(src, |px|)[i] == px[i] {
      assert (3 * i) / 3 == i && (3 * i + 1) / 3 == i && (3 * i + 2) / 3 == i;
      assert src[3 * i..][0] == PutPixels(px)[3 * i] && src[3 * i..][1] == PutPixels(px)[3 * i + 1] && src[3 * i..][2] == PutPixels(px)[3 * i + 2];
    }
  }

  lemma {:induction false} CodeRoundTrip(code: Code, rest: seq<byte>)
    requires Sendable(code)
    ensures ParseCode(EncodeCode(code) + rest) == Got(code, |EncodeCode(code)|)
  {
    match code
    case ShortHit(_, _) => ShortHitRoundTrip(code, rest);
    case ShortMiss(_, _) => ShortMissRoundTrip(code, rest);
    case FullHit(_) => FullHitRoundTrip(code, rest);
  }

  lemma {:induction false} ShortHitRoundTrip(code: Code, rest: seq<byte>)
    requires code.ShortHit? && Sendable(code)
    ensures ParseCode(EncodeCode(code) + rest) == Got(code, |EncodeCode(code)|)
  {
    HeaderReads(PutLe16(0x4000 + code.idx), EncodeCode(code) + rest);
    hide ReadPixels, GetLe16;
  }

  lemma {:induction false} FullHitRoundTrip(code: Code, rest: seq<byte>)
    requires code.FullHit? && Sendable(code)
    ensures ParseCode(EncodeCode(code) + rest) == Got(code, |EncodeCode(code)|)
  {
    HeaderReads(PutLe16(0x8000 + code.idx), EncodeCode(code) + rest);
    hide ReadPixels, GetLe16;
  }

  lemma {:induction false} ShortMissRoundTrip(code: Code, rest: seq<byte>)
    requires code.ShortMiss? && Sendable(code)
    ensures ParseCode(EncodeCode(code) + rest) == Got(code, |EncodeCode(code)|)
  {
    var h := 0x100 * (code.yOn + |code.pixels|) + code.yOn;
    HeaderReads(PutLe16(h), EncodeCode(code) + rest);
    WordParts(code.yOn + |code.pixels|, code.yOn);
    hide PutPixels, ReadPixels, Opaque, GetLe16, PutLe16, ParseMiss;
    MissReads(PutLe16(h), code.yOn, code.pixels, rest);
  }

  lemma {:induction false} MissReads(head: seq<byte>, yOn: nat, pixels: seq<Rgba>, rest: seq<byte>)
    requires |head| == 2 && Opaque(pixels) && |pixels| <= MAX_HEIGHT
    ensures ParseMiss(head + PutPixels(pixels) + rest, yOn, yOn + |pixels|) == Got(ShortMiss(yOn, pixels), 2 + 3 * |pixels|)
  {
    hide PutPixels, ReadPixels, Opaque;
    PixelsRoundTrip(pixels, rest);
    assert (head + PutPixels(pixels) + rest)[2..] == PutPixels(pixels) + rest;
  }

  lemma {:induction false} WordParts(hi: nat, lo: nat)
    requires hi < 0x40 && lo < 0x100
    ensures var h := 0x100 * hi + lo; h / 0x4000 == 0 && h % 0x100 == lo && h / 0x100 % 0x40 == hi
  {
  }

  lemma {:induction false} HeaderReads(h: seq<byte>, src: seq<byte>)
    requires |h| == 2 && |src| >= 2 && src[..2] == h
    ensures GetLe16(src) == GetLe16(h)
  {
    assert src[0] == src[..2][0] && src[1] == src[..2][1];
  }

  // ---------- painting ----------

  /** Rows of a column from row y down, as far as column, band and image go; the target
      is top-down. */
  function PaintColumn(dst: seq<Rgba>, width: nat, x: nat, y: nat, col: seq<Rgba>, n: nat): (d: seq<Rgba>)
    requires n <= |col|
    ensures |d| == |dst|
    decreases n
  {
    if n == 0 then dst
    else
      var rest := PaintColumn(dst, width, x, y, col, n - 1);
      var off := Index(width, x, y + n - 1);
      if off < |dst| then rest[off := col[n - 1]] else rest
  }

  function Shown(height: nat, band: nat, y: nat, col: seq<Rgba>): (n: nat)
    ensures n <= |col|
  {
    var n := if |col| < band then |col| else band;
    if n > height - y then if height < y then 0 else height - y else n
  }

  /** The column covers exactly its rows of column x. */
  lemma {:induction false} PaintColumnAt(dst: seq<Rgba>, width: nat, height: nat, x: nat, y: nat, col: seq<Rgba>, n: nat, px: nat, py: nat)
    requires |dst| == width * height && n <= |col| && x < width && px < width && py < height && y + n <= height
    ensures Index(width, px, py) < |dst|
    ensures PaintColumn(dst, width, x, y, col, n)[Index(width, px, py)] ==
              if px == x && y <= py < y + n then col[py - y] else dst[Index(width, px, py)]
    decreases n
  {
    IndexInRange(width, height, px, py);
    if n > 0 {
      IndexInRange(width, height, x, y + n - 1);
      PaintColumnAt(dst, width, height, x, y, col, n - 1, px, py);
      IndexInBand(width, px, py, x, y + n - 1, 1);
      hide Index;
    }
  }

  // ---------- bands ----------

  datatype Band = Band(xStart: nat, xEnd: nat, yStart: nat, yEnd: nat, bg: Rgba)

  function Height(b: Band): int { b.yEnd - b.yStart + 1 }

  /** Caches and image, and whether the data was good so far. */
  datatype Layer = Layer(caches: Caches, dst: seq<Rgba>, ok: bool)

  function PaintAt(dst: seq<Rgba>, width: nat, height: nat, b: Band, x: nat, col: seq<Rgba>): (d: seq<Rgba>)
    requires Height(b) >= 0
    ensures |d| == |dst|
  {
    if x >= width then dst else PaintColumn(dst, width, x, b.yStart, col, Shown(height, Height(b), b.yStart, col))
  }

  /** The columns of a band from x on; a bad code ends the layer. */
  datatype Columns = Columns(layer: Layer, used: nat)

  function DecodeColumns(l: Layer, width: nat, height: nat, b: Band, x: nat, src: seq<byte>): (c: Columns)
    requires Height(b) >= 0 && x <= b.xEnd + 1
    ensures c.used <= |src| && |c.layer.dst| == |l.dst|
    decreases b.xEnd + 1 - x
  {
    if x > b.xEnd then Columns(l, 0)
    else
      var p := ParseCode(src);
      if p.Bad? then Columns(l.(ok := false), 0)
      else
        var s := Apply(l.caches, Height(b), b.bg, p.code);
        var l' := l.(caches := s.caches, dst := PaintAt(l.dst, width, height, b, x, s.col));
        var rest := DecodeColumns(l', width, height, b, x + 1, src[p.size..]);
        Columns(rest.layer, p.size + rest.used)
  }

  /** The band header: eleven bytes. */
  datatype Header = BadBand | GoodBand(band: Band)

  function ParseBand(src: seq<byte>): (h: Header)
    ensures h.GoodBand? ==> |src| >= 11 && 1 <= Height(h.band) <= MAX_HEIGHT && h.band.xStart <= h.band.xEnd
  {
    if |src| < 11 then BadBand
    else
      var b := Band(GetLe16(src), GetLe16(src[2..]), GetLe16(src[4..]), GetLe16(src[6..]), Bgr(src[8..]));
      if b.xEnd < b.xStart || b.yEnd < b.yStart || Height(b) > MAX_HEIGHT then BadBand else GoodBand(b)
  }

  /** decodeBands. */
  function DecodeBands(l: Layer, width: nat, height: nat, src: seq<byte>): (l': Layer)
    ensures |l'.dst| == |l.dst|
    decreases |src|
  {
    if src == [] then l
    else
      var h := ParseBand(src);
      if h.BadBand? then l.(ok := false)
      else
        var c := DecodeColumns(l, width, height, h.band, h.band.xStart, src[11..]);
        if !c.layer.ok then c.layer else DecodeBands(c.layer, width, height, src[11 + c.used..])
  }

  // ---------- the encoding of bands ----------

  /** A band and one code per column. */
  datatype Sending = Sending(band: Band, codes: seq<Code>)

  ghost predicate BandOk(s: Sending) {
    && s.band.xStart <= s.band.xEnd < 0x1_0000 && s.band.yStart <= s.band.yEnd < 0x1_0000
    && Height(s.band) <= MAX_HEIGHT && s.band.bg.a == 0xFF
    && |s.codes| == s.band.xEnd - s.band.xStart + 1
    && forall i :: 0 <= i < |s.codes| ==> Sendable(s.codes[i])
  }

  function EncodeCodes(codes: seq<Code>): (bytes: seq<byte>)
    requires forall i :: 0 <= i < |codes| ==> Sendable(codes[i])
  {
    if codes == [] then [] else EncodeCode(codes[0]) + EncodeCodes(codes[1..])
  }

  function EncodeHeader(b: Band): (bytes: seq<byte>)
    requires b.xStart < 0x1_0000 && b.xEnd < 0x1_0000 && b.yStart < 0x1_0000 && b.yEnd < 0x1_0000
    ensures |bytes| == 11
  {
    PutLe16(b.xStart) + PutLe16(b.xEnd) + PutLe16(b.yStart) + PutLe16(b.yEnd) + [b.bg.b, b.bg.g, b.bg.r]
  }

  function EncodeBands(sendings: seq<Sending>): (bytes: seq<byte>)
    requires forall i :: 0 <= i < |sendings| ==> BandOk(sendings[i])
  {
    if sendings == [] then []
    else assert BandOk(sendings[0]); EncodeHeader(sendings[0].band) + (EncodeCodes(sendings[0].codes) + EncodeBands(sendings[1..]))
  }

  /** What the codes of a band mean: columns painted one after the other. */
  function DrawCodes(l: Layer, width: nat, height: nat, b: Band, x: nat, codes: seq<Code>): (l': Layer)
    requires Height(b) >= 0
    ensures |l'.dst| == |l.dst| && l'.ok == l.ok
    decreases codes
  {
    if codes == [] then l
    else
      var s := Apply(l.caches, Height(b), b.bg, codes[0]);
      DrawCodes(l.(caches := s.caches, dst := PaintAt(l.dst, width, height, b, x, s.col)), width, height, b, x + 1, codes[1..])
  }

  function DrawBands(l: Layer, width: nat, height: nat, sendings: seq<Sending>): (l': Layer)
    requires forall i :: 0 <= i < |sendings| ==> BandOk(sendings[i])
    ensures |l'.dst| == |l.dst|
    decreases sendings
  {
    if sendings == [] then l
    else assert BandOk(sendings[0]); DrawBands(DrawCodes(l, width, height, sendings[0].band, sendings[0].band.xStart, sendings[0].codes), width, height, sendings[1..])
  }

  lemma {:induction false} ColumnsRoundTrip(l: Layer, width: nat, height: nat, b: Band, x: nat, codes: seq<Code>, rest: seq<byte>)
    requires Height(b) >= 0 && x + |codes| == b.xEnd + 1 && (forall i :: 0 <= i < |codes| ==> Sendable(codes[i]))
    ensures DecodeColumns(l, width, height, b, x, EncodeCodes(codes) + rest)
         == Columns(DrawCodes(l, width, height, b, x, codes), |EncodeCodes(codes)|)
    decreases codes
  {
    hide ParseCode, EncodeCode, Apply, PaintAt, Sendable;
    if codes != [] {
      var enc, more := EncodeCode(codes[0]), EncodeCodes(codes[1..]) + rest;
      CodeRoundTrip(codes[0], more);
      assert EncodeCodes(codes) + rest == enc + more;
      assert (enc + more)[|enc|..] == more;
      var s := Apply(l.caches, Height(b), b.bg, codes[0]);
      ColumnsRoundTrip(l.(caches := s.caches, dst := PaintAt(l.dst, width, height, b, x, s.col)), width, height, b, x + 1, codes[1..], rest);
    }
  }

  lemma {:induction false} HeaderRoundTrip(b: Band, rest: seq<byte>)
    requires b.xStart <= b.xEnd < 0x1_0000 && b.yStart <= b.yEnd < 0x1_0000 && Height(b) <= MAX_HEIGHT && b.bg.a == 0xFF
    ensures ParseBand(EncodeHeader(b) + rest) == GoodBand(b)
  {
    var h := EncodeHeader(b);
    var src := h + rest;
    assert src[0] == h[0] && src[1] == h[1] && src[2..][0] == h[2] && src[2..][1] == h[3];
    assert src[4..][0] == h[4] && src[4..][1] == h[5] && src[6..][0] == h[6] && src[6..][1] == h[7];
    assert src[8..][0] == h[8] && src[8..][1] == h[9] && src[8..][2] == h[10];
    Words4(b.xStart, b.xEnd, b.yStart, b.yEnd, h);
  }

  lemma {:induction false} Words4(a: nat, b: nat, c: nat, d: nat, h: seq<byte>)
    requires a < 0x1_0000 && b < 0x1_0000 && c < 0x1_0000 && d < 0x1_0000 && |h| >= 8
    requires h[..8] == PutLe16(a) + PutLe16(b) + PutLe16(c) + PutLe16(d)
    ensures h[0] as nat + 0x100 * (h[1] as nat) == a && h[2] as nat + 0x100 * (h[3] as nat) == b
    ensures h[4] as nat + 0x100 * (h[5] as nat) == c && h[6] as nat + 0x100 * (h[7] as nat) == d
  {
    var p := PutLe16(a) + PutLe16(b) + PutLe16(c) + PutLe16(d);
    assert forall i :: 0 <= i < 8 ==> h[i] == h[..8][i] == p[i];
  }

  /** Decoding the bytes of any bands does to caches and image what their codes mean. */
  lemma {:induction false} BandsRoundTrip(l: Layer, width: nat, height: nat, sendings: seq<Sending>)
    requires l.ok && forall i :: 0 <= i < |sendings| ==> BandOk(sendings[i])
    ensures DecodeBands(l, width, height, EncodeBands(sendings)) == DrawBands(l, width, height, sendings)
    decreases sendings
  {
    hide ParseBand, DecodeColumns, EncodeHeader, EncodeCodes, DrawCodes;
    if sendings != [] {
      var b, codes := sendings[0].band, sendings[0].codes;
      var rest := EncodeBands(sendings[1..]);
      var src := EncodeBands(sendings);
      assert BandOk(sendings[0]);
      HeaderRoundTrip(b, EncodeCodes(codes) + rest);
      assert src[11..] == EncodeCodes(codes) + rest;
      ColumnsRoundTrip(l, width, height, b, b.xStart, codes, rest);
      assert src[11 + |EncodeCodes(codes)|..] == rest;
      BandsRoundTrip(DrawCodes(l, width, height, b, b.xStart, codes), width, height, sendings[1..]);
    }
  }

  // ---------- what a band shows ----------

  /** The columns that codes stand for, in turn. */
  function ColumnsOf(c: Caches, height: nat, bg: Rgba, codes: seq<Code>): (cols: seq<seq<Rgba>>)
    ensures |cols| == |codes|
    decreases codes
  {
    if codes == [] then []
    else
      var s := Apply(c, height, bg, codes[0]);
      [s.col] + ColumnsOf(s.caches, height, bg, codes[1..])
  }

  /** Inside the image, the band's columns are painted where they belong, as far down as
      each is long, and every other pixel stays. */
  lemma {:induction false} BandAt(l: Layer, width: nat, height: nat, b: Band, x: nat, codes: seq<Code>, px: nat, py: nat)
    requires |l.dst| == width * height && Height(b) >= 0 && px < width && py < height
    ensures Index(width, px, py) < |l.dst|
    ensures var cols := ColumnsOf(l.caches, Height(b), b.bg, codes);
            DrawCodes(l, width, height, b, x, codes).dst[Index(width, px, py)] ==
              if x <= px < x + |codes| && b.yStart <= py < b.yStart + Shown(height, Height(b), b.yStart, cols[px - x])
              then cols[px - x][py - b.yStart] else l.dst[Index(width, px, py)]
    decreases codes
  {
    IndexInRange(width, height, px, py);
    hide Index, Apply, Shown;
    if codes != [] {
      var s := Apply(l.caches, Height(b), b.bg, codes[0]);
      var dst := PaintAt(l.dst, width, height, b, x, s.col);
      PaintAtAt(l.dst, width, height, b, x, s.col, px, py);
      BandAt(l.(caches := s.caches, dst := dst), width, height, b, x + 1, codes[1..], px, py);
      hide PaintAt;
    }
  }

  lemma {:induction false} PaintAtAt(dst: seq<Rgba>, width: nat, height: nat, b: Band, x: nat, col: seq<Rgba>, px: nat, py: nat)
    requires |dst| == width * height && Height(b) >= 0 && px < width && py < height
    ensures Index(width, px, py) < |dst|
    ensures PaintAt(dst, width, height, b, x, col)[Index(width, px, py)] ==
              if px == x && b.yStart <= py < b.yStart + Shown(height, Height(b), b.yStart, col)
              then col[py - b.yStart] else dst[Index(width, px, py)]
  {
    IndexInRange(width, height, px, py);
    var n := Shown(height, Height(b), b.yStart, col);
    if x < width {
      if n > 0 {
        PaintColumnAt(dst, width, height, x, b.yStart, col, n, px, py);
      }
    }
  }

  /** A band that is sent whole, each column in any way that stands for it, appears. */
  lemma {:induction false} BandShows(l: Layer, width: nat, height: nat, s: Sending, px: nat, py: nat)
    requires |l.dst| == width * height && BandOk(s) && px < width && py < height
    requires s.band.xStart <= px <= s.band.xEnd && s.band.yStart <= py <= s.band.yEnd
    requires forall i :: 0 <= i < |s.codes| ==> |ColumnsOf(l.caches, Height(s.band), s.band.bg, s.codes)[i]| == Height(s.band)
    ensures Index(width, px, py) < |l.dst|
    ensures DrawCodes(l, width, height, s.band, s.band.xStart, s.codes).dst[Index(width, px, py)] ==
              ColumnsOf(l.caches, Height(s.band), s.band.bg, s.codes)[px - s.band.xStart][py - s.band.yStart]
  {
    BandAt(l, width, height, s.band, s.band.xStart, s.codes, px, py);
    hide Index, DrawCodes, ColumnsOf;
  }

  // ---------- a band's pixels ----------

  /** The caches when the k-th code of a band comes. */
  function CachesBefore(c: Caches, height: nat, bg: Rgba, codes: seq<Code>, k: nat): Caches
    requires k <= |codes|
    decreases k
  {
    if k == 0 then c else CachesBefore(Apply(c, height, bg, codes[0]).caches, height, bg, codes[1..], k - 1)
  }

  lemma {:induction false} ColumnsOfAt(c: Caches, height: nat, bg: Rgba, codes: seq<Code>, k: nat)
    requires k < |codes|
    ensures ColumnsOf(c, height, bg, codes)[k] == Apply(CachesBefore(c, height, bg, codes, k), height, bg, codes[k]).col
    decreases codes
  {
    hide Apply;
    if k > 0 {
      ColumnsOfAt(Apply(c, height, bg, codes[0]).caches, height, bg, codes[1..], k - 1);
    }
  }

  /** What a code leaves at row r of its column of a band; was is the pixel before. */
  function PixelOf(c: Caches, bg: Rgba, code: Code, r: nat, was: Rgba): Rgba {
    match code
    case ShortMiss(yOn, px) => if yOn <= r < yOn + |px| then px[r - yOn] else bg
    case ShortHit(idx, yOn) =>
      if idx in c.shorts && yOn <= r < yOn + |c.shorts[idx]| then c.shorts[idx][r - yOn] else bg
    case FullHit(idx) =>
      if idx !in c.vbars then Rgba(0, 0, 0, 0) else if r < |c.vbars[idx]| then c.vbars[idx][r] else was
  }

  lemma {:induction false} CodePixel(c: Caches, height: nat, bg: Rgba, code: Code, r: nat, was: Rgba)
    requires r < height
    ensures var col := Apply(c, height, bg, code).col;
            (if r < |col| then col[r] else was) == PixelOf(c, bg, code, r, was)
  {
    hide Apply;
    ColumnRows(c, height, bg, code, r);
  }

  /** The bytes of a band: each of its pixels that is in the image is what its column's code
      means at that row, and all other pixels stay. */
  lemma {:induction false} BandPixel(l: Layer, width: nat, height: nat, s: Sending, px: nat, py: nat)
    requires l.ok && |l.dst| == width * height && BandOk(s) && px < width && py < height
    ensures var l', b, i := DecodeBands(l, width, height, EncodeBands([s])), s.band, py * width + px;
            && l'.ok && 0 <= i < |l.dst| && |l'.dst| == |l.dst|
            && if b.xStart <= px <= b.xEnd && b.yStart <= py <= b.yEnd then
                 var k := px - b.xStart;
                 l'.dst[i] == PixelOf(CachesBefore(l.caches, b.yEnd - b.yStart + 1, b.bg, s.codes, k), b.bg, s.codes[k], py - b.yStart, l.dst[i])
               else l'.dst[i] == l.dst[i]
  {
    hide *;
    var b := s.band;
    SizeIs(s);
    RowMajor(width, px, py);
    IndexInRange(width, height, px, py);
    assert forall i :: 0 <= i < |[s]| ==> [s][i] == s;
    BandsRoundTrip(l, width, height, [s]);
    DrawOne(l, width, height, s);
    BandAt(l, width, height, b, b.xStart, s.codes, px, py);
    if b.xStart <= px <= b.xEnd {
      var k := px - b.xStart;
      var c := CachesBefore(l.caches, Height(b), b.bg, s.codes, k);
      ColumnsOfAt(l.caches, Height(b), b.bg, s.codes, k);
      ShownIs(height, b, Apply(c, Height(b), b.bg, s.codes[k]).col, py);
      if b.yStart <= py <= b.yEnd {
        CodePixel(c, Height(b), b.bg, s.codes[k], py - b.yStart, l.dst[Index(width, px, py)]);
      }
    }
  }

  lemma {:induction false} SizeIs(s: Sending)
    requires BandOk(s)
    ensures Height(s.band) == s.band.yEnd - s.band.yStart + 1 > 0 && |s.codes| == s.band.xEnd - s.band.xStart + 1
  {
    hide Sendable;
  }

  lemma {:induction false} RowMajor(width: nat, x: nat, y: nat)
    ensures Index(width, x, y) == y * width + x
  {
  }

  lemma {:induction false} DrawOne(l: Layer, width: nat, height: nat, s: Sending)
    requires l.ok && BandOk(s)
    ensures (forall i :: 0 <= i < |[s]| ==> BandOk([s][i])) && Height(s.band) >= 0
    ensures DrawBands(l, width, height, [s]) == DrawCodes(l, width, height, s.band, s.band.xStart, s.codes)
    ensures DrawBands(l, width, height, [s]).ok
  {
    SizeIs(s);
    hide DrawCodes, BandOk, Height;
    assert [s][1..] == [];
  }

  /** A column is shown as far down as it, the band and the image go. */
  lemma {:induction false} ShownIs(height: nat, b: Band, col: seq<Rgba>, py: nat)
    requires Height(b) >= 0 && py < height
    ensures b.yStart <= py < b.yStart + Shown(height, Height(b), b.yStart, col) <==> b.yStart <= py <= b.yEnd && py - b.yStart < |col|
  {
  }

  /** One column byte by byte: its place, the background as blue, green and red, the rows
      of the short pixels in the low and the next six bits of a word, and the pixels again as
      blue, green and red. */
  lemma {:induction false} OneColumn(l: Layer, width: nat, height: nat, src: seq<byte>, x: nat, yStart: nat, yEnd: nat, yOn: nat, n: nat, py: nat)
    requires l.ok && |l.dst| == width * height && x < width && yStart <= yEnd < yStart + 52 && yStart <= py <= yEnd && py < height
    requires n <= 52 && yOn + n < 64 && |src| == 13 + 3 * n
    requires WordIs(src, 0, x) && WordIs(src, 2, x) && WordIs(src, 4, yStart) && WordIs(src, 6, yEnd)
    requires src[11] == yOn && src[12] == yOn + n
    ensures var l', i, r := DecodeBands(l, width, height, src), py * width + x, py - yStart;
            && l'.ok && 0 <= i < |l'.dst|
            && l'.dst[i] ==
                 if yOn <= r < yOn + n then Rgba(src[13 + 3 * (r - yOn) + 2], src[13 + 3 * (r - yOn) + 1], src[13 + 3 * (r - yOn)], 0xFF)
                 else Rgba(src[10], src[9], src[8], 0xFF)
  {
    hide *;
    var pixels := seq(n, k requires 0 <= k < n => Rgba(src[13 + 3 * k + 2], src[13 + 3 * k + 1], src[13 + 3 * k], 0xFF));
    var b := Band(x, x, yStart, yEnd, Rgba(src[10], src[9], src[8], 0xFF));
    var s := Sending(b, [ShortMiss(yOn, pixels)]);
    OneColumnIs(src, x, yStart, yEnd, yOn, n, pixels);
    BandPixel(l, width, height, s, x, py);
    MissPixel(CachesBefore(l.caches, b.yEnd - b.yStart + 1, b.bg, s.codes, 0), b.bg, yOn, pixels, py - yStart, l.dst[py * width + x]);
  }

  lemma {:induction false} MissPixel(c: Caches, bg: Rgba, yOn: nat, pixels: seq<Rgba>, r: nat, was: Rgba)
    ensures PixelOf(c, bg, ShortMiss(yOn, pixels), r, was) == if yOn <= r < yOn + |pixels| then pixels[r - yOn] else bg
  {
  }

  lemma {:induction false} OneColumnIs(src: seq<byte>, x: nat, yStart: nat, yEnd: nat, yOn: nat, n: nat, pixels: seq<Rgba>)
    requires yStart <= yEnd < yStart + 52 && n <= 52 && yOn + n < 64 && |src| == 13 + 3 * n
    requires WordIs(src, 0, x) && WordIs(src, 2, x) && WordIs(src, 4, yStart) && WordIs(src, 6, yEnd)
    requires src[11] == yOn && src[12] == yOn + n
    requires pixels == seq(n, k requires 0 <= k < n => Rgba(src[13 + 3 * k + 2], src[13 + 3 * k + 1], src[13 + 3 * k], 0xFF))
    ensures var s := Sending(Band(x, x, yStart, yEnd, Rgba(src[10], src[9], src[8], 0xFF)), [ShortMiss(yOn, pixels)]);
            BandOk(s) && [s][0] == s && (forall i :: 0 <= i < |[s]| ==> BandOk([s][i])) && EncodeBands([s]) == src
  {
    var b := Band(x, x, yStart, yEnd, Rgba(src[10], src[9], src[8], 0xFF));
    var code := ShortMiss(yOn, pixels);
    var s := Sending(b, [code]);
    hide PutPixels;
    assert Opaque(pixels);
    assert Sendable(code);
    assert BandOk(s);
    HeaderBytes(b, src);
    CodeBytes(yOn, n, pixels, src);
    OneBand(s);
    assert src == src[..11] + src[11..];
  }

  lemma {:induction false} OneBand(s: Sending)
    requires BandOk(s) && |s.codes| == 1
    ensures (forall i :: 0 <= i < |[s]| ==> BandOk([s][i])) && (forall i :: 0 <= i < |s.codes| ==> Sendable(s.codes[i]))
    ensures EncodeBands([s]) == EncodeHeader(s.band) + EncodeCode(s.codes[0])
  {
    hide EncodeHeader, EncodeCode, Sendable;
    assert [s][1..] == [] && s.codes[1..] == [] && EncodeCodes([]) == [] && EncodeBands([]) == [];
    var c := EncodeCode(s.codes[0]);
    assert EncodeCodes(s.codes) == c + [] && c + [] == c;
    assert EncodeBands([s]) == EncodeHeader(s.band) + (c + []);
  }

  lemma {:induction false} HeaderBytes(b: Band, src: seq<byte>)
    requires b.xStart < 0x1_0000 && b.xEnd < 0x1_0000 && b.yStart < 0x1_0000 && b.yEnd < 0x1_0000 && |src| >= 11
    requires WordIs(src, 0, b.xStart) && WordIs(src, 2, b.xEnd) && WordIs(src, 4, b.yStart) && WordIs(src, 6, b.yEnd)
    requires b.bg == Rgba(src[10], src[9], src[8], 0xFF)
    ensures EncodeHeader(b) == src[..11]
  {
    LowHigh(src[0], src[1]);
    LowHigh(src[2], src[3]);
    LowHigh(src[4], src[5]);
    LowHigh(src[6], src[7]);
    assert EncodeHeader(b) == [src[0], src[1]] + [src[2], src[3]] + [src[4], src[5]] + [src[6], src[7]] + [src[8], src[9], src[10]];
  }

  lemma {:induction false} LowHigh(lo: byte, hi: byte)
    ensures var v := (lo as int) + 256 * (hi as int); v < 0x1_0000 && PutLe16(v) == [lo, hi]
  {
  }

  lemma {:induction false} CodeBytes(yOn: nat, n: nat, pixels: seq<Rgba>, src: seq<byte>)
    requires n <= 52 && yOn + n < 64 && |src| == 13 + 3 * n && src[11] == yOn && src[12] == yOn + n
    requires pixels == seq(n, k requires 0 <= k < n => Rgba(src[13 + 3 * k + 2], src[13 + 3 * k + 1], src[13 + 3 * k], 0xFF))
    ensures Sendable(ShortMiss(yOn, pixels)) && EncodeCode(ShortMiss(yOn, pixels)) == src[11..]
  {
    hide *;
    LowHigh(src[11], src[12]);
    PixelBytes(n, pixels, src);
    MissCode(yOn, pixels);
    Behind(src);
  }

  lemma {:induction false} PixelBytes(n: nat, pixels: seq<Rgba>, src: seq<byte>)
    requires |src| == 13 + 3 * n
    requires pixels == seq(n, k requires 0 <= k < n => Rgba(src[13 + 3 * k + 2], src[13 + 3 * k + 1], src[13 + 3 * k], 0xFF))
    ensures PutPixels(pixels) == src[13..] && Opaque(pixels)
  {
    assert Opaque(pixels);
    hide *;
    var px := PutPixels(pixels);
    forall i | 0 <= i < 3 * n ensures px[i] == src[13 + i] {
      PutPixelAt(pixels, i / 3);
      assert i == 3 * (i / 3) + i % 3;
    }
  }

  lemma {:induction false} Behind(src: seq<byte>)
    requires |src| >= 13
    ensures src[11..] == [src[11], src[12]] + src[13..]
  {
  }

  lemma {:induction false} MissCode(yOn: nat, pixels: seq<Rgba>)
    requires Opaque(pixels) && |pixels| <= 52 && yOn + |pixels| < 64
    ensures Sendable(ShortMiss(yOn, pixels))
    ensures EncodeCode(ShortMiss(yOn, pixels)) == PutLe16(yOn + 256 * (yOn + |pixels|)) + PutPixels(pixels)
  {
    hide PutPixels, Opaque, PutLe16;
  }

  lemma {:induction false} PutPixelAt(px: seq<Rgba>, k: nat)
    requires k < |px|
    ensures PutPixels(px)[3 * k] == px[k].b && PutPixels(px)[3 * k + 1] == px[k].g && PutPixels(px)[3 * k + 2] == px[k].r
  {
    assert (3 * k) / 3 == k && (3 * k + 1) / 3 == k && (3 * k + 2) / 3 == k;
  }
}
