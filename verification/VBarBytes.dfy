/** ClearCodec bands byte by byte: what any header and any column code is read as, what a
    code does to the caches, and where bad data stops. */
module VBarBytes {
  import opened Bits
  import opened Wire
  import opened Raster
  import opened VBars
  import opened VBarBands

  /** The short ring has 16384 slots and the full one 32768.  Every code but a full hit
      stores its column in the full one and a miss its short pixels in the short one, each
      at its cursor, which moves on and round; a full hit leaves all as it is, but fills a
      slot that was never written with an empty column. */
  lemma {:induction false} CodeStores(c: Caches, height: nat, bg: Rgba, code: Code)
    requires c.vcursor < 32768 && c.scursor < 16384
    ensures Valid(c)
    ensures var s := Apply(c, height, bg, code);
            var vcursor, scursor := if c.vcursor == 32767 then 0 else c.vcursor + 1, if c.scursor == 16383 then 0 else c.scursor + 1;
            match code
            case ShortHit(_, _) => s.caches == Caches(c.vbars[c.vcursor := s.col], vcursor, c.shorts, c.scursor)
            case ShortMiss(_, px) => s.caches == Caches(c.vbars[c.vcursor := s.col], vcursor, c.shorts[c.scursor := px], scursor)
            case FullHit(idx) =>
              if idx in c.vbars then s.caches == c
              else s.caches == Caches(c.vbars[idx := s.col], c.vcursor, c.shorts, c.scursor) && |s.col| == height
    ensures Do(c, Reset) == Caches(c.vbars, 0, c.shorts, 0)
  {
    hide Compose;
  }

  /** The first word of a code: from 32768 on a full hit, from 16384 on a short hit with a
      row byte behind it, else a miss with its first and its last row, at most 52 apart, and
      its pixels; anything cut off is bad. */
  lemma {:induction false} CodeReads(src: seq<byte>, w: nat, pixels: seq<Rgba>)
    requires |src| >= 2 ==> WordIs(src, 0, w)
    ensures if |src| < 2 then ParseCode(src).Bad?
            else if w >= 32768 then ParseCode(src) == Got(FullHit(w - 32768), 2)
            else if w >= 16384 then (if |src| < 3 then ParseCode(src).Bad? else ParseCode(src) == Got(ShortHit(w - 16384, src[2]), 3))
            else
              var first, last: int := src[0], src[1];
              if last < first || last - first > 52 || |src| < 2 + 3 * (last - first) then ParseCode(src).Bad?
              else PixelsAre(src, 2, pixels) && |pixels| == last - first ==> ParseCode(src) == Got(ShortMiss(first, pixels), 2 + 3 * (last - first))
  {
    if |src| >= 2 {
      WordHalves(src[0], src[1], w);
      if w < 16384 && PixelsAre(src, 2, pixels) {
        PixelsRead(src, pixels);
      }
      hide ReadPixels, PixelsAre;
    }
  }

  lemma {:induction false} WordHalves(lo: byte, hi: byte, w: nat)
    requires w == (lo as int) + 256 * (hi as int)
    ensures w / 0x4000 == (if w >= 49152 then 3 else if w >= 32768 then 2 else if w >= 16384 then 1 else 0)
    ensures w >= 32768 ==> w % 0x8000 == w - 32768
    ensures 16384 <= w < 32768 ==> w % 0x4000 == w - 16384
    ensures w < 16384 ==> w % 0x100 == lo as int && w / 0x100 % 0x40 == hi as int
  {
    DivisionUnique(w, 0x100, hi, lo);
  }

  /** Three bytes a pixel, blue, green, red, all opaque, from some place on. */
  ghost predicate PixelsAre(src: seq<byte>, at: nat, pixels: seq<Rgba>) {
    && at + 3 * |pixels| <= |src|
    && forall i :: 0 <= i < |pixels| ==> pixels[i] == Rgba(src[at + 3 * i + 2], src[at + 3 * i + 1], src[at + 3 * i], 255)
  }

  lemma {:induction false} PixelsRead(src: seq<byte>, pixels: seq<Rgba>)
    requires PixelsAre(src, 2, pixels)
    ensures |src| >= 2 && |src[2..]| >= 3 * |pixels| && ReadPixels(src[2..], |pixels|) == pixels
  {
    forall i | 0 <= i < |pixels| ensures ReadPixels(src[2..], |pixels|)[i] == pixels[i] {
      assert src[2..][3 * i] == src[2 + 3 * i] && src[2..][3 * i + 1] == src[2 + 3 * i + 1] && src[2..][3 * i + 2] == src[2 + 3 * i + 2];
    }
  }

  /** A band's header: columns and rows from and to, and the background; a band that ends
      before it starts or is higher than 52 rows is bad. */
  lemma {:induction false} HeaderSays(src: seq<byte>, b: Band)
    requires |src| >= 11 ==> WordIs(src, 0, b.xStart) && WordIs(src, 2, b.xEnd) && WordIs(src, 4, b.yStart) && WordIs(src, 6, b.yEnd)
    requires |src| >= 11 ==> b.bg == Rgba(src[10], src[9], src[8], 255)
    ensures ParseBand(src) == if |src| < 11 || b.xEnd < b.xStart || b.yEnd < b.yStart || b.yEnd - b.yStart >= 52 then BadBand else GoodBand(b)
  {
    if |src| >= 11 {
      WordAt(src, 0, b.xStart);
      WordAt(src, 2, b.xEnd);
      WordAt(src, 4, b.yStart);
      WordAt(src, 6, b.yEnd);
      assert src[0..] == src;
      hide GetLe16, WordIs;
    }
  }

  lemma {:induction false} WordAt(src: seq<byte>, i: nat, v: nat)
    requires i + 1 < |src| && WordIs(src, i, v)
    ensures GetLe16(src[i..]) == v
  {
  }

  /** A bad code ends the band with the columns before it painted, and the layer fails. */
  lemma {:induction false} BadCodeStops(l: Layer, width: nat, height: nat, b: Band, x: nat, codes: seq<Code>, bad: seq<byte>)
    requires Height(b) >= 0 && x + |codes| <= b.xEnd && (forall i :: 0 <= i < |codes| ==> Sendable(codes[i]))
    requires ParseCode(bad).Bad?
    ensures DecodeColumns(l, width, height, b, x, EncodeCodes(codes) + bad).layer == DrawCodes(l, width, height, b, x, codes).(ok := false)
    decreases codes
  {
    hide ParseCode, EncodeCode, Apply, PaintAt, Sendable;
    if codes == [] {
      assert EncodeCodes(codes) + bad == bad;
    } else {
      var enc, more := EncodeCode(codes[0]), EncodeCodes(codes[1..]) + bad;
      CodeRoundTrip(codes[0], more);
      assert EncodeCodes(codes) + bad == enc + more;
      assert (enc + more)[|enc|..] == more;
      var s := Apply(l.caches, Height(b), b.bg, codes[0]);
      BadCodeStops(l.(caches := s.caches, dst := PaintAt(l.dst, width, height, b, x, s.col)), width, height, b, x + 1, codes[1..], bad);
    }
  }

  /** Good bands before a bad header or a band with a bad code are painted. */
  lemma {:induction false} BadBandStops(l: Layer, width: nat, height: nat, sendings: seq<Sending>, b: Band, codes: seq<Code>, bad: seq<byte>)
    requires l.ok && forall i :: 0 <= i < |sendings| ==> BandOk(sendings[i])
    requires b.xStart <= b.xEnd < 0x1_0000 && b.yStart <= b.yEnd < 0x1_0000 && b.yEnd - b.yStart < 52 && b.bg.a == 255
    requires |codes| < b.xEnd - b.xStart + 1 && (forall i :: 0 <= i < |codes| ==> Sendable(codes[i]))
    ensures ParseBand(bad).BadBand? && bad != [] ==>
              DecodeBands(l, width, height, EncodeBands(sendings) + bad) == DrawBands(l, width, height, sendings).(ok := false)
    ensures ParseCode(bad).Bad? ==>
              DecodeBands(l, width, height, EncodeBands(sendings) + (EncodeHeader(b) + (EncodeCodes(codes) + bad))) ==
                DrawCodes(DrawBands(l, width, height, sendings), width, height, b, b.xStart, codes).(ok := false)
    decreases sendings
  {
    hide *;
    HeightIs(b);
    if sendings == [] {
      NoBands(l, width, height);
      assert [] + bad == bad;
      assert [] + (EncodeHeader(b) + (EncodeCodes(codes) + bad)) == EncodeHeader(b) + (EncodeCodes(codes) + bad);
      BandsStop(l, width, height, b, codes, bad);
    } else {
      var s := sendings[0];
      OkIs(s);
      var l' := DrawCodes(l, width, height, s.band, s.band.xStart, s.codes);
      BadBandStops(l', width, height, sendings[1..], b, codes, bad);
      FirstBand(l, width, height, sendings, bad);
      FirstBand(l, width, height, sendings, EncodeHeader(b) + (EncodeCodes(codes) + bad));
    }
  }

  lemma {:induction false} HeightIs(b: Band)
    ensures Height(b) == b.yEnd - b.yStart + 1 && MAX_HEIGHT == 52
  {
  }

  lemma {:induction false} NoBands(l: Layer, width: nat, height: nat)
    ensures EncodeBands([]) == [] && DrawBands(l, width, height, []) == l
  {
  }

  lemma {:induction false} BandsStop(l: Layer, width: nat, height: nat, b: Band, codes: seq<Code>, bad: seq<byte>)
    requires b.xStart <= b.xEnd < 0x1_0000 && b.yStart <= b.yEnd < 0x1_0000 && Height(b) <= MAX_HEIGHT && b.bg.a == 0xFF
    requires |codes| < b.xEnd - b.xStart + 1 && (forall i :: 0 <= i < |codes| ==> Sendable(codes[i])) && Height(b) >= 0
    ensures ParseBand(bad).BadBand? && bad != [] ==> DecodeBands(l, width, height, bad) == l.(ok := false)
    ensures ParseCode(bad).Bad? ==>
              DecodeBands(l, width, height, EncodeHeader(b) + (EncodeCodes(codes) + bad)) == DrawCodes(l, width, height, b, b.xStart, codes).(ok := false)
  {
    hide *;
    if ParseBand(bad).BadBand? && bad != [] {
      BandUnfolds(l, width, height, bad);
    }
    if ParseCode(bad).Bad? {
      var src := EncodeHeader(b) + (EncodeCodes(codes) + bad);
      HeaderRoundTrip(b, EncodeCodes(codes) + bad);
      BadCodeStops(l, width, height, b, b.xStart, codes, bad);
      BandUnfolds(l, width, height, src);
      assert src[11..] == EncodeCodes(codes) + bad;
    }
  }

  lemma {:induction false} BandUnfolds(l: Layer, width: nat, height: nat, src: seq<byte>)
    requires src != []
    ensures ParseBand(src).BadBand? ==> DecodeBands(l, width, height, src) == l.(ok := false)
    ensures ParseBand(src).GoodBand? ==>
              var b := ParseBand(src).band;
              && |src| >= 11 && Height(b) >= 0 && b.xStart <= b.xEnd + 1
              && var c := DecodeColumns(l, width, height, b, b.xStart, src[11..]);
                 11 + c.used <= |src| &&
                 DecodeBands(l, width, height, src) == if !c.layer.ok then c.layer else DecodeBands(c.layer, width, height, src[11 + c.used..])
  {
    hide ParseBand, DecodeColumns;
  }

  lemma {:induction false} FirstBand(l: Layer, width: nat, height: nat, sendings: seq<Sending>, rest: seq<byte>)
    requires l.ok && sendings != [] && forall i :: 0 <= i < |sendings| ==> BandOk(sendings[i])
    ensures forall i :: 0 <= i < |sendings[1..]| ==> BandOk(sendings[1..][i])
    ensures Height(sendings[0].band) >= 0
    ensures var s := sendings[0];
            var l' := DrawCodes(l, width, height, s.band, s.band.xStart, s.codes);
            && l'.ok
            && DrawBands(l, width, height, sendings) == DrawBands(l', width, height, sendings[1..])
            && DecodeBands(l, width, height, EncodeBands(sendings) + rest) == DecodeBands(l', width, height, EncodeBands(sendings[1..]) + rest)
  {
    hide *;
    var s := sendings[0];
    OkIs(s);
    EncodeUnfolds(sendings);
    DrawUnfolds(l, width, height, sendings);
    var more := EncodeBands(sendings[1..]) + rest;
    var src := EncodeHeader(s.band) + (EncodeCodes(s.codes) + more);
    assert EncodeBands(sendings) + rest == src;
    HeaderRoundTrip(s.band, EncodeCodes(s.codes) + more);
    ColumnsRoundTrip(l, width, height, s.band, s.band.xStart, s.codes, more);
    BandUnfolds(l, width, height, src);
    assert src[11..] == EncodeCodes(s.codes) + more;
    assert src[11 + |EncodeCodes(s.codes)|..] == more;
  }

  lemma {:induction false} OkIs(s: Sending)
    requires BandOk(s)
    ensures s.band.xStart <= s.band.xEnd < 0x1_0000 && s.band.yStart <= s.band.yEnd < 0x1_0000
    ensures 1 <= Height(s.band) <= MAX_HEIGHT && s.band.bg.a == 0xFF
    ensures |s.codes| == s.band.xEnd - s.band.xStart + 1 && forall i :: 0 <= i < |s.codes| ==> Sendable(s.codes[i])
  {
    hide Sendable;
  }

  lemma {:induction false} EncodeUnfolds(sendings: seq<Sending>)
    requires sendings != [] && forall i :: 0 <= i < |sendings| ==> BandOk(sendings[i])
    ensures var s := sendings[0];
            && s.band.xStart < 0x1_0000 && s.band.xEnd < 0x1_0000 && s.band.yStart < 0x1_0000 && s.band.yEnd < 0x1_0000
            && (forall i :: 0 <= i < |s.codes| ==> Sendable(s.codes[i])) && (forall i :: 0 <= i < |sendings[1..]| ==> BandOk(sendings[1..][i]))
            && EncodeBands(sendings) == EncodeHeader(s.band) + (EncodeCodes(s.codes) + EncodeBands(sendings[1..]))
  {
    assert BandOk(sendings[0]);
    hide EncodeHeader, EncodeCodes, Sendable;
  }

  lemma {:induction false} DrawUnfolds(l: Layer, width: nat, height: nat, sendings: seq<Sending>)
    requires sendings != [] && forall i :: 0 <= i < |sendings| ==> BandOk(sendings[i])
    ensures var s := sendings[0];
            && Height(s.band) >= 0 && (forall i :: 0 <= i < |sendings[1..]| ==> BandOk(sendings[1..][i]))
            && DrawBands(l, width, height, sendings) == DrawBands(DrawCodes(l, width, height, s.band, s.band.xStart, s.codes), width, height, sendings[1..])
  {
    assert BandOk(sendings[0]);
    hide DrawCodes, Sendable;
  }
}
