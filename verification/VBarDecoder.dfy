/** The column caches on their own buffers: slots overwritten in place, columns built in
    one scratch buffer. */
module VBarDecoder {
  import opened Bits
  import opened Raster
  import opened VBars
  import opened VBarBands

  /** A column: the first count pixels of a buffer that may be larger. */
  datatype Entry = Entry(buf: array<Rgba>, count: nat)

  method Overwrite(buf: array<Rgba>, src: array<Rgba>, n: nat)
    requires n <= buf.Length && n <= src.Length && buf != src
    modifies buf
    ensures buf[..n] == src[..n]
  {
    forall k | 0 <= k < n {
      buf[k] := src[k];
    }
  }

  lemma {:induction false} Updated(m: map<nat, seq<Rgba>>, m': map<nat, seq<Rgba>>, i: nat, v: seq<Rgba>)
    requires m - {i} == m' - {i} && i in m' && m'[i] == v
    ensures m' == m[i := v]
  {
    forall j ensures j in m' <==> j in m[i := v] {
      assert j != i ==> (j in m <==> j in m - {i}) && (j in m' <==> j in m' - {i});
    }
    forall j | j in m' ensures m'[j] == m[i := v][j] {
      assert j != i ==> m'[j] == (m' - {i})[j] == (m - {i})[j];
    }
  }

  /** Every slot has a buffer of its own, large enough, among the given ones. */
  ghost predicate Separate(slots: map<nat, Entry>, bufs: set<object>) {
    && (forall i :: i in slots ==> slots[i].count <= slots[i].buf.Length && slots[i].buf in bufs)
    && (forall i, j :: i in slots && j in slots && i != j ==> slots[i].buf != slots[j].buf)
  }

  lemma {:induction false} SeparateUpdated(slots: map<nat, Entry>, bufs: set<object>, i: nat, buf: array<Rgba>, n: nat)
    requires Separate(slots, bufs) && n <= buf.Length && (buf !in bufs || (i in slots && buf == slots[i].buf))
    ensures Separate(slots[i := Entry(buf, n)], bufs + {buf})
  {
  }

  ghost function Buffers(slots: map<nat, Entry>): set<object> { set i | i in slots :: slots[i].buf }

  ghost function ContentsOf(slots: map<nat, Entry>): map<nat, seq<Rgba>>
    reads Buffers(slots)
    requires forall i :: i in slots ==> slots[i].count <= slots[i].buf.Length
  {
    map i | i in slots :: slots[i].buf[..slots[i].count]
  }

  lemma {:induction false} OthersKept(slots: map<nat, Entry>, i: nat, e: Entry)
    requires forall j :: j in slots ==> slots[j].count <= slots[j].buf.Length
    requires e.count <= e.buf.Length
    ensures ContentsOf(slots[i := e]) - {i} == ContentsOf(slots) - {i}
  {
  }

  class Ring {
    const size: nat
    var slots: map<nat, Entry>
    var cursor: nat
    ghost var Repr: set<object>

    ghost predicate Valid()
      reads this
    {
      cursor < size && this in Repr && Separate(slots, Repr - {this})
    }

    ghost function Contents(): map<nat, seq<Rgba>>
      requires Valid()
      reads this, Repr
    {
      ContentsOf(slots)
    }

    constructor (n: nat)
      requires n > 0
      ensures Valid() && size == n && cursor == 0 && Contents() == map[] && Repr == {this}
    {
      size, slots, cursor := n, map[], 0;
      Repr := {this};
    }

    /** The slot's buffer if it is large enough, else a new one. */
    method Room(i: nat, n: nat) returns (buf: array<Rgba>)
      requires Valid()
      ensures Valid() && buf.Length >= n
      ensures fresh(buf) || (i in slots && buf == slots[i].buf)
    {
      if i in slots && slots[i].buf.Length >= n {
        buf := slots[i].buf;
      } else {
        buf := new Rgba[n];
      }
    }

    /** Give the slot a buffer: its own, or one that is not in use. */
    method Install(i: nat, buf: array<Rgba>, n: nat)
      requires Valid() && n <= buf.Length && (buf !in Repr || (i in slots && buf == slots[i].buf))
      modifies this`slots, this`Repr
      ensures Valid() && Repr == old(Repr) + {buf}
      ensures slots == old(slots)[i := Entry(buf, n)] && Contents() - {i} == old(Contents()) - {i}
    {
      SeparateUpdated(slots, Repr - {this}, i, buf, n);
      OthersKept(slots, i, Entry(buf, n));
      assert Repr - {this} + {buf} == Repr + {buf} - {this};
      hide Separate, ContentsOf;
      slots := slots[i := Entry(buf, n)];
      Repr := Repr + {buf};
    }

    /** Make the slot n pixels long, whatever they are. */
    method Resize(i: nat, n: nat)
      requires Valid()
      modifies this`slots, this`Repr
      ensures Valid() && fresh(Repr - old(Repr)) && old(Repr) <= Repr
      ensures i in slots && slots[i].count == n && Contents() - {i} == old(Contents()) - {i}
    {
      var buf := Room(i, n);
      InUse(i);
      hide Separate, ContentsOf;
      Install(i, buf, n);
    }

    lemma {:induction false} InUse(i: nat)
      requires Valid()
      ensures i in slots ==> slots[i].buf in Repr
    {
    }

    method Fill(i: nat, src: array<Rgba>)
      requires Valid() && i in slots && slots[i].count <= src.Length && src !in Repr
      modifies slots[i].buf
      ensures Valid() && i in slots && Contents()[i] == src[..slots[i].count] && Contents() - {i} == old(Contents()) - {i}
    {
      ghost var before := Contents();
      Overwrite(slots[i].buf, src, slots[i].count);
      assert forall j :: j in slots && j != i ==> Contents()[j] == before[j];
    }

    /** Overwrite a slot with the first n pixels of src. */
    method Put(i: nat, src: array<Rgba>, n: nat)
      requires Valid() && n <= src.Length && src !in Repr
      modifies Repr
      ensures Valid() && fresh(Repr - old(Repr)) && old(Repr) <= Repr && cursor == old(cursor)
      ensures Contents() == old(Contents())[i := src[..n]]
      ensures src[..] == old(src[..])
    {
      ghost var before := Contents();
      Resize(i, n);
      Fill(i, src);
      Updated(before, Contents(), i, src[..n]);
    }

    method Insert(src: array<Rgba>, n: nat)
      requires Valid() && n <= src.Length && src !in Repr
      modifies Repr
      ensures Valid() && fresh(Repr - old(Repr)) && old(Repr) <= Repr
      ensures Contents() == old(Contents())[old(cursor) := src[..n]] && cursor == (old(cursor) + 1) % size
      ensures src[..] == old(src[..])
    {
      Put(cursor, src, n);
      Advance();
    }

    method Home()
      requires Valid()
      modifies this`cursor
      ensures Valid() && cursor == 0 && Contents() == old(Contents())
    {
      cursor := 0;
    }

    method Advance()
      requires Valid()
      modifies this`cursor
      ensures Valid() && cursor == (old(cursor) + 1) % size && Contents() == old(Contents())
    {
      cursor := (cursor + 1) % size;
    }
  }

  /** Rows yOn.. of a column from a short one, the others background; all of scratch's
      first height pixels are written. */
  method Construct(scratch: array<Rgba>, height: nat, yOn: nat, short: seq<Rgba>, bg: Rgba)
    requires height <= scratch.Length
    modifies scratch
    ensures scratch[..height] == Compose(height, yOn, short, bg)
  {
    for row := 0 to if yOn < height then yOn else height
      invariant forall k :: 0 <= k < row ==> scratch[k] == bg
    {
      scratch[row] := bg;
    }
    var count: int := |short|;
    if yOn + count > height {
      count := height - yOn;
      if count < 0 {
        count := 0;
      }
    }
    for row := 0 to count
      invariant forall k :: 0 <= k < height && k < yOn ==> scratch[k] == bg
      invariant forall k :: yOn <= k < yOn + row ==> scratch[k] == short[k - yOn]
    {
      scratch[yOn + row] := short[row];
    }
    var row: nat := yOn + |short|;
    while row < height
      invariant forall k :: 0 <= k < height && k < yOn ==> scratch[k] == bg
      invariant forall k :: yOn <= k < yOn + count ==> scratch[k] == short[k - yOn]
      invariant row >= yOn + |short|
      invariant forall k :: yOn + |short| <= k < row && k < height ==> scratch[k] == bg
    {
      scratch[row] := bg;
      row := row + 1;
    }
  }

  class Decoder {
    const full: Ring
    const short: Ring
    var scratch: array<Rgba>

    ghost function Repr(): set<object>
      reads this, full, short
    {
      {this, scratch} + full.Repr + short.Repr
    }

    ghost predicate Valid()
      reads this, full, short
    {
      && full.Valid() && short.Valid() && full.size == VBAR_CACHE && short.size == SHORT_CACHE
      && full.Repr !! short.Repr && scratch !in full.Repr && scratch !in short.Repr
      && this !in full.Repr && this !in short.Repr
    }

    ghost function Contents(): Caches
      requires Valid()
      reads this, full, short, full.Repr, short.Repr
    {
      Caches(full.Contents(), full.cursor, short.Contents(), short.cursor)
    }

    constructor ()
      ensures Valid() && fresh(Repr()) && Contents() == Caches(map[], 0, map[], 0)
    {
      full := new Ring(VBAR_CACHE);
      short := new Ring(SHORT_CACHE);
      scratch := new Rgba[0];
    }

    /** Build a column in the scratch buffer, growing it if need be. */
    method BuildColumn(height: nat, yOn: nat, px: seq<Rgba>, bg: Rgba)
      requires Valid()
      modifies this`scratch, scratch
      ensures Valid() && (scratch == old(scratch) || fresh(scratch)) && Contents() == old(Contents())
      ensures height <= scratch.Length && scratch[..height] == Compose(height, yOn, px, bg)
    {
      hide Compose, Separate, ContentsOf;
      if scratch.Length < height {
        scratch := new Rgba[height];
      }
      Construct(scratch, height, yOn, px, bg);
    }

    method StoreColumn(height: nat, yOn: nat, px: seq<Rgba>, bg: Rgba)
      requires Valid()
      modifies this`scratch, scratch, full.Repr
      ensures Valid() && fresh(Repr() - old(Repr()))
      ensures Contents() == InsertFull(old(Contents()), Compose(height, yOn, px, bg))
    {
      hide Compose;
      BuildColumn(height, yOn, px, bg);
      InsertScratch(height);
    }

    method InsertScratch(height: nat)
      requires Valid() && height <= scratch.Length
      modifies full.Repr
      ensures Valid() && fresh(Repr() - old(Repr())) && scratch == old(scratch)
      ensures Contents() == InsertFull(old(Contents()), old(scratch[..height]))
    {
      full.Insert(scratch, height);
    }

    method StoreShort(px: seq<Rgba>)
      requires Valid()
      modifies short.Repr
      ensures Valid() && fresh(Repr() - old(Repr()))
      ensures Contents() == InsertShort(old(Contents()), px)
    {
      hide Separate, ContentsOf, Compose, Apply, Blank;
      var buf := new Rgba[|px|](i requires 0 <= i < |px| => px[i]);
      assert buf[..|px|] == px;
      short.Insert(buf, |px|);
    }

    /** Build a column and store it; it is then painted from its slot. */
    method NewColumn(height: nat, yOn: nat, px: seq<Rgba>, bg: Rgba) returns (col: seq<Rgba>)
      requires Valid()
      modifies this`scratch, scratch, full.Repr
      ensures Valid() && fresh(Repr() - old(Repr())) && scratch !in full.Repr
      ensures Contents() == InsertFull(old(Contents()), col) && col == Compose(height, yOn, px, bg)
    {
      hide Compose;
      var slot := full.cursor;
      StoreColumn(height, yOn, px, bg);
      col := FullPixels(slot);
    }

    method OldColumn(idx: nat, height: nat) returns (col: seq<Rgba>)
      requires Valid()
      modifies full.Repr
      ensures Valid() && fresh(Repr() - old(Repr()))
      ensures Step(Contents(), col) == Apply(old(Contents()), height, CLEAR, FullHit(idx))
    {
      if idx !in full.slots {
        FillBlank(idx, height);
      }
      col := FullPixels(idx);
    }

    /** The cache-reset flag: both cursors go home, the entries stay. */
    method ResetCursors()
      requires Valid()
      modifies full`cursor, short`cursor
      ensures Valid() && Repr() == old(Repr()) && Contents() == Do(old(Contents()), Reset)
    {
      hide Separate, ContentsOf, Compose, Apply, Blank;
      full.Home();
      short.Home();
    }

    /** The column a code stands for, from the slot that holds it. */
    method Column(height: nat, bg: Rgba, code: Code) returns (col: seq<Rgba>)
      requires Valid()
      modifies this`scratch, scratch, full.Repr, short.Repr
      ensures Valid() && fresh(Repr() - old(Repr()))
      ensures Apply(old(Contents()), height, bg, code) == Step(Contents(), col)
    {
      hide Compose, Contents;
      match code
      case ShortHit(idx, yOn) =>
        var px := ShortPixels(idx);
        col := NewColumn(height, yOn, px, bg);
      case ShortMiss(yOn, pixels) =>
        StoreShort(pixels);
        col := NewColumn(height, yOn, pixels, bg);
      case FullHit(idx) =>
        col := OldColumn(idx, height);
    }

    /** One column: looked up or built, stored, painted. */
    method PaintNext(dst: array<Rgba>, width: nat, height: nat, b: Band, x: nat, code: Code)
      requires Valid() && dst !in Repr() && Height(b) >= 0
      modifies dst, this`scratch, scratch, full.Repr, short.Repr
      ensures Valid() && dst !in Repr() && fresh(Repr() - old(Repr()))
      ensures Contents() == Apply(old(Contents()), Height(b), b.bg, code).caches
      ensures dst[..] == PaintAt(old(dst[..]), width, height, b, x, Apply(old(Contents()), Height(b), b.bg, code).col)
    {
      hide Apply, PaintAt;
      var col := Column(Height(b), b.bg, code);
      Paint(dst, width, height, b, x, col);
    }

    /** The columns of one band. */
    method DecodeBand(dst: array<Rgba>, width: nat, height: nat, b: Band, src: seq<byte>) returns (ok: bool, used: nat)
      requires Valid() && dst !in Repr() && Height(b) >= 0 && b.xStart <= b.xEnd
      modifies dst, this`scratch, scratch, full.Repr, short.Repr
      ensures Valid() && dst !in Repr() && fresh(Repr() - old(Repr()))
      ensures used <= |src|
      ensures var c := DecodeColumns(Layer(old(Contents()), old(dst[..]), true), width, height, b, b.xStart, src);
              Layer(Contents(), dst[..], ok) == c.layer && (ok ==> used == c.used)
    {
      hide ParseCode, Apply, PaintAt, DecodeColumns, Leads, Decoder.Contents;
      ghost var goal := DecodeColumns(Layer(Contents(), dst[..], true), width, height, b, b.xStart, src);
      var x := b.xStart;
      used := 0;
      assert src[0..] == src;
      LeadsFirst(goal);
      while x <= b.xEnd
        invariant b.xStart <= x <= b.xEnd + 1 && used <= |src|
        invariant Valid() && dst !in Repr() && fresh(Repr() - old(Repr()))
        invariant Leads(DecodeColumns(Layer(Contents(), dst[..], true), width, height, b, x, src[used..]), used, goal)
      {
        ghost var l, rest, done := Layer(Contents(), dst[..], true), src[used..], used;
        ColumnStep(l, width, height, b, x, rest, done, goal);
        var p := ParseCode(src[used..]);
        if p.Bad? {
          return false, used;
        }
        PaintNext(dst, width, height, b, x, p.code);
        used := used + p.size;
        assert src[used..] == rest[p.size..];
        x := x + 1;
      }
      ColumnEnd(Layer(Contents(), dst[..], true), width, height, b, src[used..], used, goal);
      ok := true;
    }

    /** The band layer. */
    method DecodeBandLayer(dst: array<Rgba>, width: nat, height: nat, src: seq<byte>) returns (ok: bool)
      requires Valid() && dst !in Repr()
      modifies dst, this`scratch, scratch, full.Repr, short.Repr
      ensures Valid() && dst !in Repr() && fresh(Repr() - old(Repr()))
      ensures Layer(Contents(), dst[..], ok) == DecodeBands(Layer(old(Contents()), old(dst[..]), true), width, height, src)
    {
      hide ParseBand, DecodeColumns, DecodeBands, Decoder.Contents;
      ghost var goal := DecodeBands(Layer(Contents(), dst[..], true), width, height, src);
      var si: nat := 0;
      assert src[0..] == src;
      while si < |src|
        invariant si <= |src|
        invariant Valid() && dst !in Repr() && fresh(Repr() - old(Repr()))
        invariant DecodeBands(Layer(Contents(), dst[..], true), width, height, src[si..]) == goal
      {
        BandStep(Layer(Contents(), dst[..], true), width, height, src[si..]);
        ghost var rest := src[si..];
        var h := ParseBand(src[si..]);
        if h.BadBand? {
          return false;
        }
        si := si + 11;
        assert src[si..] == rest[11..];
        var used;
        ok, used := DecodeBand(dst, width, height, h.band, src[si..]);
        if !ok {
          return;
        }
        si := si + used;
        assert src[si..] == rest[11 + used..];
      }
      ok := true;
      assert src[si..] == [];
      BandEnd(Layer(Contents(), dst[..], true), width, height);
    }

    method ShortPixels(idx: nat) returns (px: seq<Rgba>)
      requires Valid()
      ensures px == ShortAt(Contents(), idx)
    {
      px := if idx in short.slots then short.slots[idx].buf[..short.slots[idx].count] else [];
    }

    method FullPixels(idx: nat) returns (px: seq<Rgba>)
      requires Valid() && idx in Contents().vbars
      ensures px == Contents().vbars[idx]
    {
      px := full.slots[idx].buf[..full.slots[idx].count];
    }

    /** A slot that was never written gets a blank column. */
    method FillBlank(idx: nat, height: nat)
      requires Valid()
      modifies full.Repr
      ensures Valid() && fresh(Repr() - old(Repr()))
      ensures Contents() == old(Contents()).(vbars := old(Contents()).vbars[idx := Blank(height)])
    {
      hide Separate, ContentsOf, Compose, Apply;
      var buf := new Rgba[height](_ => CLEAR);
      assert buf[..height] == Blank(height);
      full.Put(idx, buf, height);
    }
  }

  /** The columns still to come complete those done. */
  ghost predicate Leads(rest: Columns, done: nat, goal: Columns) { goal == Columns(rest.layer, done + rest.used) }

  lemma {:induction false} LeadsFirst(goal: Columns)
    ensures Leads(goal, 0, goal)
  {
  }

  lemma {:induction false} ColumnStep(l: Layer, width: nat, height: nat, b: Band, x: nat, src: seq<byte>, done: nat, goal: Columns)
    requires Height(b) >= 0 && x <= b.xEnd && Leads(DecodeColumns(l, width, height, b, x, src), done, goal) && l.ok
    ensures var p := ParseCode(src);
            if p.Bad? then goal.layer == l.(ok := false)
            else
              var s := Apply(l.caches, Height(b), b.bg, p.code);
              Leads(DecodeColumns(Layer(s.caches, PaintAt(l.dst, width, height, b, x, s.col), true), width, height, b, x + 1, src[p.size..]), done + p.size, goal)
  {
    hide ParseCode, Apply, PaintAt;
  }

  lemma {:induction false} ColumnEnd(l: Layer, width: nat, height: nat, b: Band, src: seq<byte>, done: nat, goal: Columns)
    requires Height(b) >= 0 && Leads(DecodeColumns(l, width, height, b, b.xEnd + 1, src), done, goal)
    ensures goal == Columns(l, done)
  {
  }

  lemma {:induction false} BandStep(l: Layer, width: nat, height: nat, src: seq<byte>)
    requires src != []
    ensures var h := ParseBand(src);
            DecodeBands(l, width, height, src) ==
              if h.BadBand? then l.(ok := false)
              else
                var c := DecodeColumns(l, width, height, h.band, h.band.xStart, src[11..]);
                if !c.layer.ok then c.layer else DecodeBands(c.layer, width, height, src[11 + c.used..])
  {
    hide ParseBand, DecodeColumns;
  }

  lemma {:induction false} BandEnd(l: Layer, width: nat, height: nat)
    ensures DecodeBands(l, width, height, []) == l
  {
  }

  method Paint(dst: array<Rgba>, width: nat, height: nat, b: Band, x: nat, col: seq<Rgba>)
    requires Height(b) >= 0
    modifies dst
    ensures dst[..] == PaintAt(old(dst[..]), width, height, b, x, col)
  {
    if x >= width {
      return;
    }
    var count: int := Height(b);
    if |col| < count {
      count := |col|;
    }
    if count > height - b.yStart {
      count := height - b.yStart;
    }
    if count < 0 {
      count := 0;
    }
    for row := 0 to count
      invariant dst[..] == PaintColumn(old(dst[..]), width, x, b.yStart, col, row)
    {
      var off := Index(width, x, b.yStart + row);
      if off < dst.Length {
        ghost var before := dst[..];
        dst[off] := col[row];
        assert dst[..] == before[off := col[row]];
      }
    }
  }
}
