/** ClearCodec columns and the two ring caches that remember them. */
module VBars {
  import opened Raster

  const VBAR_CACHE := 32768
  const SHORT_CACHE := 16384
  const MAX_HEIGHT := 52

  /** A column of the given height: background, the short column from row yOn on,
      background. */
  function Compose(height: nat, yOn: nat, short: seq<Rgba>, bg: Rgba): (col: seq<Rgba>)
    ensures |col| == height
  {
    seq(height, r requires 0 <= r < height => if yOn <= r < yOn + |short| then short[r - yOn] else bg)
  }

  /** Full columns and short columns by slot, and the slots to be written next. */
  datatype Caches = Caches(vbars: map<nat, seq<Rgba>>, vcursor: nat, shorts: map<nat, seq<Rgba>>, scursor: nat)

  ghost predicate Valid(c: Caches) { c.vcursor < VBAR_CACHE && c.scursor < SHORT_CACHE }

  function InsertFull(c: Caches, col: seq<Rgba>): Caches {
    c.(vbars := c.vbars[c.vcursor := col], vcursor := (c.vcursor + 1) % VBAR_CACHE)
  }

  function InsertShort(c: Caches, short: seq<Rgba>): Caches {
    c.(shorts := c.shorts[c.scursor := short], scursor := (c.scursor + 1) % SHORT_CACHE)
  }

  /** A column as it is sent. */
  datatype Code =
    | ShortHit(idx: nat, yOn: nat)
    | ShortMiss(yOn: nat, pixels: seq<Rgba>)
    | FullHit(idx: nat)

  function ShortAt(c: Caches, idx: nat): seq<Rgba> { if idx in c.shorts then c.shorts[idx] else [] }

  function Blank(height: nat): (col: seq<Rgba>)
    ensures |col| == height
  {
    seq(height, _ => CLEAR)
  }

  /** The column a code stands for, and the caches after it.  A full slot that was never
      written is filled with a blank column. */
  datatype Step = Step(caches: Caches, col: seq<Rgba>)

  function Apply(c: Caches, height: nat, bg: Rgba, code: Code): Step {
    match code
    case ShortHit(idx, yOn) =>
      var col := Compose(height, yOn, ShortAt(c, idx), bg);
      Step(InsertFull(c, col), col)
    case ShortMiss(yOn, pixels) =>
      var col := Compose(height, yOn, pixels, bg);
      Step(InsertFull(InsertShort(c, pixels), col), col)
    case FullHit(idx) =>
      if idx in c.vbars then Step(c, c.vbars[idx]) else Step(c.(vbars := c.vbars[idx := Blank(height)]), Blank(height))
  }

  /** What each code stands for, row by row: short pixels from row yOn on, the background
      above and below; a cached column as it was stored; nothing where none was. */
  lemma {:induction false} ColumnRows(c: Caches, height: nat, bg: Rgba, code: Code, r: nat)
    requires r < height
    ensures var col := Apply(c, height, bg, code).col;
            match code
            case ShortMiss(yOn, px) => |col| == height && col[r] == if yOn <= r < yOn + |px| then px[r - yOn] else bg
            case ShortHit(idx, yOn) =>
              && |col| == height
              && (idx in c.shorts && yOn <= r < yOn + |c.shorts[idx]| ==> col[r] == c.shorts[idx][r - yOn])
              && (idx in c.shorts && !(yOn <= r < yOn + |c.shorts[idx]|) ==> col[r] == bg)
              && (idx !in c.shorts ==> col[r] == bg)
            case FullHit(idx) => if idx in c.vbars then col == c.vbars[idx] else |col| == height && col[r] == Rgba(0, 0, 0, 0)
  {
  }

  // ---------- the rings ----------

  /** A column code with the height and background of its band, or the flag that resets
      both cursors and keeps the entries. */
  datatype Event = Column(height: nat, bg: Rgba, code: Code) | Reset

  function Do(c: Caches, e: Event): Caches {
    match e
    case Column(height, bg, code) => Apply(c, height, bg, code).caches
    case Reset => c.(vcursor := 0, scursor := 0)
  }

  function Run(c: Caches, es: seq<Event>): Caches
    decreases es
  {
    if es == [] then c else Run(Do(c, es[0]), es[1..])
  }

  /** What an event does to one ring: write at the cursor, nothing, or go home. */
  datatype Move = Put(col: seq<Rgba>) | Stay | Home

  function FullMove(c: Caches, e: Event): Move {
    if e.Reset? then Home else if e.code.FullHit? then Stay else Put(Apply(c, e.height, e.bg, e.code).col)
  }

  function ShortMove(e: Event): Move {
    if e.Reset? then Home else if e.code.ShortMiss? then Put(e.code.pixels) else Stay
  }

  function FullMoves(c: Caches, es: seq<Event>): seq<Move>
    decreases es
  {
    if es == [] then [] else [FullMove(c, es[0])] + FullMoves(Do(c, es[0]), es[1..])
  }

  function ShortMoves(es: seq<Event>): seq<Move>
    decreases es
  {
    if es == [] then [] else [ShortMove(es[0])] + ShortMoves(es[1..])
  }

  function Moved(cursor: nat, size: nat, m: Move): nat
    requires cursor < size
  {
    match m
    case Put(_) => if cursor + 1 == size then 0 else cursor + 1
    case Stay => cursor
    case Home => 0
  }

  function CursorAfter(cursor: nat, size: nat, ms: seq<Move>): (r: nat)
    requires cursor < size
    ensures r < size
    decreases ms
  {
    if ms == [] then cursor else CursorAfter(Moved(cursor, size, ms[0]), size, ms[1..])
  }

  /** The log of insertions: slot and column, oldest first. */
  function Log(cursor: nat, size: nat, ms: seq<Move>): seq<(nat, seq<Rgba>)>
    requires cursor < size
    decreases ms
  {
    if ms == [] then []
    else (if ms[0].Put? then [(cursor, ms[0].col)] else []) + Log(Moved(cursor, size, ms[0]), size, ms[1..])
  }

  function Latest(log: seq<(nat, seq<Rgba>)>, slot: nat): seq<seq<Rgba>>
    decreases log
  {
    if log == [] then []
    else
      var later := Latest(log[1..], slot);
      if later != [] then later else if log[0].0 == slot then [log[0].1] else []
  }

  lemma {:induction false} LatestOfConcat(head: seq<(nat, seq<Rgba>)>, log: seq<(nat, seq<Rgba>)>, slot: nat)
    requires |head| <= 1
    ensures Latest(head + log, slot) ==
              if Latest(log, slot) != [] then Latest(log, slot)
              else if head != [] && head[0].0 == slot then [head[0].1] else []
  {
    if head == [] {
      assert head + log == log;
    } else {
      assert (head + log)[1..] == log && (head + log)[0] == head[0];
    }
  }

  lemma {:induction false} LatestStep(cursor: nat, size: nat, m: Move, ms: seq<Move>, slot: nat)
    requires cursor < size
    ensures var later := Latest(Log(Moved(cursor, size, m), size, ms), slot);
            Latest(Log(cursor, size, [m] + ms), slot) ==
              if later != [] then later else if m.Put? && cursor == slot then [m.col] else []
  {
    assert ([m] + ms)[1..] == ms;
    LatestOfConcat(if m.Put? then [(cursor, m.col)] else [], Log(Moved(cursor, size, m), size, ms), slot);
    hide Latest;
  }

  /** A full slot holds the column last inserted there; one without insertions keeps what
      it held, and if it held nothing, nothing or a blank column. */
  ghost predicate FullHolds(was: map<nat, seq<Rgba>>, after: map<nat, seq<Rgba>>, slot: nat, last: seq<seq<Rgba>>) {
    && (last != [] ==> slot in after && after[slot] == last[0])
    && (last == [] && slot in was ==> slot in after && after[slot] == was[slot])
    && (last == [] && slot in after && slot !in was ==> after[slot] == Blank(|after[slot]|))
  }

  /** A short slot the same, but it is never filled with a blank. */
  ghost predicate ShortHolds(was: map<nat, seq<Rgba>>, after: map<nat, seq<Rgba>>, slot: nat, last: seq<seq<Rgba>>) {
    && (last != [] ==> slot in after && after[slot] == last[0])
    && (last == [] ==> (slot in after <==> slot in was))
    && (last == [] && slot in was ==> after[slot] == was[slot])
  }

  /** One event on each ring. */
  lemma {:induction false} DoMoves(c: Caches, e: Event, slot: nat)
    requires Valid(c)
    ensures var c' := Do(c, e);
            && Valid(c')
            && c'.vcursor == Moved(c.vcursor, VBAR_CACHE, FullMove(c, e)) && c'.scursor == Moved(c.scursor, SHORT_CACHE, ShortMove(e))
            && (var m := FullMove(c, e); FullHolds(c.vbars, c'.vbars, slot, if m.Put? && c.vcursor == slot then [m.col] else []))
            && (var m := ShortMove(e); ShortHolds(c.shorts, c'.shorts, slot, if m.Put? && c.scursor == slot then [m.col] else []))
  {
    hide Compose;
  }

  /** Both cursors are those of their rings. */
  lemma {:induction false} CursorsMove(c: Caches, es: seq<Event>)
    requires Valid(c)
    ensures Valid(Run(c, es))
    ensures Run(c, es).vcursor == CursorAfter(c.vcursor, VBAR_CACHE, FullMoves(c, es))
    ensures Run(c, es).scursor == CursorAfter(c.scursor, SHORT_CACHE, ShortMoves(es))
    decreases es
  {
    hide Do, FullMove, ShortMove, Moved;
    if es != [] {
      DoMoves(c, es[0], 0);
      CursorsMove(Do(c, es[0]), es[1..]);
      assert FullMoves(c, es)[1..] == FullMoves(Do(c, es[0]), es[1..]) && ShortMoves(es)[1..] == ShortMoves(es[1..]);
    }
  }

  /** Any run of codes and resets: each slot of either ring holds what was last inserted
      there. */
  lemma {:induction false} SlotHoldsLatest(c: Caches, es: seq<Event>, slot: nat)
    requires Valid(c)
    ensures FullHolds(c.vbars, Run(c, es).vbars, slot, Latest(Log(c.vcursor, VBAR_CACHE, FullMoves(c, es)), slot))
    ensures ShortHolds(c.shorts, Run(c, es).shorts, slot, Latest(Log(c.scursor, SHORT_CACHE, ShortMoves(es)), slot))
    decreases es
  {
    if es == [] {
    } else {
      hide Do, FullMove, ShortMove, Moved, Log, Latest;
      DoMoves(c, es[0], slot);
      SlotHoldsLatest(Do(c, es[0]), es[1..], slot);
      LatestStep(c.vcursor, VBAR_CACHE, FullMove(c, es[0]), FullMoves(Do(c, es[0]), es[1..]), slot);
      LatestStep(c.scursor, SHORT_CACHE, ShortMove(es[0]), ShortMoves(es[1..]), slot);
    }
  }

  /** Insertions before the first reset. */
  function Lead(ms: seq<Move>): nat {
    if ms == [] || ms[0].Home? then 0 else (if ms[0].Put? then 1 else 0) + Lead(ms[1..])
  }

  /** The most insertions between a reset and the next. */
  function Longest(ms: seq<Move>): nat {
    if ms == [] then 0
    else
      var rest := Longest(ms[1..]);
      if ms[0].Home? && Lead(ms[1..]) > rest then Lead(ms[1..]) else rest
  }

  ghost predicate NoReset(ms: seq<Move>) { forall i :: 0 <= i < |ms| ==> !ms[i].Home? }

  /** Without a reset a cursor counts the insertions around its ring. */
  lemma {:induction false} CursorCounts(cursor: nat, size: nat, ms: seq<Move>)
    requires cursor < size && NoReset(ms) && (size == VBAR_CACHE || size == SHORT_CACHE)
    ensures CursorAfter(cursor, size, ms) == (cursor + Lead(ms)) % size
    decreases ms
  {
    if ms != [] {
      assert NoReset(ms[1..]);
      CursorCounts(Moved(cursor, size, ms[0]), size, ms[1..]);
    }
  }

  /** A reset makes it forget what was before. */
  lemma {:induction false} CursorRestarts(cursor: nat, size: nat, before: seq<Move>, ms: seq<Move>)
    requires cursor < size
    ensures CursorAfter(cursor, size, before + [Home] + ms) == CursorAfter(0, size, ms)
    decreases before
  {
    var all := before + [Home] + ms;
    if before == [] {
      assert all[0] == Home && all[1..] == ms;
    } else {
      CursorRestarts(Moved(cursor, size, before[0]), size, before[1..], ms);
      assert all[0] == before[0] && all[1..] == before[1..] + [Home] + ms;
      hide Moved;
    }
  }

  /** Insertions until the cursor stands on the slot. */
  function Distance(cursor: nat, size: nat, slot: nat): int { if slot < cursor then slot - cursor + size else slot - cursor }

  /** A slot is not written if and only if the insertions before the first reset do not
      reach round to it, nor those after any reset from the start of the ring. */
  lemma {:induction false} UntouchedIff(cursor: nat, size: nat, ms: seq<Move>, slot: nat)
    requires cursor < size && slot < size
    ensures Latest(Log(cursor, size, ms), slot) == [] <==> Distance(cursor, size, slot) >= Lead(ms) && slot >= Longest(ms)
    decreases ms
  {
    if ms != [] {
      assert [ms[0]] + ms[1..] == ms;
      LatestStep(cursor, size, ms[0], ms[1..], slot);
      UntouchedIff(Moved(cursor, size, ms[0]), size, ms[1..], slot);
      hide Log, Latest;
    }
  }

  /** A cached column can be referred to until its ring has come round, or started again
      and come so far. */
  lemma {:induction false} RingKeeps(c: Caches, es: seq<Event>, slot: nat)
    requires Valid(c)
    ensures slot < VBAR_CACHE && slot in c.vbars && Distance(c.vcursor, VBAR_CACHE, slot) >= Lead(FullMoves(c, es)) && slot >= Longest(FullMoves(c, es)) ==>
              slot in Run(c, es).vbars && Run(c, es).vbars[slot] == c.vbars[slot]
    ensures slot < SHORT_CACHE && slot in c.shorts && Distance(c.scursor, SHORT_CACHE, slot) >= Lead(ShortMoves(es)) && slot >= Longest(ShortMoves(es)) ==>
              slot in Run(c, es).shorts && Run(c, es).shorts[slot] == c.shorts[slot]
  {
    hide Log, Latest, Distance, Run, Longest, Lead, FullMoves, ShortMoves;
    SlotHoldsLatest(c, es, slot);
    if slot < VBAR_CACHE { UntouchedIff(c.vcursor, VBAR_CACHE, FullMoves(c, es), slot); }
    if slot < SHORT_CACHE { UntouchedIff(c.scursor, SHORT_CACHE, ShortMoves(es), slot); }
  }

  /** The full column just inserted is there for 32767 more insertions, and the short one
      for 16383, as far as resets do not bring the cursor back to it. */
  lemma {:induction false} InsertedStays(c: Caches, e: Event, es: seq<Event>)
    requires Valid(c)
    ensures var c1, m, ms := Do(c, e), FullMove(c, e), FullMoves(Do(c, e), es);
            m.Put? && Lead(ms) < VBAR_CACHE && Longest(ms) <= c.vcursor ==>
              c.vcursor in Run(c1, es).vbars && Run(c1, es).vbars[c.vcursor] == m.col
    ensures var c1, m, ms := Do(c, e), ShortMove(e), ShortMoves(es);
            m.Put? && Lead(ms) < SHORT_CACHE && Longest(ms) <= c.scursor ==>
              c.scursor in Run(c1, es).shorts && Run(c1, es).shorts[c.scursor] == m.col
  {
    hide Do, FullMove, ShortMove, Run, Longest, Lead, FullMoves, ShortMoves;
    DoMoves(c, e, c.vcursor);
    DoMoves(c, e, c.scursor);
    RingKeeps(Do(c, e), es, c.vcursor);
    RingKeeps(Do(c, e), es, c.scursor);
  }
}
