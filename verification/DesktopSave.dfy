/** The desktop save cache: screen rectangles kept at offsets the server picks. */
module DesktopSave {
  import opened Bits
  import opened Raster
  import opened Framebuffer

  const CAPACITY := 230400

  /** left, top, right, bottom; the right and bottom edges belong to the area. */
  datatype Area = Area(left: int, top: int, right: int, bottom: int)

  function Width(a: Area): int { a.right - a.left + 1 }

  function Height(a: Area): int { a.bottom - a.top + 1 }

  /** The area is not empty and its pixels fit the cache from the offset on. */
  predicate Fits(cache: seq<Rgba>, offset: nat, a: Area) {
    Width(a) > 0 && Height(a) > 0 && offset + Width(a) * Height(a) <= |cache|
  }

  predicate Has(s: Screen, x: int, y: int) { 0 <= x < s.width && 0 <= y < s.height }

  // ---------- saving ----------

  /** n pixels of screen row y from column x on; pixels off the screen are passed over. */
  function SaveRow(cache: seq<Rgba>, i: nat, s: Screen, x: int, y: int, n: nat): (c: seq<Rgba>)
    requires Valid(s) && i + n <= |cache|
    ensures |c| == |cache|
    ensures forall k :: 0 <= k < |c| ==>
              c[k] == if i <= k < i + n && Has(s, x + (k - i), y) then At(s, x + (k - i), y) else cache[k]
    decreases n
  {
    if n == 0 then cache
    else SaveRow(if Has(s, x, y) then cache[i := At(s, x, y)] else cache, i + 1, s, x + 1, y, n - 1)
  }

  function SaveRows(cache: seq<Rgba>, i: nat, s: Screen, x: int, y: int, n: nat, rows: nat): (c: seq<Rgba>)
    requires Valid(s) && RowsFit(|cache|, i, n, rows)
    ensures |c| == |cache|
    decreases rows
  {
    if rows == 0 then cache
    else
      FirstRowFits(|cache|, i, n, rows);
      SaveRows(SaveRow(cache, i, s, x, y, n), i + n, s, x, y + 1, n, rows - 1)
  }

  ghost predicate RowsFit(len: nat, i: nat, n: nat, rows: nat) { i + rows * n <= len }

  lemma {:induction false} FirstRowFits(len: nat, i: nat, n: nat, rows: nat)
    requires rows > 0 && RowsFit(len, i, n, rows)
    ensures i + n <= len && RowsFit(len, i + n, n, rows - 1)
  {
    assert rows * n == n + (rows - 1) * n;
    if rows > 1 { MulAtLeast(rows - 1, n); }
  }

  function Save(cache: seq<Rgba>, offset: nat, a: Area, s: Screen): (c: seq<Rgba>)
    requires Valid(s)
    ensures |c| == |cache|
  {
    if Fits(cache, offset, a) then SaveRows(cache, offset, s, a.left, a.top, Width(a), Height(a)) else cache
  }

  // ---------- restoring ----------

  /** n cache pixels back to screen row y from column x on. */
  function RestoreRow(s: Screen, cache: seq<Rgba>, i: nat, x: int, y: int, n: nat): (s': Screen)
    requires Valid(s) && i + n <= |cache|
    ensures s'.width == s.width && s'.height == s.height && |s'.pixels| == |s.pixels|
    decreases n
  {
    if n == 0 then s else RestoreRow(if Has(s, x, y) then Plot(s, x, y, cache[i]) else s, cache, i + 1, x + 1, y, n - 1)
  }

  function Plot(s: Screen, x: int, y: int, c: Rgba): (s': Screen)
    requires Valid(s) && Has(s, x, y)
    ensures s'.width == s.width && s'.height == s.height && |s'.pixels| == |s.pixels|
  {
    IndexInRange(s.width, s.height, x, s.height - 1 - y);
    s.(pixels := s.pixels[Index(s.width, x, s.height - 1 - y) := c])
  }

  function RestoreRows(s: Screen, cache: seq<Rgba>, i: nat, x: int, y: int, n: nat, rows: nat): (s': Screen)
    requires Valid(s) && RowsFit(|cache|, i, n, rows)
    ensures s'.width == s.width && s'.height == s.height && |s'.pixels| == |s.pixels|
    decreases rows
  {
    if rows == 0 then s
    else
      FirstRowFits(|cache|, i, n, rows);
      RestoreRows(RestoreRow(s, cache, i, x, y, n), cache, i + n, x, y + 1, n, rows - 1)
  }

  function Restore(cache: seq<Rgba>, offset: nat, a: Area, s: Screen): (s': Screen)
    requires Valid(s)
    ensures s'.width == s.width && s'.height == s.height && |s'.pixels| == |s.pixels|
  {
    if Fits(cache, offset, a) then RestoreRows(s, cache, offset, a.left, a.top, Width(a), Height(a)) else s
  }

  // ---------- pixel by pixel ----------

  lemma {:induction false} PlotAt(s: Screen, px: int, py: int, c: Rgba, x: int, y: int)
    requires Valid(s) && Has(s, px, py) && Has(s, x, y)
    ensures At(Plot(s, px, py, c), x, y) == if x == px && y == py then c else At(s, x, y)
  {
    IndexInBand(s.width, x, s.height - 1 - y, px, s.height - 1 - py, 1);
    IndexInRange(s.width, s.height, x, s.height - 1 - y);
  }

  lemma {:induction false} RestoreRowAt(s: Screen, cache: seq<Rgba>, i: nat, x0: int, y0: int, n: nat, x: int, y: int)
    requires Valid(s) && i + n <= |cache| && Has(s, x, y)
    ensures At(RestoreRow(s, cache, i, x0, y0, n), x, y) == if y == y0 && x0 <= x < x0 + n then cache[i + (x - x0)] else At(s, x, y)
    decreases n
  {
    hide At, Plot;
    if n > 0 {
      var s1 := if Has(s, x0, y0) then Plot(s, x0, y0, cache[i]) else s;
      if Has(s, x0, y0) { PlotAt(s, x0, y0, cache[i], x, y); }
      RestoreRowAt(s1, cache, i + 1, x0 + 1, y0, n - 1, x, y);
    }
  }

  lemma {:induction false} RestoreRowsAt(s: Screen, cache: seq<Rgba>, i: nat, x0: int, y0: int, n: nat, rows: nat, x: int, y: int)
    requires Valid(s) && RowsFit(|cache|, i, n, rows) && Has(s, x, y)
    ensures InRect(x, y, x0, y0, n, rows) ==> i + Index(n, x - x0, y - y0) < |cache|
    ensures At(RestoreRows(s, cache, i, x0, y0, n, rows), x, y) ==
              if InRect(x, y, x0, y0, n, rows) then cache[i + Index(n, x - x0, y - y0)] else At(s, x, y)
    decreases rows
  {
    hide At, RestoreRow, RowsFit;
    if rows > 0 {
      FirstRowFits(|cache|, i, n, rows);
      RestoreRowAt(s, cache, i, x0, y0, n, x, y);
      RestoreRowsAt(RestoreRow(s, cache, i, x0, y0, n), cache, i + n, x0, y0 + 1, n, rows - 1, x, y);
      if InRect(x, y, x0, y0, n, rows) {
        if y > y0 { LaterIndex(n, x - x0, y - y0); } else { FirstIndex(n, x - x0); }
      }
      hide Index;
    }
  }

  lemma {:induction false} LaterIndex(n: nat, x: nat, y: nat)
    requires y > 0
    ensures Index(n, x, y) == n + Index(n, x, y - 1)
  {
    NextRow(n, x, y - 1);
  }

  lemma {:induction false} FirstIndex(n: nat, x: nat)
    ensures Index(n, x, 0) == x
  {
  }

  /** What a cache cell holds after saving: the pixel it stands for if that is on the
      screen, and what it held otherwise. */
  lemma {:induction false} SaveRowsAt(cache: seq<Rgba>, i: nat, s: Screen, x: int, y: int, n: nat, rows: nat, dx: nat, dy: nat)
    requires Valid(s) && RowsFit(|cache|, i, n, rows) && dx < n && dy < rows
    ensures i + Index(n, dx, dy) < |cache|
    ensures SaveRows(cache, i, s, x, y, n, rows)[i + Index(n, dx, dy)] ==
              if Has(s, x + dx, y + dy) then At(s, x + dx, y + dy) else cache[i + Index(n, dx, dy)]
    decreases rows
  {
    hide *;
    SaveRowsStep(cache, i, s, x, y, n, rows);
    var c := SaveRow(cache, i, s, x, y, n);
    if dy == 0 {
      FirstIndex(n, dx);
      SaveRowsOutside(c, i + n, s, x, y + 1, n, rows - 1, i + dx);
    } else {
      LaterIndex(n, dx, dy);
      SaveRowsAt(c, i + n, s, x, y + 1, n, rows - 1, dx, dy - 1);
    }
  }

  lemma {:induction false} SaveRowsStep(cache: seq<Rgba>, i: nat, s: Screen, x: int, y: int, n: nat, rows: nat)
    requires Valid(s) && rows > 0 && RowsFit(|cache|, i, n, rows)
    ensures i + n <= |cache| && RowsFit(|cache|, i + n, n, rows - 1)
    ensures SaveRows(cache, i, s, x, y, n, rows) == SaveRows(SaveRow(cache, i, s, x, y, n), i + n, s, x, y + 1, n, rows - 1)
  {
    FirstRowFits(|cache|, i, n, rows);
    hide SaveRow, RowsFit;
  }

  /** Cells outside the area's stretch stay. */
  lemma {:induction false} SaveRowsOutside(cache: seq<Rgba>, i: nat, s: Screen, x: int, y: int, n: nat, rows: nat, k: nat)
    requires Valid(s) && RowsFit(|cache|, i, n, rows) && k < |cache| && (k < i || k >= i + rows * n)
    ensures SaveRows(cache, i, s, x, y, n, rows)[k] == cache[k]
    decreases rows
  {
    hide At;
    if rows > 0 {
      FirstRowFits(|cache|, i, n, rows);
      assert rows * n == n + (rows - 1) * n;
      MulAtLeast(rows - 1, n);
      hide RowsFit;
      SaveRowsOutside(SaveRow(cache, i, s, x, y, n), i + n, s, x, y + 1, n, rows - 1, k);
    }
  }

  // ---------- save, draw, restore ----------

  /** A save: where, which area, and the screen it was taken from. */
  datatype Saving = Saving(offset: nat, area: Area, screen: Screen)

  function Cells(a: Area): nat { if Width(a) > 0 && Height(a) > 0 then Width(a) * Height(a) else 0 }

  predicate Disjoint(offset: nat, a: Area, other: Saving) {
    offset + Cells(a) <= other.offset || other.offset + Cells(other.area) <= offset
  }

  ghost predicate AllValid(saves: seq<Saving>) { forall i :: 0 <= i < |saves| ==> Valid(saves[i].screen) }

  function SaveAll(cache: seq<Rgba>, saves: seq<Saving>): (c: seq<Rgba>)
    requires AllValid(saves)
    ensures |c| == |cache|
    decreases saves
  {
    if saves == [] then cache else SaveAll(Save(cache, saves[0].offset, saves[0].area, saves[0].screen), saves[1..])
  }

  lemma {:induction false} OtherSaveKeeps(cache: seq<Rgba>, offset: nat, a: Area, other: Saving, k: nat)
    requires Valid(other.screen) && Disjoint(offset, a, other) && offset <= k < offset + Cells(a) && k < |cache|
    ensures Save(cache, other.offset, other.area, other.screen)[k] == cache[k]
  {
    hide SaveRows;
    if Fits(cache, other.offset, other.area) {
      SaveRowsOutside(cache, other.offset, other.screen, other.area.left, other.area.top, Width(other.area), Height(other.area), k);
    }
  }

  lemma {:induction false} OtherSavesKeep(cache: seq<Rgba>, offset: nat, a: Area, saves: seq<Saving>, k: nat)
    requires AllValid(saves) && (forall i :: 0 <= i < |saves| ==> Disjoint(offset, a, saves[i]))
    requires offset <= k < offset + Cells(a) && k < |cache|
    ensures SaveAll(cache, saves)[k] == cache[k]
    decreases saves
  {
    hide Save, Cells;
    if saves != [] {
      OtherSaveKeeps(cache, offset, a, saves[0], k);
      OtherSavesKeep(Save(cache, saves[0].offset, saves[0].area, saves[0].screen), offset, a, saves[1..], k);
    }
  }

  /** Whatever was drawn in between, and whatever was saved elsewhere: restoring gives the
      part of the area that is on the screen its saved pixels, and nothing else changes.
      A save that does not fit is refused, and so is its restore. */
  lemma {:induction false} SaveDrawRestore(cache: seq<Rgba>, offset: nat, a: Area, s: Screen, saves: seq<Saving>, t: Screen, x: int, y: int)
    requires Valid(s) && Valid(t) && t.width == s.width && t.height == s.height && Has(s, x, y)
    requires AllValid(saves) && forall i :: 0 <= i < |saves| ==> Disjoint(offset, a, saves[i])
    ensures At(Restore(SaveAll(Save(cache, offset, a, s), saves), offset, a, t), x, y) ==
              if Fits(cache, offset, a) && InRect(x, y, a.left, a.top, Width(a), Height(a)) then At(s, x, y) else At(t, x, y)
  {
    var c := Save(cache, offset, a, s);
    if Fits(cache, offset, a) {
      RestoredAt(SaveAll(c, saves), offset, a, t, x, y);
      if InRect(x, y, a.left, a.top, Width(a), Height(a)) {
        SavedAt(cache, offset, a, s, x, y);
        hide *;
        OtherSavesKeep(c, offset, a, saves, Cell(offset, a, x, y));
      }
    }
  }

  /** The cache cell of a place in the area. */
  function Cell(offset: nat, a: Area, x: int, y: int): nat
    requires InRect(x, y, a.left, a.top, Width(a), Height(a))
  {
    offset + Index(Width(a), x - a.left, y - a.top)
  }

  lemma {:induction false} RestoredAt(cache: seq<Rgba>, offset: nat, a: Area, t: Screen, x: int, y: int)
    requires Valid(t) && Has(t, x, y) && Fits(cache, offset, a)
    ensures InRect(x, y, a.left, a.top, Width(a), Height(a)) ==> Cell(offset, a, x, y) < |cache|
    ensures At(Restore(cache, offset, a, t), x, y) ==
              if InRect(x, y, a.left, a.top, Width(a), Height(a)) then cache[Cell(offset, a, x, y)] else At(t, x, y)
  {
    hide At, RestoreRows, Index;
    RestoreRowsAt(t, cache, offset, a.left, a.top, Width(a), Height(a), x, y);
  }

  lemma {:induction false} SavedAt(cache: seq<Rgba>, offset: nat, a: Area, s: Screen, x: int, y: int)
    requires Valid(s) && Has(s, x, y) && Fits(cache, offset, a) && InRect(x, y, a.left, a.top, Width(a), Height(a))
    ensures offset <= Cell(offset, a, x, y) < |cache| && Cell(offset, a, x, y) < offset + Cells(a)
    ensures Save(cache, offset, a, s)[Cell(offset, a, x, y)] == At(s, x, y)
  {
    CellPlace(cache, offset, a, x, y);
    SaveIs(cache, offset, a, s);
    assert y - a.top < Height(a) && x - a.left < Width(a) && Has(s, a.left + (x - a.left), a.top + (y - a.top));
    hide *;
    SaveRowsAt(cache, offset, s, a.left, a.top, Width(a), Height(a), x - a.left, y - a.top);
  }

  lemma {:induction false} CellPlace(cache: seq<Rgba>, offset: nat, a: Area, x: int, y: int)
    requires Fits(cache, offset, a) && InRect(x, y, a.left, a.top, Width(a), Height(a))
    ensures RowsFit(|cache|, offset, Width(a), Height(a))
    ensures Cell(offset, a, x, y) == offset + Index(Width(a), x - a.left, y - a.top)
    ensures offset <= Cell(offset, a, x, y) < offset + Cells(a) <= |cache|
  {
    CellInStretch(Width(a), Height(a), x - a.left, y - a.top);
    hide Index;
  }

  lemma {:induction false} SaveIs(cache: seq<Rgba>, offset: nat, a: Area, s: Screen)
    requires Valid(s) && Fits(cache, offset, a)
    ensures Width(a) > 0 && Height(a) > 0 && RowsFit(|cache|, offset, Width(a), Height(a))
    ensures Save(cache, offset, a, s) == SaveRows(cache, offset, s, a.left, a.top, Width(a), Height(a))
  {
    hide SaveRows;
  }

  lemma {:induction false} CellInStretch(n: nat, rows: nat, dx: nat, dy: nat)
    requires dx < n && dy < rows
    ensures Index(n, dx, dy) < n * rows == rows * n
  {
    IndexInRange(n, rows, dx, dy);
  }

  // ---------- cell by cell ----------

  /** Column and row numbers of a cell: both edges belong to the area, and rows are kept
      from the top down, one after the other. */
  ghost predicate CellOf(offset: nat, a: Area, dx: nat, dy: nat, k: nat) {
    dx <= a.right - a.left && dy <= a.bottom - a.top && k == offset + dy * (a.right - a.left + 1) + dx
  }

  /** The area's cells all exist. */
  ghost predicate Room(size: nat, offset: nat, a: Area) {
    a.left <= a.right && a.top <= a.bottom && offset + (a.right - a.left + 1) * (a.bottom - a.top + 1) <= size
  }

  lemma {:induction false} RoomIs(cache: seq<Rgba>, offset: nat, a: Area)
    ensures Fits(cache, offset, a) <==> Room(|cache|, offset, a)
  {
  }

  lemma {:induction false} CellIs(cache: seq<Rgba>, offset: nat, a: Area, dx: nat, dy: nat, k: nat)
    requires CellOf(offset, a, dx, dy, k) && Fits(cache, offset, a)
    ensures dx < Width(a) && dy < Height(a) && Width(a) > 0 && Height(a) > 0
    ensures k == offset + Index(Width(a), dx, dy) && offset <= k < |cache| && RowsFit(|cache|, offset, Width(a), Height(a))
  {
    CellInStretch(Width(a), Height(a), dx, dy);
  }

  /** A save: each cell of the area takes its pixel from the screen, whose rows are stored
      from the bottom up, or stays where the place is off the screen. */
  lemma {:induction false} SavesCell(cache: seq<Rgba>, offset: nat, a: Area, s: Screen, dx: nat, dy: nat, k: nat, i: nat)
    requires Valid(s) && Room(|cache|, offset, a) && CellOf(offset, a, dx, dy, k)
    ensures k < |cache|
    ensures StoredAt(s, a.left + dx, a.top + dy, i) ==> i < |s.pixels| && Save(cache, offset, a, s)[k] == s.pixels[i]
    ensures !(0 <= a.left + dx < s.width && 0 <= a.top + dy < s.height) ==> Save(cache, offset, a, s)[k] == cache[k]
  {
    hide *;
    CellSaved(cache, offset, a, s, dx, dy, k);
    HasIs(s, a.left + dx, a.top + dy);
    if StoredAt(s, a.left + dx, a.top + dy, i) { StoredIs(s, a.left + dx, a.top + dy, i); }
  }

  /** Where the screen keeps the pixel of a place on it. */
  ghost predicate StoredAt(s: Screen, x: int, y: int, i: nat) {
    0 <= x < s.width && 0 <= y < s.height && i == (s.height - 1 - y) * s.width + x
  }

  lemma {:induction false} StoredIs(s: Screen, x: int, y: int, i: nat)
    requires Valid(s) && StoredAt(s, x, y, i)
    ensures Has(s, x, y) && 0 <= x < s.width && 0 <= y < s.height && i < |s.pixels| && At(s, x, y) == s.pixels[i]
  {
    RawAt(s, x, y, i);
    hide At;
  }

  lemma {:induction false} CellSaved(cache: seq<Rgba>, offset: nat, a: Area, s: Screen, dx: nat, dy: nat, k: nat)
    requires Valid(s) && Room(|cache|, offset, a) && CellOf(offset, a, dx, dy, k)
    ensures k < |cache|
    ensures Save(cache, offset, a, s)[k] == if Has(s, a.left + dx, a.top + dy) then HasIs(s, a.left + dx, a.top + dy); At(s, a.left + dx, a.top + dy) else cache[k]
  {
    hide *;
    RoomIs(cache, offset, a);
    CellIs(cache, offset, a, dx, dy, k);
    HasIs(s, a.left + dx, a.top + dy);
    SaveIs(cache, offset, a, s);
    SaveRowsAt(cache, offset, s, a.left, a.top, Width(a), Height(a), dx, dy);
  }

  lemma {:induction false} HasIs(s: Screen, x: int, y: int)
    ensures Has(s, x, y) <==> 0 <= x < s.width && 0 <= y < s.height
  {
  }

  /** A restore: each place of the area that is on the screen takes its cell. */
  lemma {:induction false} RestoresCell(cache: seq<Rgba>, offset: nat, a: Area, s: Screen, dx: nat, dy: nat, k: nat, i: nat)
    requires Valid(s) && Room(|cache|, offset, a) && CellOf(offset, a, dx, dy, k) && StoredAt(s, a.left + dx, a.top + dy, i)
    ensures k < |cache| && i < |Restore(cache, offset, a, s).pixels| && Restore(cache, offset, a, s).pixels[i] == cache[k]
  {
    hide *;
    var s' := Restore(cache, offset, a, s);
    RoomIs(cache, offset, a);
    RestoreKeepsSize(cache, offset, a, s);
    StoredAlike(s, s', a.left + dx, a.top + dy, i);
    StoredIs(s, a.left + dx, a.top + dy, i);
    StoredIs(s', a.left + dx, a.top + dy, i);
    CellIs(cache, offset, a, dx, dy, k);
    RestoreIs(cache, offset, a, s);
    RestoreRowsAt(s, cache, offset, a.left, a.top, Width(a), Height(a), a.left + dx, a.top + dy);
    WithinIs(a.left + dx, a.top + dy, a, dx, dy);
  }

  lemma {:induction false} StoredAlike(s: Screen, s': Screen, x: int, y: int, i: nat)
    requires s'.width == s.width && s'.height == s.height
    ensures StoredAt(s, x, y, i) <==> StoredAt(s', x, y, i)
  {
  }

  lemma {:induction false} RestoreKeepsSize(cache: seq<Rgba>, offset: nat, a: Area, s: Screen)
    requires Valid(s)
    ensures Valid(Restore(cache, offset, a, s))
  {
    hide *;
    ValidIs(s);
    ValidIs(Restore(cache, offset, a, s));
  }

  lemma {:induction false} ValidIs(s: Screen)
    ensures Valid(s) <==> |s.pixels| == s.width * s.height
  {
  }

  lemma {:induction false} RestoreIs(cache: seq<Rgba>, offset: nat, a: Area, s: Screen)
    requires Valid(s) && Fits(cache, offset, a)
    ensures Width(a) > 0 && Height(a) > 0 && RowsFit(|cache|, offset, Width(a), Height(a))
    ensures Restore(cache, offset, a, s) == RestoreRows(s, cache, offset, a.left, a.top, Width(a), Height(a))
  {
    hide RestoreRows;
  }

  lemma {:induction false} WithinIs(x: int, y: int, a: Area, dx: nat, dy: nat)
    requires x == a.left + dx && y == a.top + dy && dx < Width(a) && dy < Height(a)
    ensures InRect(x, y, a.left, a.top, Width(a), Height(a)) && x - a.left == dx && y - a.top == dy
  {
  }

  /** An area that is empty or does not fit is neither saved nor restored, and a place
      outside the area is not restored. */
  lemma {:induction false} NothingElse(cache: seq<Rgba>, offset: nat, a: Area, s: Screen, x: nat, y: nat)
    requires Valid(s)
    ensures !Room(|cache|, offset, a) ==> Save(cache, offset, a, s) == cache && Restore(cache, offset, a, s) == s
    ensures Room(|cache|, offset, a) && x < s.width && y < s.height && !(a.left <= x <= a.right && a.top <= y <= a.bottom) ==>
              At(Restore(cache, offset, a, s), x, y) == At(s, x, y)
  {
    RoomIs(cache, offset, a);
    if Room(|cache|, offset, a) && x < s.width && y < s.height {
      RestoredAt(cache, offset, a, s, x, y);
    }
    hide RestoreRows, SaveRows, At, Cell;
  }

  // ---------- the cache object ----------

  class Cache {
    const data: array<Rgba>

    constructor ()
      ensures data.Length == 230400 && fresh(data)
      ensures data[..] == seq(230400, _ => Rgba(0, 0, 0, 0))
    {
      data := new Rgba[CAPACITY](_ => CLEAR);
      new;
      assert data[..] == seq(CAPACITY, _ => CLEAR);
    }

    method SavePixels(offset: nat, a: Area, fb: array<Rgba>, fbW: nat, fbH: nat)
      requires fb != data && Valid(Screen(fbW, fbH, fb[..]))
      modifies data
      ensures data[..] == Save(old(data[..]), offset, a, Screen(fbW, fbH, fb[..]))
    {
      hide SaveRow;
      var w, h := Width(a), Height(a);
      if w <= 0 || h <= 0 || offset + w * h > data.Length {
        return;
      }
      ghost var s := Screen(fbW, fbH, fb[..]);
      ghost var goal := SaveRows(data[..], offset, s, a.left, a.top, w, h);
      var idx: nat := offset;
      for dy := 0 to h
        invariant RowsFit(data.Length, idx, w, h - dy)
        invariant SaveRows(data[..], idx, s, a.left, a.top + dy, w, h - dy) == goal
      {
        FirstRowFits(data.Length, idx, w, h - dy);
        SaveOneRow(idx, fb, fbW, fbH, a.left, a.top + dy, w);
        idx := idx + w;
      }
    }

    method SaveOneRow(i: nat, fb: array<Rgba>, fbW: nat, fbH: nat, x: int, y: int, w: nat)
      requires fb != data && Valid(Screen(fbW, fbH, fb[..])) && i + w <= data.Length
      modifies data
      ensures data[..] == SaveRow(old(data[..]), i, Screen(fbW, fbH, fb[..]), x, y, w)
    {
      ghost var s := Screen(fbW, fbH, fb[..]);
      ghost var was := data[..];
      var fbRow := fbH - 1 - y;
      if fbRow < 0 || fbRow >= fbH {
        assert SaveRow(was, i, s, x, y, w) == was;
        return;
      }
      for dx := 0 to w
        invariant forall k :: 0 <= k < data.Length ==>
                    data[k] == if i <= k < i + dx && Has(s, x + (k - i), y) then At(s, x + (k - i), y) else was[k]
      {
        var px := x + dx;
        if 0 <= px < fbW {
          IndexInRange(fbW, fbH, px, fbRow);
          data[i + dx] := fb[Index(fbW, px, fbRow)];
          assert fb[Index(fbW, px, fbRow)] == At(s, px, y);
        }
      }
      assert data[..] == SaveRow(was, i, s, x, y, w);
    }

    /** The rectangle returned is the area, also where it is off the screen. */
    method RestorePixels(offset: nat, a: Area, fb: array<Rgba>, fbW: nat, fbH: nat) returns (r: Rect)
      requires fb != data && Valid(Screen(fbW, fbH, fb[..]))
      modifies fb
      ensures r == if Fits(data[..], offset, a) then Rect(a.left, a.top, Width(a), Height(a)) else Rect(0, 0, 0, 0)
      ensures Screen(fbW, fbH, fb[..]) == Restore(data[..], offset, a, Screen(fbW, fbH, old(fb[..])))
    {
      hide RestoreRow;
      var w, h := Width(a), Height(a);
      if w <= 0 || h <= 0 || offset + w * h > data.Length {
        return Rect(0, 0, 0, 0);
      }
      ghost var goal := RestoreRows(Screen(fbW, fbH, fb[..]), data[..], offset, a.left, a.top, w, h);
      var idx: nat := offset;
      for dy := 0 to h
        invariant RowsFit(data.Length, idx, w, h - dy)
        invariant RestoreRows(Screen(fbW, fbH, fb[..]), data[..], idx, a.left, a.top + dy, w, h - dy) == goal
      {
        FirstRowFits(data.Length, idx, w, h - dy);
        RestoreOneRow(idx, fb, fbW, fbH, a.left, a.top + dy, w);
        idx := idx + w;
      }
      r := Rect(a.left, a.top, w, h);
    }

    method RestoreOneRow(i: nat, fb: array<Rgba>, fbW: nat, fbH: nat, x: int, y: int, w: nat)
      requires fb != data && Valid(Screen(fbW, fbH, fb[..])) && i + w <= data.Length
      modifies fb
      ensures Screen(fbW, fbH, fb[..]) == RestoreRow(Screen(fbW, fbH, old(fb[..])), data[..], i, x, y, w)
    {
      ghost var goal := RestoreRow(Screen(fbW, fbH, fb[..]), data[..], i, x, y, w);
      var fbRow := fbH - 1 - y;
      if fbRow < 0 || fbRow >= fbH {
        RowOffScreen(Screen(fbW, fbH, fb[..]), data[..], i, x, y, w);
        return;
      }
      for dx := 0 to w
        invariant RestoreRow(Screen(fbW, fbH, fb[..]), data[..], i + dx, x + dx, y, w - dx) == goal
      {
        var px := x + dx;
        if 0 <= px < fbW {
          ghost var s := Screen(fbW, fbH, fb[..]);
          IndexInRange(fbW, fbH, px, fbRow);
          fb[Index(fbW, px, fbRow)] := data[i + dx];
          assert Screen(fbW, fbH, fb[..]) == Plot(s, px, y, data[i + dx]);
        }
      }
    }
  }

  lemma {:induction false} RowOffScreen(s: Screen, cache: seq<Rgba>, i: nat, x: int, y: int, n: nat)
    requires Valid(s) && i + n <= |cache| && !(0 <= y < s.height)
    ensures RestoreRow(s, cache, i, x, y, n) == s
    decreases n
  {
    if n > 0 {
      RowOffScreen(s, cache, i + 1, x + 1, y, n - 1);
    }
  }
}
