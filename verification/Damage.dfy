/** Damage tracking: how changed cells are reported to whoever draws the screen, and when a report is
    held back and merged. The drawer is modelled by a mirror that copies each reported rectangle. */
module Damage {
  import opened Cells
  import opened Screen

  /** How reports are merged; merging across scrolls is not part of this model. */
  datatype Merge = PerCell | PerRow | PerScreen

  const NOTHING: Rect := Rect(-1, 0, 0, 0)

  // ----- merging two rectangles -----

  /** Extends a stored row report sideways; only the columns are merged. */
  function RowMerged(stored: Rect, rect: Rect): Rect {
    stored.(startCol := if stored.startCol > rect.startCol then rect.startCol else stored.startCol,
            endCol := if stored.endCol < rect.endCol then rect.endCol else stored.endCol)
  }

  /** `a` has the rows and the columns of `b`, whether or not these make any cells. */
  predicate Spans(a: Rect, b: Rect) {
    a.startRow <= b.startRow && b.endRow <= a.endRow && a.startCol <= b.startCol && b.endCol <= a.endCol
  }

  /** The smallest rectangle with the rows and columns of both. */
  function Expanded(a: Rect, b: Rect): (r: Rect)
    ensures forall i, j :: a.Has(i, j) || b.Has(i, j) ==> r.Has(i, j)
    ensures forall s: Rect :: Spans(s, a) && Spans(s, b) ==> Spans(s, r)
  {
    Rect(if a.startRow > b.startRow then b.startRow else a.startRow, if a.endRow < b.endRow then b.endRow else a.endRow,
         if a.startCol > b.startCol then b.startCol else a.startCol, if a.endCol < b.endCol then b.endCol else a.endCol)
  }

  ghost predicate Covers(a: Rect, b: Rect) { forall r, c :: b.Has(r, c) ==> a.Has(r, c) }

  /** Merging a report of one row into a stored one that starts on the same row loses nothing exactly when
      the stored one has rows. A report without rows, stored first, swallows what comes after it. */
  lemma RowMergeKeepsAll(stored: Rect, rect: Rect)
    requires rect.endRow == rect.startRow + 1 == stored.startRow + 1 && rect.startCol < rect.endCol
    requires stored.endRow <= stored.startRow + 1
    ensures Covers(RowMerged(stored, rect), rect) && Covers(RowMerged(stored, rect), stored) <==>
              stored.startRow < stored.endRow
  {
    if stored.startRow >= stored.endRow {
      assert rect.Has(rect.startRow, rect.startCol) && !RowMerged(stored, rect).Has(rect.startRow, rect.startCol);
    }
  }

  /** Which report stored by row swallows which later one: a stored one without rows, any report of one row that
      begins on the same row. */
  predicate Swallows(merge: Merge, stored: Rect, rect: Rect) {
    && merge == PerRow && stored.startRow != -1 && stored.endRow <= stored.startRow
    && rect.startRow == stored.startRow && rect.endRow == rect.startRow + 1 && rect.startCol < rect.endCol
  }

  /** What is held back after a report. */
  function Held(merge: Merge, stored: Rect, rect: Rect): Rect {
    match merge
    case PerCell => stored
    case PerRow =>
      if rect.endRow > rect.startRow + 1 then Unheld(stored)
      else if stored.startRow != -1 && rect.startRow == stored.startRow then RowMerged(stored, rect)
      else rect
    case PerScreen => if stored.startRow == -1 then rect else Expanded(stored, rect)
  }

  /** Nothing held back any more. */
  function Unheld(stored: Rect): Rect { stored.(startRow := -1) }

  // ----- glyphs -----

  datatype Glyph = Glyph(chars: seq<nat>, width: int, protectedCell: bool, dwl: bool, dhl: nat)

  /** A cell has room for so many code points. */
  const MAX_CHARS: nat := 6

  /** What is left of the code points of a cell that a wide glyph to its left covers: the first is overwritten. */
  function Covered(chars: seq<nat>): seq<nat> { [PADDING] + (if chars == [] then [] else chars[1..]) }

  function GlyphCell(g: Glyph, before: Cell, pen: Pen): Cell {
    var base := if g.chars == [] then before.pen else pen;
    Cell(if |g.chars| <= MAX_CHARS then g.chars else g.chars[..MAX_CHARS],
         base.(protectedCell := g.protectedCell, dwl := g.dwl, dhl := g.dhl))
  }

  ghost predicate Reported(emitted: seq<Rect>, r: int, c: int) {
    exists k :: 0 <= k < |emitted| && emitted[k].Has(r, c)
  }

  /** The drawer shows this cell as it is, or will be told. */
  ghost predicate Current(mirror: Grid, g: Grid, damaged: Rect, r: int, c: int)
    requires 0 <= r < |g| == |mirror| && 0 <= c < |g[r]| == |mirror[r]|
  {
    mirror[r][c] == g[r][c] || (damaged.startRow != -1 && damaged.Has(r, c))
  }

  /** Cells that were current, and those in `rect`, are current. */
  ghost predicate Keeps(m: Grid, m': Grid, g: Grid, damaged: Rect, damaged': Rect, rect: Rect)
    requires |m| == |m'| == |g| && forall r :: 0 <= r < |g| ==> |m[r]| == |m'[r]| == |g[r]|
  {
    forall r, c :: 0 <= r < |g| && 0 <= c < |g[r]| ==>
                   Current(m, g, damaged, r, c) || rect.Has(r, c) ==> Current(m', g, damaged', r, c)
  }

  ghost predicate AllCurrent(m: Grid, g: Grid, damaged: Rect)
    requires |m| == |g| && forall r :: 0 <= r < |g| ==> |m[r]| == |g[r]|
  {
    forall r, c :: 0 <= r < |g| && 0 <= c < |g[r]| ==> Current(m, g, damaged, r, c)
  }

  /** The mirror after copying one rectangle. */
  ghost function Copied(mirror: Grid, g: Grid, rows: nat, cols: nat, rect: Rect): (m: Grid)
    requires IsGrid(mirror, rows, cols) && IsGrid(g, rows, cols)
    ensures IsGrid(m, rows, cols)
    ensures forall r, c :: 0 <= r < rows && 0 <= c < cols ==>
              m[r][c] == if rect.Has(r, c) then g[r][c] else mirror[r][c]
  {
    seq(rows, r requires 0 <= r < rows => seq(cols, c
        requires 0 <= c < cols => if rect.Has(r, c) then g[r][c] else mirror[r][c]))
  }

  lemma EmitKeeps(m: Grid, g: Grid, rows: nat, cols: nat, damaged: Rect, rect: Rect)
    requires IsGrid(m, rows, cols) && IsGrid(g, rows, cols)
    ensures Keeps(m, Copied(m, g, rows, cols, rect), g, damaged, damaged, rect)
  {
  }

  /** Reporting what is held back and holding back another rectangle instead. */
  lemma SwapKeeps(m: Grid, g: Grid, rows: nat, cols: nat, damaged: Rect, rect: Rect)
    requires IsGrid(m, rows, cols) && IsGrid(g, rows, cols) && rect.startRow >= 0
    ensures Keeps(m, Copied(m, g, rows, cols, damaged), g, damaged, rect, rect)
  {
  }

  lemma KeepsThen(m: Grid, m1: Grid, m2: Grid, g: Grid, rows: nat, cols: nat, d: Rect, d1: Rect, d2: Rect, rect: Rect)
    requires IsGrid(m, rows, cols) && IsGrid(m1, rows, cols) && IsGrid(m2, rows, cols) && IsGrid(g, rows, cols)
    requires Keeps(m, m1, g, d, d1, NOTHING) && Keeps(m1, m2, g, d1, d2, rect)
    ensures Keeps(m, m2, g, d, d2, rect)
  {
  }

  /** A change inside `rect` of a screen that was current, then reported. */
  lemma ChangeReported(m: Grid, m': Grid, g: Grid, g': Grid, rows: nat, cols: nat, d: Rect, d': Rect, rect: Rect)
    requires IsGrid(m, rows, cols) && IsGrid(m', rows, cols) && IsGrid(g, rows, cols) && IsGrid(g', rows, cols)
    requires AllCurrent(m, g, d) && Keeps(m, m', g', d, d', rect)
    requires forall r, c :: 0 <= r < rows && 0 <= c < cols && !rect.Has(r, c) ==> g'[r][c] == g[r][c]
    ensures AllCurrent(m', g', d')
  {
    forall r, c | 0 <= r < rows && 0 <= c < cols ensures Current(m', g', d', r, c) {
      assert Current(m, g, d, r, c);
      assert Current(m, g', d, r, c) || rect.Has(r, c);
    }
  }

  lemma BothReported(m: Grid, m1: Grid, m2: Grid, g: Grid, g': Grid, rows: nat, cols: nat, d: Rect, d1: Rect, d2: Rect,
          a: Rect, b: Rect)
    requires IsGrid(m, rows, cols) && IsGrid(m1, rows, cols) && IsGrid(m2, rows, cols) && IsGrid(g, rows, cols)
             && IsGrid(g', rows, cols)
    requires AllCurrent(m, g, d) && Keeps(m, m1, g', d, d1, a) && Keeps(m1, m2, g', d1, d2, b)
    requires forall r, c :: 0 <= r < rows && 0 <= c < cols && !a.Has(r, c) && !b.Has(r, c) ==> g'[r][c] == g[r][c]
    ensures AllCurrent(m2, g', d2)
  {
    forall r, c | 0 <= r < rows && 0 <= c < cols ensures Current(m2, g', d2, r, c) {
      assert Current(m, g, d, r, c);
      assert Current(m, g', d, r, c) || a.Has(r, c) || b.Has(r, c);
      assert Current(m1, g', d1, r, c) || b.Has(r, c);
    }
  }

  lemma Flushed(m: Grid, m': Grid, g: Grid, rows: nat, cols: nat, d: Rect, d': Rect)
    requires IsGrid(m, rows, cols) && IsGrid(m', rows, cols) && IsGrid(g, rows, cols)
    requires AllCurrent(m, g, d) && Keeps(m, m', g, d, d', NOTHING) && d'.startRow == -1
    ensures m' == g
  {
    forall r, c | 0 <= r < rows && 0 <= c < cols ensures m'[r][c] == g[r][c] {
      assert Current(m, g, d, r, c);
      assert Current(m', g, d', r, c);
    }
    SameGrid(m', g, rows, cols);
  }

  lemma PartsSolid(rect: Rect, down: int, right: int)
    requires rect.startRow >= 0 && !rect.Empty() && !ScrollsOut(rect, down, right)
    ensures
      var dest, exposed := MoveDest(rect, down, right), Exposed(rect, down, right);
      0 <= dest.startRow < dest.endRow && 0 <= exposed.startRow < exposed.endRow
  {
  }

  /** The screen after putting a glyph. */
  ghost function Put(g: Grid, rows: nat, cols: nat, glyph: Glyph, row: int, col: int, pen: Pen): (p: Grid)
    requires IsGrid(g, rows, cols)
    ensures IsGrid(p, rows, cols)
    ensures forall r, c :: 0 <= r < rows && 0 <= c < cols ==>
              p[r][c] ==
              if r == row && c == col then GlyphCell(glyph, g[r][c], pen)
              else if r == row && col < c < col + glyph.width then g[r][c].(chars := Covered(g[r][c].chars))
              else g[r][c]
  {
    seq(rows, r requires 0 <= r < rows =>
      seq(cols, c requires 0 <= c < cols =>
        if r == row && c == col then GlyphCell(glyph, g[r][c], pen)
        else if r == row && col < c < col + glyph.width then g[r][c].(chars := Covered(g[r][c].chars))
        else g[r][c]))
  }

  /** Everything a glyph changes lies in the rectangle reported for it exactly when the glyph has a width,
      or changes nothing. */
  lemma GlyphReported(g: Grid, rows: nat, cols: nat, glyph: Glyph, row: nat, col: nat, pen: Pen)
    requires IsGrid(g, rows, cols) && row < rows && col < cols && col + glyph.width <= cols
    ensures
      (forall r, c :: 0 <= r < rows && 0 <= c < cols && !Rect(row, row + 1, col, col + glyph.width).Has(r, c) ==>
                      Put(g, rows, cols, glyph, row, col, pen)[r][c] == g[r][c])
      <==> glyph.width >= 1 || GlyphCell(glyph, g[row][col], pen) == g[row][col]
  {
    if glyph.width <= 0 { assert Put(g, rows, cols, glyph, row, col, pen)[row][col]
        == GlyphCell(glyph, g[row][col], pen); }
  }

  /** One operation on the screen. */
  datatype Op =
    | PutOp(glyph: Glyph, row: int, col: int)
    | Clear(rect: Rect, selective: bool)
    | Scroll(region: Rect, down: int, right: int)

  class DamagedScreen {
    const screen: ScreenBuffer
    const merge: Merge
    var damaged: Rect             // the report held back, or NOTHING
    ghost var mirror: Grid        // what the drawer has copied
    ghost var emitted: seq<Rect>
    ghost var start: Grid         // the mirror at the beginning

    /** Everything but the relation between mirror and screen. */
    ghost predicate Shaped()
      reads this, screen
    {
      && screen.Valid() && IsGrid(mirror, screen.rows, screen.cols) && IsGrid(start, screen.rows, screen.cols)
      && (damaged.startRow != -1 ==> damaged.startRow >= 0)
      && (merge == PerRow && damaged.startRow != -1 ==> damaged.endRow <= damaged.startRow + 1)
      && (forall r, c :: 0 <= r < screen.rows && 0 <= c < screen.cols && mirror[r][c] != start[r][c] ==>
            Reported(emitted, r, c))
    }

    ghost predicate UpToDate()
      requires Shaped()
      reads this, screen, screen.cells
    {
      AllCurrent(mirror, screen.Screen(), damaged)
    }

    ghost predicate Valid()
      reads this, screen, screen.cells
    {
      Shaped() && UpToDate()
    }

    constructor (screen: ScreenBuffer, merge: Merge)
      requires screen.Valid()
      ensures Valid() && this.screen == screen && this.merge == merge && damaged == NOTHING
      ensures emitted == [] && start == mirror == screen.Screen()
    {
      this.screen, this.merge, damaged := screen, merge, NOTHING;
      mirror, start, emitted := screen.Screen(), screen.Screen(), [];
    }

    /** Calls the damage callback: the drawer copies the rectangle. */
    method Emit(rect: Rect)
      requires Shaped()
      modifies this`mirror, this`emitted
      ensures Shaped() && emitted == old(emitted) + [rect]
      ensures mirror == Copied(old(mirror), screen.Screen(), screen.rows, screen.cols, rect)
    {
      mirror := Copied(mirror, screen.Screen(), screen.rows, screen.cols, rect);
      emitted := emitted + [rect];
      forall r, c | 0 <= r < screen.rows && 0 <= c < screen.cols && mirror[r][c] != start[r][c]
          ensures Reported(emitted, r, c) {
        if rect.Has(r, c) {
          assert emitted[|emitted| - 1] == rect;
        } else {
          var k :| 0 <= k < |old(emitted)| && old(emitted)[k].Has(r, c);
          assert emitted[k] == old(emitted)[k];
        }
      }
    }

    /** Reports what is held back. */
    method FlushDamage()
      requires Shaped()
      modifies this`mirror, this`emitted, this`damaged
      ensures Shaped() && damaged == Unheld(old(damaged))
      ensures emitted == old(emitted) + if old(damaged).startRow == -1 then [] else [old(damaged)]
      ensures Keeps(old(mirror), mirror, screen.Screen(), old(damaged), damaged, NOTHING)
    {
      if damaged.startRow != -1 {
        Emit(damaged);
        damaged := damaged.(startRow := -1);
      }
    }

    /** Reports a rectangle, now or later, unless what is held back swallows it. */
    method DamageRect(rect: Rect)
      requires Shaped() && rect.startRow >= 0
      modifies this`mirror, this`emitted, this`damaged
      ensures Shaped()
      ensures !Swallows(merge, old(damaged), rect) ==>
                Keeps(old(mirror), mirror, screen.Screen(), old(damaged), damaged, rect)
      ensures Swallows(merge, old(damaged), rect) ==>
                mirror == old(mirror) && emitted == old(emitted) && damaged.endRow <= damaged.startRow
      ensures damaged == Held(merge, old(damaged), rect)
      ensures merge == PerRow && old(damaged).startRow == -1 && rect.endRow <= rect.startRow + 1 ==>
                mirror == old(mirror) && emitted == old(emitted)
    {
      ghost var g, m := screen.Screen(), mirror;
      match merge
      case PerCell =>
        Emit(rect);
        EmitKeeps(m, g, screen.rows, screen.cols, damaged, rect);
      case PerRow =>
        if rect.endRow > rect.startRow + 1 {
          FlushDamage();
          ghost var m1 := mirror;
          Emit(rect);
          EmitKeeps(m1, g, screen.rows, screen.cols, damaged, rect);
          KeepsThen(m, m1, mirror, g, screen.rows, screen.cols, old(damaged), damaged, damaged, rect);
        } else if damaged.startRow == -1 {
          damaged := rect;
        } else if rect.startRow == damaged.startRow {
          damaged := RowMerged(damaged, rect);
        } else {
          var emit := damaged;
          damaged := rect;
          Emit(emit);
          SwapKeeps(m, g, screen.rows, screen.cols, emit, rect);
        }
      case PerScreen =>
        if damaged.startRow == -1 {
          damaged := rect;
        } else {
          damaged := Expanded(damaged, rect);
        }
    }

    /** Writes the cell of a glyph and marks the cells it covers to the right. */
    method WriteGlyph(glyph: Glyph, row: nat, col: nat)
      requires screen.Valid() && row < screen.rows && col < screen.cols && col + glyph.width <= screen.cols
      modifies screen.cells
      ensures screen.Screen() == Put(old(screen.Screen()), screen.rows, screen.cols, glyph, row, col, screen.pen)
    {
      ghost var target := Put(screen.Screen(), screen.rows, screen.cols, glyph, row, col, screen.pen);
      screen.cells[row, col] := GlyphCell(glyph, screen.cells[row, col], screen.pen);
      var k := 1;
      while k < glyph.width
        invariant 1 <= k
        invariant forall r, c :: 0 <= r < screen.rows && 0 <= c < screen.cols ==>
                    screen.cells[r, c] == if r == row
                        && col <= c < col + k then target[r][c] else old(screen.cells[r, c])
      {
        screen.cells[row, col + k] := screen.cells[row, col + k].(chars := Covered(screen.cells[row, col + k].chars));
        k := k + 1;
      }
      SameGrid(screen.Screen(), target, screen.rows, screen.cols);
    }

    /** Puts a glyph on the screen and reports the cells it covers. */
    method PutGlyph(glyph: Glyph, row: int, col: int)
      requires Shaped()
      requires 0 <= row < screen.rows && 0 <= col < screen.cols ==> col + glyph.width <= screen.cols
      modifies this`mirror, this`emitted, this`damaged, screen.cells
      ensures Shaped()
      ensures screen.Screen() ==
              if 0 <= row < screen.rows && 0 <= col < screen.cols
              then Put(old(screen.Screen()), screen.rows, screen.cols, glyph, row, col, screen.pen)
                  else old(screen.Screen())
      ensures 0 <= row < screen.rows && 0 <= col < screen.cols && 0 < |glyph.chars| <= MAX_CHARS ==>
                screen.Screen()[row][col] == Cell(glyph.chars,
                    Pen(screen.pen.fg, screen.pen.bg, screen.pen.attrs, glyph.protectedCell, glyph.dwl, glyph.dhl))
      ensures damaged == HeldOn(PutOp(glyph, row, col), merge, screen.rows, screen.cols, old(damaged))
      ensures old(UpToDate()) && 0 <= row < screen.rows && 0 <= col < screen.cols ==>
                (UpToDate() <==>
                  if glyph.width < 1 then Current(mirror, screen.Screen(), damaged, row, col)
                  else
                    || screen.Screen() == old(screen.Screen())
                    || !Swallows(merge, old(damaged), GlyphRect(glyph, row, col)))
      ensures old(UpToDate()) && !(0 <= row < screen.rows && 0 <= col < screen.cols) ==> UpToDate()
      ensures 0 <= row < screen.rows && 0 <= col < screen.cols
              && Swallows(merge, old(damaged), GlyphRect(glyph, row, col)) ==>
                mirror == old(mirror) && emitted == old(emitted) && damaged.endRow <= damaged.startRow
    {
      if !(0 <= row < screen.rows && 0 <= col < screen.cols) {
        return;
      }
      hide Keeps, AllCurrent, Put, Held, Current, IsGrid;
      WriteGlyph(glyph, row, col);
      ghost var g, m := screen.Screen(), mirror;
      var rect := Rect(row, row + 1, col, col + glyph.width);
      DamageRect(rect);
      if old(UpToDate()) {
        PutReported(m, mirror, old(screen.Screen()), g, screen.rows, screen.cols, old(damaged), damaged, glyph, row,
                    col, screen.pen, merge);
      }
    }

    /** Erases and reports a rectangle. */
    method Erase(rect: Rect, selective: bool)
      requires Shaped() && 0 <= rect.startRow && 0 <= rect.startCol && rect.endCol <= screen.cols
      modifies this`mirror, this`emitted, this`damaged, screen.cells
      ensures Shaped()
      ensures screen.Screen() == Erased(old(screen.Screen()), screen.rows, screen.cols, rect, selective, screen.pen,
              screen.lineinfo)
      ensures damaged == Held(merge, old(damaged), rect)
      ensures old(UpToDate()) ==>
                (UpToDate() <==> screen.Screen() == old(screen.Screen()) || !Swallows(merge, old(damaged), rect))
      ensures merge == PerRow && old(damaged).startRow == -1 && rect.endRow <= rect.startRow + 1 ==>
                mirror == old(mirror) && emitted == old(emitted)
    {
      hide Erased, AllCurrent, Keeps;
      ErasedInside(screen.Screen(), screen.rows, screen.cols, rect, selective, screen.pen, screen.lineinfo);
      screen.Erase(rect, selective);
      ghost var g := screen.Screen();
      DamageRect(rect);
      if old(UpToDate()) {
        if Swallows(merge, old(damaged), rect) {
          NothingHeld(mirror, old(screen.Screen()), g, screen.rows, screen.cols, old(damaged), damaged);
        } else {
          ChangeReported(old(mirror), mirror, old(screen.Screen()), g, screen.rows, screen.cols, old(damaged), damaged,
              rect);
        }
      }
    }

    /** Scrolls a rectangle: moves the content, reports what was held back, then reports what moved and
        what was erased. */
    method ScrollRect(rect: Rect, down: int, right: int)
      requires Shaped() && rect.In(screen.rows, screen.cols) && !rect.Empty()
      modifies this`mirror, this`emitted, this`damaged, screen.cells
      ensures Shaped() && (old(UpToDate()) ==> UpToDate())
      ensures damaged == HeldOn(Scroll(rect, down, right), merge, screen.rows, screen.cols, old(damaged))
      ensures screen.Screen() == Scrolled(old(screen.Screen()), screen.rows, screen.cols, rect, down, right, screen.pen,
              screen.lineinfo)
    {
      hide Scrolled, AllCurrent, Keeps, MoveDest, Exposed;
      ScrolledInside(screen.Screen(), screen.rows, screen.cols, rect, down, right, screen.pen, screen.lineinfo);
      screen.ScrollRect(rect, down, right);
      ghost var g := screen.Screen();
      FlushDamage();
      ghost var m1, d1 := mirror, damaged;
      if Abs(down) >= rect.endRow - rect.startRow || Abs(right) >= rect.endCol - rect.startCol {
        DamageRect(rect);
        KeepsThen(old(mirror), m1, mirror, g, screen.rows, screen.cols, old(damaged), d1, damaged, rect);
        if old(UpToDate()) {
          ChangeReported(old(mirror), mirror, old(screen.Screen()), g, screen.rows, screen.cols, old(damaged), damaged,
              rect);
        }
      } else {
        PartsSolid(rect, down, right);
        var dest, exposed := MoveDest(rect, down, right), Exposed(rect, down, right);
        DamageRect(dest);
        ghost var m2, d2 := mirror, damaged;
        DamageRect(exposed);
        KeepsThen(old(mirror), m1, m2, g, screen.rows, screen.cols, old(damaged), d1, d2, dest);
        if old(UpToDate()) {
          BothReported(old(mirror), m2, mirror, old(screen.Screen()), g, screen.rows, screen.cols, old(damaged), d2,
              damaged, dest, exposed);
        }
      }
    }

    /** Any run of operations followed by a flush: nothing is held back. If no glyph is without width and no report
        is swallowed, the drawer shows the screen, and every cell that differs from the beginning has been reported. */
    method Run(ops: seq<Op>)
      requires Valid() && forall i :: 0 <= i < |ops| ==> Placed(ops[i], screen.rows, screen.cols)
      modifies this`mirror, this`emitted, this`damaged, screen.cells
      ensures Shaped() && damaged.startRow == -1
      ensures KeepsReports(ops, merge, screen.rows, screen.cols, old(damaged)) ==>
                && Valid() && mirror == screen.Screen()
                && forall r, c :: 0 <= r < screen.rows && 0 <= c < screen.cols ==>
                     screen.Screen()[r][c] == start[r][c] || Reported(emitted, r, c)
    {
      hide AllCurrent, Keeps, HeldOn, ReportKept, IsGrid;
      ghost var kept := KeepsReports(ops, merge, screen.rows, screen.cols, damaged);
      for i := 0 to |ops|
        invariant Shaped() && (kept ==> UpToDate())
        invariant damaged == HeldAfter(ops[..i], merge, screen.rows, screen.cols, old(damaged))
      {
        assert ops[..i + 1][..i] == ops[..i];
        if kept { KeptAt(ops, i, merge, screen.rows, screen.cols, old(damaged)); }
        RunOne(ops[i]);
      }
      assert ops[..|ops|] == ops;
      ghost var m, d := mirror, damaged;
      FlushDamage();
      if kept {
        Flushed(m, mirror, screen.Screen(), screen.rows, screen.cols, d, damaged);
        SameCurrent(mirror, damaged);
      }
    }

    method RunOne(op: Op)
      requires Shaped() && Placed(op, screen.rows, screen.cols)
      modifies this`mirror, this`emitted, this`damaged, screen.cells
      ensures Shaped() && damaged == HeldOn(op, merge, screen.rows, screen.cols, old(damaged))
      ensures old(UpToDate()) && ReportKept(op, merge, screen.rows, screen.cols, old(damaged)) ==> UpToDate()
    {
      match op
      case PutOp(glyph, row, col) => PutGlyph(glyph, row, col);
      case Clear(rect, selective) => Erase(rect, selective);
      case Scroll(region, down, right) => ScrollRect(region, down, right);
    }
  }

  lemma NothingHeld(m: Grid, g: Grid, g': Grid, rows: nat, cols: nat, d: Rect, d': Rect)
    requires IsGrid(m, rows, cols) && IsGrid(g, rows, cols) && IsGrid(g', rows, cols) && AllCurrent(m, g, d)
    requires d.endRow <= d.startRow && d'.endRow <= d'.startRow
    ensures AllCurrent(m, g', d') <==> g == g'
  {
    forall r, c | 0 <= r < rows && 0 <= c < cols ensures m[r][c] == g[r][c] { assert Current(m, g, d, r, c); }
    if AllCurrent(m, g', d') {
      forall r, c | 0 <= r < rows && 0 <= c < cols ensures g[r][c] == g'[r][c] { assert Current(m, g', d', r, c); }
      SameGrid(g, g', rows, cols);
    }
  }

  /** When everything is reported or pending after a glyph. A glyph with a width: exactly if its report is not
      swallowed, or it changes nothing. One without: exactly if the cell it changes is pending anyway, or is now as
      the drawer shows it. */
  lemma PutReported(m: Grid, m': Grid, g: Grid, g': Grid, rows: nat, cols: nat, d: Rect, d': Rect, glyph: Glyph,
          row: nat, col: nat, pen: Pen, merge: Merge)
    requires IsGrid(m, rows, cols) && IsGrid(m', rows, cols) && IsGrid(g, rows, cols) && AllCurrent(m, g, d)
    requires row < rows && col < cols && col + glyph.width <= cols && g' == Put(g, rows, cols, glyph, row, col, pen)
    requires
      var rect := GlyphRect(glyph, row, col);
      if Swallows(merge, d, rect) then m' == m && d'.endRow <= d'.startRow else Keeps(m, m', g', d, d', rect)
    ensures AllCurrent(m', g', d') <==>
            if glyph.width < 1 then Current(m', g', d', row, col)
            else g' == g || !Swallows(merge, d, GlyphRect(glyph, row, col))
  {
    var rect := GlyphRect(glyph, row, col);
    if Swallows(merge, d, rect) {
      NothingHeld(m, g, g', rows, cols, d, d');
    } else {
      forall r, c | 0 <= r < rows && 0 <= c < cols && (glyph.width >= 1 || r != row || c != col)
        ensures Current(m', g', d', r, c)
      {
        assert Current(m, g, d, r, c);
        assert Current(m, g', d, r, c) || rect.Has(r, c);
      }
    }
  }

  lemma SameCurrent(g: Grid, d: Rect)
    ensures AllCurrent(g, g, d)
  {
  }

  /** The cells a glyph is reported to cover. */
  function GlyphRect(glyph: Glyph, row: int, col: int): Rect { Rect(row, row + 1, col, col + glyph.width) }

  /** By row: an erasure above the cursor in the first row, which has no rows, then a glyph there, then a flush.
      The glyph is on the screen and was never reported. */
  method LostGlyph(screen: ScreenBuffer, glyph: Glyph) returns (d: DamagedScreen)
    requires screen.Valid() && screen.rows >= 1 && screen.cols >= 1 && glyph.width == 1
    requires GlyphCell(glyph, screen.cells[0, 0], screen.pen) != screen.cells[0, 0]
    modifies screen.cells
    ensures d.screen == screen && d.merge == PerRow && d.Shaped() && d.damaged.startRow == -1
    ensures screen.cells[0, 0] != d.start[0][0] && !Reported(d.emitted, 0, 0)
  {
    hide Put, AllCurrent, Keeps, GlyphCell;
    d := new DamagedScreen(screen, PerRow);
    d.Erase(Rect(0, 0, 0, screen.cols), false);
    d.PutGlyph(glyph, 0, 0);
    d.FlushDamage();
  }

  /** What the drawing needs. Text keeps to it; a glyph of two columns that is repeated may not, and the code then
      writes to a cell beyond the row that is not there. */
  predicate Placed(op: Op, rows: nat, cols: nat) {
    match op
    case PutOp(glyph, row, col) => 0 <= row < rows && 0 <= col < cols ==> col + glyph.width <= cols
    case Clear(rect, _) => 0 <= rect.startRow && 0 <= rect.startCol && rect.endCol <= cols
    case Scroll(region, _, _) => region.In(rows, cols) && !region.Empty()
  }

  /** What is held back after an operation. */
  function HeldOn(op: Op, merge: Merge, rows: nat, cols: nat, stored: Rect): Rect {
    match op
    case PutOp(glyph, row, col) =>
      if 0 <= row < rows && 0 <= col < cols then Held(merge, stored, GlyphRect(glyph, row, col)) else stored
    case Clear(rect, _) => Held(merge, stored, rect)
    case Scroll(rect, down, right) =>
      if ScrollsOut(rect, down, right) then Held(merge, Unheld(stored), rect)
      else Held(merge, Held(merge, Unheld(stored), MoveDest(rect, down, right)), Exposed(rect, down, right))
  }

  /** What is held back after some operations depends on the rectangles alone. */
  function HeldAfter(ops: seq<Op>, merge: Merge, rows: nat, cols: nat, stored: Rect): Rect {
    if ops == [] then stored
    else HeldOn(ops[|ops| - 1], merge, rows, cols, HeldAfter(ops[..|ops| - 1], merge, rows, cols, stored))
  }

  /** The report of an operation covers what it changes and is not swallowed. */
  predicate ReportKept(op: Op, merge: Merge, rows: nat, cols: nat, stored: Rect) {
    match op
    case PutOp(glyph, row, col) =>
      || !(0 <= row < rows && 0 <= col < cols)
      || (glyph.width >= 1 && !Swallows(merge, stored, GlyphRect(glyph, row, col)))
    case Clear(rect, _) => !Swallows(merge, stored, rect)
    case Scroll(_, _, _) => true
  }

  predicate KeepsReports(ops: seq<Op>, merge: Merge, rows: nat, cols: nat, stored: Rect) {
    forall i :: 0 <= i < |ops| ==> ReportKept(ops[i], merge, rows, cols, HeldAfter(ops[..i], merge, rows, cols, stored))
  }

  lemma KeptAt(ops: seq<Op>, i: nat, merge: Merge, rows: nat, cols: nat, stored: Rect)
    requires KeepsReports(ops, merge, rows, cols, stored) && i < |ops|
    ensures ReportKept(ops[i], merge, rows, cols, HeldAfter(ops[..i], merge, rows, cols, stored))
  {
  }

  /** A glyph with a width; by row, an erasure with rows. */
  predicate Reportable(op: Op, merge: Merge) {
    match op
    case PutOp(glyph, _, _) => glyph.width >= 1
    case Clear(rect, _) => merge == PerRow ==> rect.startRow < rect.endRow
    case Scroll(_, _, _) => true
  }

  predicate Solid(merge: Merge, stored: Rect) {
    merge == PerRow && stored.startRow != -1 ==> stored.startRow < stored.endRow
  }

  /** Operations of which all are reportable never lose a report. */
  lemma {:induction false} ReportableKept(ops: seq<Op>, merge: Merge, rows: nat, cols: nat, stored: Rect)
    requires Solid(merge, stored)
    requires forall i :: 0 <= i < |ops| ==> Reportable(ops[i], merge) && Placed(ops[i], rows, cols)
    ensures KeepsReports(ops, merge, rows, cols, stored) && Solid(merge, HeldAfter(ops, merge, rows, cols, stored))
  {
    if ops != [] {
      var last := |ops| - 1;
      ReportableKept(ops[..last], merge, rows, cols, stored);
      SolidOn(ops[last], merge, rows, cols, HeldAfter(ops[..last], merge, rows, cols, stored));
      forall i | 0 <= i < |ops|
        ensures ReportKept(ops[i], merge, rows, cols, HeldAfter(ops[..i], merge, rows, cols, stored))
      {
        if i < last {
          assert ops[..last][..i] == ops[..i] && ops[..last][i] == ops[i];
          KeptAt(ops[..last], i, merge, rows, cols, stored);
        }
      }
    }
  }

  lemma SolidOn(op: Op, merge: Merge, rows: nat, cols: nat, stored: Rect)
    requires Solid(merge, stored) && Reportable(op, merge) && Placed(op, rows, cols)
    ensures ReportKept(op, merge, rows, cols, stored) && Solid(merge, HeldOn(op, merge, rows, cols, stored))
  {
    match op
    case PutOp(_, _, _) =>
    case Clear(_, _) =>
    case Scroll(rect, down, right) => if !ScrollsOut(rect, down, right) { PartsSolid(rect, down, right); }
  }

  lemma ErasedInside(g: Grid, rows: nat, cols: nat, rect: Rect, selective: bool, pen: Pen, lines: seq<LineInfo>)
    requires IsGrid(g, rows, cols) && |lines| == rows
    ensures forall r, c :: 0 <= r < rows && 0 <= c < cols && !rect.Has(r, c) ==>
              Erased(g, rows, cols, rect, selective, pen, lines)[r][c] == g[r][c]
  {
  }

  /** What a scroll moves to or erases. */
  predicate Touched(rect: Rect, down: int, right: int, r: int, c: int) {
    if ScrollsOut(rect, down, right) then rect.Has(r, c)
    else MoveDest(rect, down, right).Has(r, c) || Exposed(rect, down, right).Has(r, c)
  }

  /** A scroll changes nothing else. */
  lemma ScrolledInside(g: Grid, rows: nat, cols: nat, rect: Rect, down: int, right: int, pen: Pen, lines: seq<LineInfo>)
    requires IsGrid(g, rows, cols) && rect.In(rows, cols) && |lines| == rows
    ensures forall r, c :: 0 <= r < rows && 0 <= c < cols && !Touched(rect, down, right, r, c) ==>
              Scrolled(g, rows, cols, rect, down, right, pen, lines)[r][c] == g[r][c]
  {
    var s := Scrolled(g, rows, cols, rect, down, right, pen, lines);
    forall r, c | 0 <= r < rows && 0 <= c < cols && !Touched(rect, down, right, r, c) ensures s[r][c] == g[r][c] {
      assert rect.Has(r, c) && rect.Has(r + down, c + right) ==>
               ScrollsOut(rect, down, right) || MoveDest(rect, down, right).Has(r, c);
    }
  }
}
