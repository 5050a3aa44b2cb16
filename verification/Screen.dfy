/** The cell buffer of the screen layer: moves and erasures in place. */
module Screen {
  import opened Cells

  /** The cells of `dest` replaced by those `down` rows below and `right` columns to the right. */
  ghost function Moved(g: Grid, rows: nat, cols: nat, dest: Rect, down: int, right: int): (m: Grid)
    requires IsGrid(g, rows, cols) && dest.In(rows, cols)
    requires Rect(dest.startRow + down, dest.endRow + down, dest.startCol + right, dest.endCol + right).In(rows, cols)
    ensures IsGrid(m, rows, cols)
    ensures forall r, c {:trigger m[r][c]} :: 0 <= r < rows && 0 <= c < cols ==>
              m[r][c] == if dest.Has(r, c) then g[r + down][c + right] else g[r][c]
  {
    seq(rows, r requires 0 <= r < rows =>
      seq(cols, c requires 0 <= c < cols => if dest.Has(r, c) then g[r + down][c + right] else g[r][c]))
  }

  ghost function Erased(g: Grid, rows: nat, cols: nat, rect: Rect, selective: bool, pen: Pen,
          lines: seq<LineInfo>): (e: Grid)
    requires IsGrid(g, rows, cols) && |lines| == rows
    ensures IsGrid(e, rows, cols)
    ensures forall r, c :: 0 <= r < rows && 0 <= c < cols ==>
              e[r][c] == if rect.Has(r, c)
                  && !(selective && g[r][c].pen.protectedCell) then Blank(pen, lines[r]) else g[r][c]
  {
    seq(rows, r requires 0 <= r < rows =>
      seq(cols, c requires 0 <= c < cols =>
        if rect.Has(r, c) && !(selective && g[r][c].pen.protectedCell) then Blank(pen, lines[r]) else g[r][c]))
  }

  /** Everything in `rect` moved at once, blank where nothing moves in. */
  ghost function Shifted(g: Grid, rows: nat, cols: nat, rect: Rect, down: int, right: int, pen: Pen,
          lines: seq<LineInfo>): (s: Grid)
    requires IsGrid(g, rows, cols) && rect.In(rows, cols) && |lines| == rows
    ensures IsGrid(s, rows, cols)
    ensures forall r, c :: 0 <= r < rows && 0 <= c < cols ==>
              s[r][c] ==
              if !rect.Has(r, c) then g[r][c]
              else if rect.Has(r + down, c + right) then g[r + down][c + right]
              else Blank(pen, lines[r])
  {
    seq(rows, r requires 0 <= r < rows =>
      seq(cols, c requires 0 <= c < cols =>
        if !rect.Has(r, c) then g[r][c]
        else if rect.Has(r + down, c + right) then g[r + down][c + right]
        else Blank(pen, lines[r])))
  }

  /** A scroll by at least the size of the rectangle moves nothing. */
  predicate ScrollsOut(rect: Rect, down: int, right: int) {
    Abs(down) >= rect.endRow - rect.startRow || Abs(right) >= rect.endCol - rect.startCol
  }

  /** The part of `rect` that a scroll fills from inside it. */
  function MoveDest(rect: Rect, down: int, right: int): Rect {
    Rect(if down >= 0 then rect.startRow else rect.startRow - down,
        if down >= 0 then rect.endRow - down else rect.endRow,
         if right >= 0 then rect.startCol else rect.startCol - right,
             if right >= 0 then rect.endCol - right else rect.endCol)
  }

  /** The part of `rect` that a scroll erases: the exposed strip, or with two axes only the exposed corner. */
  function Exposed(rect: Rect, down: int, right: int): Rect {
    Rect(if down > 0 then rect.endRow - down else rect.startRow, if down < 0 then rect.startRow - down else rect.endRow,
         if right > 0 then rect.endCol - right else rect.startCol,
             if right < 0 then rect.startCol - right else rect.endCol)
  }

  /** What a scroll leaves, for every pair of distances: cells that neither move nor lie in the exposed
      part keep their old content. */
  ghost function Scrolled(g: Grid, rows: nat, cols: nat, rect: Rect, down: int, right: int, pen: Pen,
          lines: seq<LineInfo>): (s: Grid)
    requires IsGrid(g, rows, cols) && rect.In(rows, cols) && |lines| == rows
    ensures IsGrid(s, rows, cols)
    ensures forall r, c :: 0 <= r < rows && 0 <= c < cols ==>
              s[r][c] ==
              if !rect.Has(r, c) then g[r][c]
              else if ScrollsOut(rect, down, right) || Exposed(rect, down, right).Has(r, c) then Blank(pen, lines[r])
              else if rect.Has(r + down, c + right) then g[r + down][c + right]
              else g[r][c]
  {
    seq(rows, r requires 0 <= r < rows =>
      seq(cols, c requires 0 <= c < cols =>
        if !rect.Has(r, c) then g[r][c]
        else if ScrollsOut(rect, down, right) || Exposed(rect, down, right).Has(r, c) then Blank(pen, lines[r])
        else if rect.Has(r + down, c + right) then g[r + down][c + right]
        else g[r][c]))
  }

  /** A move and an erasure of the exposed part make up a scroll. */
  lemma MoveThenErase(g: Grid, rows: nat, cols: nat, rect: Rect, down: int, right: int, pen: Pen, lines: seq<LineInfo>)
    requires IsGrid(g, rows, cols) && rect.In(rows, cols) && |lines| == rows && !ScrollsOut(rect, down, right)
    ensures
      var moved := Moved(g, rows, cols, MoveDest(rect, down, right), down, right);
      Erased(moved, rows, cols, Exposed(rect, down, right), false, pen, lines)
          == Scrolled(g, rows, cols, rect, down, right, pen, lines)
  {
    var dest := MoveDest(rect, down, right);
    var a := Erased(Moved(g, rows, cols, dest, down, right), rows, cols, Exposed(rect, down, right), false, pen, lines);
    var b := Scrolled(g, rows, cols, rect, down, right, pen, lines);
    forall r, c | 0 <= r < rows && 0 <= c < cols ensures a[r][c] == b[r][c] {
      assert rect.Has(r, c) && rect.Has(r + down, c + right) <==> dest.Has(r, c);
    }
    SameGrid(a, b, rows, cols);
  }

  /** A scroll out of the rectangle erases all of it. */
  lemma EraseAll(g: Grid, rows: nat, cols: nat, rect: Rect, down: int, right: int, pen: Pen, lines: seq<LineInfo>)
    requires IsGrid(g, rows, cols) && rect.In(rows, cols) && |lines| == rows && ScrollsOut(rect, down, right)
    ensures Erased(g, rows, cols, rect, false, pen, lines) == Scrolled(g, rows, cols, rect, down, right, pen, lines)
  {
    SameGrid(Erased(g, rows, cols, rect, false, pen, lines), Scrolled(g, rows, cols, rect, down, right, pen, lines),
        rows, cols);
  }

  /** A scroll along one axis, or by at least the size of the rectangle, is the simultaneous shift. */
  lemma OneAxisShifts(g: Grid, rows: nat, cols: nat, rect: Rect, down: int, right: int, pen: Pen, lines: seq<LineInfo>)
    requires IsGrid(g, rows, cols) && rect.In(rows, cols) && |lines| == rows
    requires (down == 0) != (right == 0) || ScrollsOut(rect, down, right)
    ensures Scrolled(g, rows, cols, rect, down, right, pen, lines)
            == Shifted(g, rows, cols, rect, down, right, pen, lines)
  {
    var a := Scrolled(g, rows, cols, rect, down, right, pen, lines);
    var b := Shifted(g, rows, cols, rect, down, right, pen, lines);
    forall r, c | 0 <= r < rows && 0 <= c < cols ensures a[r][c] == b[r][c] {}
    SameGrid(a, b, rows, cols);
  }

  /** A grid of one repeated cell. */
  ghost function Filled(rows: nat, cols: nat, cell: Cell): (g: Grid)
    ensures IsGrid(g, rows, cols) && forall r, c :: 0 <= r < rows && 0 <= c < cols ==> g[r][c] == cell
  {
    seq(rows, r => seq(cols, c => cell))
  }

  /** Exactly when a scroll is the simultaneous shift whatever the screen holds. With two axes it is not:
      outside the corner the exposed cells keep their old content; with distance zero all is erased. */
  lemma ShiftsExactlyWhen(rows: nat, cols: nat, rect: Rect, down: int, right: int, pen: Pen, lines: seq<LineInfo>)
    requires rect.In(rows, cols) && |lines| == rows
    ensures
      (forall g: Grid | IsGrid(g, rows, cols) ::
         Scrolled(g, rows, cols, rect, down, right, pen, lines)
             == Shifted(g, rows, cols, rect, down, right, pen, lines))
      <==> (down == 0) != (right == 0) || ScrollsOut(rect, down, right)
  {
    if (down == 0) != (right == 0) || ScrollsOut(rect, down, right) {
      forall g: Grid | IsGrid(g, rows, cols)
        ensures Scrolled(g, rows, cols, rect, down, right, pen, lines)
                == Shifted(g, rows, cols, rect, down, right, pen, lines)
      {
        OneAxisShifts(g, rows, cols, rect, down, right, pen, lines);
      }
    } else {
      // A corner of the rectangle that is exposed by the rows only.
      var r := if down > 0 then rect.endRow - 1 else rect.startRow;
      var c := if right > 0 then rect.startCol else rect.endCol - 1;
      var g := Filled(rows, cols, Cell([65], pen));
      assert Scrolled(g, rows, cols, rect, down, right, pen, lines)[r][c]
             != Shifted(g, rows, cols, rect, down, right, pen, lines)[r][c];
    }
  }

  class ScreenBuffer {
    const rows: nat
    const cols: nat
    const cells: array2<Cell>
    var pen: Pen
    var lineinfo: seq<LineInfo>

    ghost predicate Valid()
      reads this
    {
      cells.Length0 == rows && cells.Length1 == cols && |lineinfo| == rows
    }

    ghost function Screen(): (g: Grid)
      requires Valid()
      reads this, cells
      ensures IsGrid(g, rows, cols)
    {
      Contents(cells)
    }

    constructor (rows: nat, cols: nat, pen: Pen)
      ensures Valid() && fresh(cells) && this.rows == rows && this.cols == cols && this.pen == pen
      ensures lineinfo == seq(rows, r => PLAIN_LINE)
      ensures Screen() == Filled(rows, cols, Cell([], pen))
    {
      this.rows, this.cols, this.pen := rows, cols, pen;
      lineinfo := seq(rows, r => PLAIN_LINE);
      cells := new Cell[rows, cols]((r, c) => Cell([], pen));
      new;
      SameGrid(Contents(cells), Filled(rows, cols, Cell([], pen)), rows, cols);
    }

    /** Copies one stretch of a row; source and destination may overlap. */
    method MoveRow(row: nat, col: nat, srcRow: nat, srcCol: nat, n: nat)
      requires Valid() && row < rows && srcRow < rows && col + n <= cols && srcCol + n <= cols
      modifies cells
      ensures forall r, c :: 0 <= r < rows && 0 <= c < cols ==>
                cells[r, c] == if r == row
                    && col <= c < col + n then old(cells[srcRow, srcCol + (c - col)]) else old(cells[r, c])
    {
      forall c | col <= c < col + n {
        cells[row, c] := cells[srcRow, srcCol + (c - col)];
      }
    }

    /** Copies `src` to `dest` row by row, in the order that never overwrites a row still to be read. */
    method MoveRect(dest: Rect, src: Rect)
      requires Valid() && dest.In(rows, cols) && src.In(rows, cols)
      requires dest.endRow - dest.startRow == src.endRow - src.startRow
               && dest.endCol - dest.startCol == src.endCol - src.startCol
      modifies cells
      ensures Screen() == Moved(old(Screen()), rows, cols, dest, src.startRow - dest.startRow,
              src.startCol - dest.startCol)
    {
      var n := src.endCol - src.startCol;
      var down, right := src.startRow - dest.startRow, src.startCol - dest.startCol;
      ghost var target := Moved(Screen(), rows, cols, dest, down, right);
      var row, testRow, incRow := dest.startRow, dest.endRow, 1;
      if down < 0 {
        row, testRow, incRow := dest.endRow - 1, dest.startRow - 1, -1;
      }
      while row != testRow
        invariant if down < 0 then dest.startRow - 1 <= row < dest.endRow else dest.startRow <= row <= dest.endRow
        invariant forall r, c :: 0 <= r < rows && 0 <= c < cols ==>
                    cells[r, c] ==
                    if dest.Has(r, c) && (if down < 0 then r > row else r < row) then old(cells[r + down, c + right])
                    else old(cells[r, c])
        decreases if down < 0 then row - testRow else testRow - row
      {
        MoveRow(row, dest.startCol, row + down, src.startCol, n);
        row := row + incRow;
      }
      SameGrid(Screen(), target, rows, cols);
    }

    /** Blanks a rectangle, or in a selective erase only its unprotected cells. */
    method Erase(rect: Rect, selective: bool)
      requires Valid() && 0 <= rect.startRow && 0 <= rect.startCol && rect.endCol <= cols
      modifies cells
      ensures Screen() == Erased(old(Screen()), rows, cols, rect, selective, pen, lineinfo)
      ensures forall r, c :: 0 <= r < rows && 0 <= c < cols ==>
                var kept := !rect.Has(r, c) || (selective && old(cells[r, c]).pen.protectedCell);
                && (kept ==> cells[r, c] == old(cells[r, c]))
                && (!kept ==> cells[r, c].chars == [] && cells[r, c].pen.fg == pen.fg && cells[r, c].pen.bg == pen.bg
                              && cells[r, c].pen.attrs == PLAIN && !cells[r, c].pen.protectedCell
                              && cells[r, c].pen.dwl == lineinfo[r].doublewidth
                              && cells[r, c].pen.dhl == lineinfo[r].doubleheight)
    {
      ghost var target := Erased(Screen(), rows, cols, rect, selective, pen, lineinfo);
      var row := rect.startRow;
      while row < rows && row < rect.endRow
        invariant rect.startRow <= row
        invariant forall r, c :: 0 <= r < rows && 0 <= c < cols ==>
                    cells[r, c] == if r < row then target[r][c] else old(cells[r, c])
      {
        var info := lineinfo[row];
        var col := rect.startCol;
        while col < rect.endCol
          invariant rect.startCol <= col
          invariant forall r, c :: 0 <= r < rows && 0 <= c < cols ==>
                      cells[r, c] == if r < row || (r == row && c < col) then target[r][c] else old(cells[r, c])
        {
          if !(selective && cells[row, col].pen.protectedCell) {
            cells[row, col] := Blank(pen, info);
          }
          col := col + 1;
        }
        row := row + 1;
      }
      SameGrid(Screen(), target, rows, cols);
    }

    /** Scrolls the content of a rectangle: one move, one erasure. */
    method ScrollRect(rect: Rect, down: int, right: int)
      requires Valid() && rect.In(rows, cols)
      modifies cells
      ensures Screen() == Scrolled(old(Screen()), rows, cols, rect, down, right, pen, lineinfo)
    {
      hide Moved, Erased, Scrolled;
      if Abs(down) >= rect.endRow - rect.startRow || Abs(right) >= rect.endCol - rect.startCol {
        EraseAll(Screen(), rows, cols, rect, down, right, pen, lineinfo);
        Erase(rect, false);
      } else {
        MoveThenErase(Screen(), rows, cols, rect, down, right, pen, lineinfo);
        var dest := MoveDest(rect, down, right);
        MoveRect(dest, Rect(dest.startRow + down, dest.endRow + down, dest.startCol + right, dest.endCol + right));
        Erase(Exposed(rect, down, right), false);
      }
    }

    /** Copies cell by cell, rows and columns each in the direction that reads before it overwrites. */
    method CopyCells(dest: Rect, src: Rect)
      requires Valid() && dest.In(rows, cols) && src.In(rows, cols)
      requires dest.endRow - dest.startRow == src.endRow - src.startRow
               && dest.endCol - dest.startCol == src.endCol - src.startCol
      modifies cells
      ensures Screen() == Moved(old(Screen()), rows, cols, dest, src.startRow - dest.startRow,
              src.startCol - dest.startCol)
    {
      var down, right := src.startRow - dest.startRow, src.startCol - dest.startCol;
      var initRow, testRow, incRow := dest.startRow, dest.endRow, 1;
      if down < 0 {
        initRow, testRow, incRow := dest.endRow - 1, dest.startRow - 1, -1;
      }
      var initCol, testCol, incCol := dest.startCol, dest.endCol, 1;
      if right < 0 {
        initCol, testCol, incCol := dest.endCol - 1, dest.startCol - 1, -1;
      }
      var row := initRow;
      while row != testRow
        invariant if down < 0 then dest.startRow - 1 <= row < dest.endRow else dest.startRow <= row <= dest.endRow
        invariant forall r, c :: 0 <= r < rows && 0 <= c < cols ==>
                    cells[r, c] ==
                    if dest.Has(r, c) && (if down < 0 then r > row else r < row) then old(cells[r + down, c + right])
                    else old(cells[r, c])
        decreases if down < 0 then row - testRow else testRow - row
      {
        var col := initCol;
        while col != testCol
          invariant if right < 0 then dest.startCol - 1 <= col < dest.endCol else dest.startCol <= col <= dest.endCol
          invariant forall r, c :: 0 <= r < rows && 0 <= c < cols ==>
                      cells[r, c] ==
                      if dest.Has(r, c)
                          && ((if down < 0 then r > row else r < row)
                          || (r == row && (if right < 0 then c > col else c < col)))
                      then old(cells[r + down, c + right])
                      else old(cells[r, c])
          decreases if right < 0 then col - testCol else testCol - col
        {
          cells[row, col] := cells[row + down, col + right];
          col := col + incCol;
        }
        row := row + incRow;
      }
      SameGrid(Screen(), Moved(old(Screen()), rows, cols, dest, down, right), rows, cols);
    }
  }
}
