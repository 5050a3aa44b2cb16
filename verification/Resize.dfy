/** Resizing a screen buffer without reflow. */
module Resize {
  import opened Cells
  import opened Scrollback

  datatype Pos = Pos(row: int, col: int)

  // ----- what a resize does -----

  /** The number of cells up to the last one that is not blank. */
  function Popcount(row: Row): (n: nat)
    ensures n <= |row| && (n > 0 ==> row[n - 1].chars != []) && forall c :: n <= c < |row| ==> row[c].chars == []
  {
    if row == [] then 0
    else if row[|row| - 1].chars == [] then Popcount(row[..|row| - 1])
    else |row|
  }

  lemma PopcountBound(row: Row)
    ensures Popcount(row) <= |row|
  {
  }

  function Min(a: int, b: int): int { if a < b then a else b }

  /** A row brought to another width: its content as far as it fits, then cleared cells. */
  function CutRow(row: Row, cols: nat, pen: Pen): (r: Row)
    ensures |r| == cols
    ensures forall c :: 0 <= c < cols ==> r[c] == if c < Popcount(row) then row[c] else Cell([], pen)
  {
    seq(cols, c requires 0 <= c < cols => if c < Popcount(row) then row[c] else Cell([], pen))
  }

  function CutRows(g: Grid, cols: nat, pen: Pen): (r: Grid)
    ensures |r| == |g| && forall i :: 0 <= i < |g| ==> r[i] == CutRow(g[i], cols, pen)
  {
    seq(|g|, i requires 0 <= i < |g| => CutRow(g[i], cols, pen))
  }

  function ClearRow(cols: nat, pen: Pen): (row: Row)
    ensures |row| == cols && IsBlankRow(row)
  {
    seq(cols, c => Cell([], pen))
  }

  function ClearRows(n: nat, cols: nat, pen: Pen): (g: Grid)
    ensures |g| == n && forall i :: 0 <= i < n ==> g[i] == ClearRow(cols, pen)
  {
    seq(n, r => ClearRow(cols, pen))
  }

  /** How many rows at the bottom are blank. */
  function Trailing(g: Grid): (n: nat)
    ensures n <= |g|
  {
    if g == [] || Popcount(g[|g| - 1]) != 0 then 0 else 1 + Trailing(g[..|g| - 1])
  }

  lemma {:induction false} TrailingBlank(g: Grid, i: nat)
    requires i < |g|
    ensures i >= |g| - Trailing(g) ==> Popcount(g[i]) == 0
    ensures i + 1 == |g| - Trailing(g) ==> Popcount(g[i]) != 0
  {
    if Trailing(g) > 0 && i < |g| - 1 {
      TrailingBlank(g[..|g| - 1], i);
    }
  }

  /** Rows that a smaller screen has no room for. */
  function Excess(rows: nat, newRows: nat): nat { if rows > newRows then rows - newRows else 0 }

  /** Of those, blank rows below the cursor are dropped first. */
  function Dropped(g: Grid, cursorRow: nat, newRows: nat): (n: nat)
    requires cursorRow < |g|
  {
    Min(Excess(|g|, newRows), Min(Trailing(g), |g| - 1 - cursorRow))
  }

  /** The others leave at the top, into the scrollback. */
  function PushedBy(g: Grid, cursorRow: nat, newRows: nat): (n: nat)
    requires cursorRow < |g|
  {
    Excess(|g|, newRows) - Dropped(g, cursorRow, newRows)
  }

  function Resized(g: Grid, cursorRow: nat, newRows: nat, newCols: nat, pen: Pen): (r: Grid)
    requires cursorRow < |g|
    ensures |r| == newRows
    ensures
      var top, kept := PushedBy(g, cursorRow, newRows), |g| - Excess(|g|, newRows);
      forall i :: 0 <= i < newRows ==>
            r[i] == if i < kept then CutRow(g[top + i], newCols, pen) else ClearRow(newCols, pen)
  {
    var top, bottom := PushedBy(g, cursorRow, newRows), |g| - Dropped(g, cursorRow, newRows);
    CutRows(g[top..bottom], newCols, pen) + ClearRows(newRows - (bottom - top), newCols, pen)
  }

  /** The cursor stays on its row; when that row has left, it goes to the top row. */
  function ResizedCursor(g: Grid, cursor: Pos, newRows: nat, newCols: nat): Pos
    requires 0 <= cursor.row < |g|
  {
    var top := PushedBy(g, cursor.row, newRows);
    Pos(if cursor.row >= top then cursor.row - top else 0, Min(cursor.col, newCols - 1))
  }

  // ----- resize_buffer -----

  /** Counts the cells of a row up to the last one that is not blank. */
  method LinePopcount(buffer: array2<Cell>, row: nat) returns (n: nat)
    requires row < buffer.Length0
    ensures n == Popcount(Contents(buffer)[row])
  {
    ghost var line := Contents(buffer)[row];
    var col := buffer.Length1 - 1;
    while col >= 0 && buffer[row, col].chars == []
      invariant -1 <= col < buffer.Length1
      invariant Popcount(line) == Popcount(line[..col + 1])
    {
      assert line[..col + 1][..col] == line[..col];
      col := col - 1;
    }
    n := col + 1;
  }

  lemma SameRow(buffer: array2<Cell>, r: nat, row: Row)
    requires r < buffer.Length0 && |row| == buffer.Length1 && forall c :: 0 <= c < |row| ==> buffer[r, c] == row[c]
    ensures Contents(buffer)[r] == row
  {
  }

  /** Copies one row to its new place, cleared after its content, and places the cursor if it is on it. */
  method CopyRow(old_: array2<Cell>, buffer: array2<Cell>, oldRow: nat, newRow: nat, width: nat, pen: Pen, cursor: Pos,
          before: Pos)
    returns (newCursor: Pos)
    requires old_ != buffer && oldRow < old_.Length0 && newRow < buffer.Length0 && buffer.Length1 > 0
    requires width == Popcount(Contents(old_)[oldRow]) && 0 <= cursor.col < old_.Length1
    modifies buffer
    ensures forall r :: 0 <= r < buffer.Length0 ==>
              Contents(buffer)[r] == if r == newRow then CutRow(Contents(old_)[oldRow], buffer.Length1, pen)
                  else old(Contents(buffer))[r]
    ensures newCursor == if cursor.row == oldRow then Pos(newRow, Min(cursor.col, buffer.Length1 - 1)) else before
  {
    hide Popcount, IsBlankRow;
    assert width <= old_.Length1 by { PopcountBound(Contents(old_)[oldRow]); }
    ghost var line := CutRow(Contents(old_)[oldRow], buffer.Length1, pen);
    newCursor := before;
    var newCols := buffer.Length1;
    var count := if width >= newCols then newCols else width;
    var row, oldCol, newCol := oldRow, 0, 0;
    while count > 0
      invariant 0 <= oldCol == newCol <= newCols && newCol + count == Min(width, newCols)
      invariant row == oldRow && (count > 0 ==> oldCol < old_.Length1)
      invariant forall r, c :: 0 <= r < buffer.Length0 && 0 <= c < newCols ==>
                  buffer[r, c] == if r == newRow && c < newCol then line[c] else old(buffer[r, c])
      invariant newCursor == if cursor.row == oldRow && cursor.col < oldCol then Pos(newRow, cursor.col) else before
      decreases count
    {
      buffer[newRow, newCol] := old_[row, oldCol];
      if cursor.row == row && cursor.col == oldCol {
        newCursor := Pos(newRow, newCol);
      }
      oldCol := oldCol + 1;
      if oldCol == old_.Length1 {
        row := row + 1;
        newCol := newCol + 1;
        break;
      }
      newCol := newCol + 1;
      count := count - 1;
    }
    if cursor.row == row && cursor.col >= oldCol {
      newCursor := Pos(newRow, cursor.col - oldCol + newCol);
      if newCursor.col >= newCols {
        newCursor := newCursor.(col := newCols - 1);
      }
    }
    while newCol < newCols
      invariant newCol <= newCols
      invariant forall r, c :: 0 <= r < buffer.Length0 && 0 <= c < newCols ==>
                  buffer[r, c] == if r == newRow && c < newCol then line[c] else old(buffer[r, c])
    {
      buffer[newRow, newCol] := Cell([], pen);
      newCol := newCol + 1;
    }
    forall r | 0 <= r < buffer.Length0 ensures Contents(buffer)[r] == if r == newRow then line
        else old(Contents(buffer))[r] {
      SameRow(buffer, r, if r == newRow then line else old(Contents(buffer))[r]);
    }
  }

  /** Moves rows of a buffer by `down`, all at once. */
  method MoveRows(buffer: array2<Cell>, first: nat, count: nat, down: int)
    requires first + count <= buffer.Length0 && 0 <= first + down && first + down + count <= buffer.Length0
    modifies buffer
    ensures forall r :: 0 <= r < buffer.Length0 ==>
              Contents(buffer)[r] == if first <= r - down < first + count then old(Contents(buffer))[r - down]
                  else old(Contents(buffer))[r]
  {
    ghost var g := Contents(buffer);
    forall r, c | first + down <= r < first + down + count && 0 <= c < buffer.Length1 {
      buffer[r, c] := buffer[r - down, c];
    }
    forall r | 0 <= r < buffer.Length0
      ensures Contents(buffer)[r] == if first <= r - down < first + count then g[r - down] else g[r]
    {
      SameRow(buffer, r, if first <= r - down < first + count then g[r - down] else g[r]);
    }
  }

  /** The old rows above `oldRow`, apart from `dropped` at the bottom, have been placed below `newRow`. */
  ghost predicate RowsPlaced(g: Grid, n: Grid, oldRow: int, newRow: int, dropped: nat, cols: nat, pen: Pen) {
    && -1 <= oldRow < |g| && -1 <= newRow < |n|
    && |g| - dropped - oldRow == |n| - newRow
    && forall r :: newRow < r < |n| ==> n[r] == CutRow(g[r - newRow + oldRow], cols, pen)
  }

  /** How far the loop has come with the blank rows at the bottom. */
  ghost predicate BlanksCounted(g: Grid, oldRow: int, blanks: int) {
    blanks == Min(Trailing(g), |g| - 1 - oldRow)
  }

  lemma StartPlacing(g: Grid, n: Grid, cols: nat, pen: Pen)
    ensures g != [] && n != [] ==> RowsPlaced(g, n, |g| - 1, |n| - 1, 0, cols, pen) && BlanksCounted(g, |g| - 1, 0)
  {
  }

  lemma CountBlank(g: Grid, oldRow: nat, blanks: int, width: nat)
    requires oldRow < |g| && BlanksCounted(g, oldRow, blanks) && width == Popcount(g[oldRow])
    ensures BlanksCounted(g, oldRow - 1, if width == 0 && blanks == |g| - 1 - oldRow then blanks + 1 else blanks)
  {
    TrailingBlank(g, oldRow);
  }

  lemma PlaceOne(g: Grid, n: Grid, n': Grid, oldRow: nat, newRow: nat, dropped: nat, cols: nat, pen: Pen)
    requires RowsPlaced(g, n, oldRow, newRow, dropped, cols, pen) && |n'| == |n|
    requires forall r :: 0 <= r < |n| ==> n'[r] == if r == newRow then CutRow(g[oldRow], cols, pen) else n[r]
    ensures RowsPlaced(g, n', oldRow - 1, newRow - 1, dropped, cols, pen)
  {
  }

  lemma ShiftPlaced(g: Grid, n: Grid, n': Grid, oldRow: int, d: nat, dropped: nat, cols: nat, pen: Pen)
    requires RowsPlaced(g, n, oldRow, -1, dropped, cols, pen) && |n'| == |n| && d <= |n|
    requires forall r :: d <= r < |n| ==> n'[r] == n[r - d]
    ensures RowsPlaced(g, n', oldRow, d - 1, dropped + d, cols, pen)
  {
  }

  /** What was placed, brought to the top of the screen, is the resized screen. */
  lemma PlacedAll(g: Grid, n: Grid, n': Grid, oldRow: int, newRow: int, dropped: nat, cursorRow: nat, cols: nat,
          pen: Pen)
    requires RowsPlaced(g, n, oldRow, newRow, dropped, cols, pen) && |n'| == |n| && cursorRow < |g|
    requires dropped == Dropped(g, cursorRow, |n|) && oldRow + 1 == PushedBy(g, cursorRow, |n|)
    requires forall r :: 0 <= r < |n| ==>
               n'[r] == if r + newRow + 1 < |n| then n[r + newRow + 1] else ClearRow(cols, pen)
    ensures n' == Resized(g, cursorRow, |n|, cols, pen)
  {
    hide CutRow, ClearRow, Trailing;
    var m := Resized(g, cursorRow, |n|, cols, pen);
    forall r | 0 <= r < |n| ensures n'[r] == m[r] {
    }
  }

  /** When the loop has ended, because every row is placed or because the screen is full and no blank
      row below the cursor is left at its bottom. */
  lemma PlacingEnds(g: Grid, oldRow: int, newRow: int, spare: int, dropped: nat, cursorRow: nat, newRows: nat)
    requires cursorRow < |g| && -1 <= oldRow < |g| && |g| - dropped - oldRow == newRows - newRow
             && -1 <= newRow < newRows
    requires dropped <= |g| - 1 - cursorRow && (dropped > 0 ==> newRow == -1) && (oldRow >= 0 ==> newRow == -1)
    requires spare >= 0 && BlanksCounted(g, if oldRow >= 0 then oldRow - 1 else -1, dropped + spare)
    requires oldRow >= 0 ==> spare <= 0 || (cursorRow > oldRow && cursorRow - oldRow >= newRows)
    ensures dropped == Dropped(g, cursorRow, newRows) && oldRow + 1 == PushedBy(g, cursorRow, newRows)
  {
  }

  /** Pushes the rows that did not fit. */
  method PushTop(old_: array2<Cell>, oldRow: int) returns (pushed: Grid)
    requires -1 <= oldRow < old_.Length0
    ensures pushed == Contents(old_)[..oldRow + 1]
  {
    pushed := [];
    if oldRow >= 0 {
      for row := 0 to oldRow + 1
        invariant pushed == Contents(old_)[..row]
      {
        var line: Row := [];
        for col := 0 to old_.Length1
          invariant line == Contents(old_)[row][..col]
        {
          line := line + [old_[row, col]];
        }
        assert line == Contents(old_)[row];
        assert Contents(old_)[..row + 1] == Contents(old_)[..row] + [line];
        pushed := pushed + [line];
      }
    }
  }

  /** Moves the rows below `newRow` to the top and clears the rest. */
  method MoveUp(buffer: array2<Cell>, newRow: int, pen: Pen)
    requires -1 <= newRow < buffer.Length0
    modifies buffer
    ensures forall r :: 0 <= r < buffer.Length0 ==>
              Contents(buffer)[r] == if r + newRow + 1 < buffer.Length0 then old(Contents(buffer))[r + newRow + 1]
                  else ClearRow(buffer.Length1, pen)
  {
    if newRow >= 0 {
      ghost var g := Contents(buffer);
      var moveRows := buffer.Length0 - newRow - 1;
      MoveRows(buffer, newRow + 1, moveRows, -(newRow + 1));
      ghost var m := Contents(buffer);
      for row := moveRows to buffer.Length0
        invariant forall r, c :: 0 <= r < buffer.Length0 && 0 <= c < buffer.Length1 ==>
                    buffer[r, c] == if moveRows <= r < row then Cell([], pen) else m[r][c]
      {
        for col := 0 to buffer.Length1
          invariant forall r, c :: 0 <= r < buffer.Length0 && 0 <= c < buffer.Length1 ==>
                      buffer[r, c] == if moveRows <= r < row || (r == row && c < col) then Cell([], pen) else m[r][c]
        {
          buffer[row, col] := Cell([], pen);
        }
      }
      forall r | 0 <= r < buffer.Length0
        ensures Contents(buffer)[r] == if r + newRow + 1 < buffer.Length0 then g[r + newRow + 1]
                else ClearRow(buffer.Length1, pen)
      {
        SameRow(buffer, r, if r < moveRows then m[r] else ClearRow(buffer.Length1, pen));
      }
    }
  }

  method ScrollDown(buffer: array2<Cell>, downwards: nat, ghost g: Grid, ghost oldRow: int, ghost dropped: nat,
          ghost pen: Pen)
    requires downwards <= buffer.Length0 && RowsPlaced(g, Contents(buffer), oldRow, -1, dropped, buffer.Length1, pen)
    modifies buffer
    ensures RowsPlaced(g, Contents(buffer), oldRow, downwards - 1, dropped + downwards, buffer.Length1, pen)
  {
    hide RowsPlaced, CutRow;
    ghost var n := Contents(buffer);
    MoveRows(buffer, 0, buffer.Length0 - downwards, downwards);
    ShiftPlaced(g, n, Contents(buffer), oldRow, downwards, dropped, buffer.Length1, pen);
  }

  method PlaceRow(old_: array2<Cell>, buffer: array2<Cell>, oldRow: nat, newRow: nat, width: nat, pen: Pen, cursor: Pos,
          before: Pos, ghost dropped: nat)
    returns (newCursor: Pos)
    requires old_ != buffer && oldRow < old_.Length0 && newRow < buffer.Length0 && buffer.Length1 > 0
    requires width == Popcount(Contents(old_)[oldRow]) && 0 <= cursor.col < old_.Length1
    requires RowsPlaced(Contents(old_), Contents(buffer), oldRow, newRow, dropped, buffer.Length1, pen)
    modifies buffer
    ensures RowsPlaced(Contents(old_), Contents(buffer), oldRow - 1, newRow - 1, dropped, buffer.Length1, pen)
    ensures newCursor == if cursor.row == oldRow then Pos(newRow, Min(cursor.col, buffer.Length1 - 1)) else before
  {
    hide RowsPlaced, CutRow;
    ghost var n := Contents(buffer);
    newCursor := CopyRow(old_, buffer, oldRow, newRow, width, pen, cursor, before);
    PlaceOne(Contents(old_), n, Contents(buffer), oldRow, newRow, dropped, buffer.Length1, pen);
  }

  /** Places the old rows from the bottom up, scrolling what is placed down over blank rows at the bottom
      when the new screen is full. */
  method PlaceRows(old_: array2<Cell>, buffer: array2<Cell>, pen: Pen, cursor: Pos)
    returns (oldRow: int, newRow: int, newCursor: Pos, ghost dropped: nat)
    requires 0 <= cursor.row < old_.Length0 && 0 <= cursor.col < old_.Length1
    requires old_ != buffer && buffer.Length0 > 0 && buffer.Length1 > 0
    modifies buffer
    ensures RowsPlaced(Contents(old_), Contents(buffer), oldRow, newRow, dropped, buffer.Length1, pen)
    ensures dropped == Dropped(Contents(old_), cursor.row, buffer.Length0)
    ensures oldRow + 1 == PushedBy(Contents(old_), cursor.row, buffer.Length0)
    ensures newCursor == if cursor.row > oldRow then Pos(cursor.row - oldRow + newRow,
            Min(cursor.col, buffer.Length1 - 1)) else Pos(-1, -1)
    ensures oldRow >= 0 ==> newRow == -1
  {
    hide Trailing, Popcount, CutRow, Resized, RowsPlaced, Contents, Dropped, PushedBy, Excess, ResizedCursor;
    hide BlanksCounted, Min;
    var newRows, newCols := buffer.Length0, buffer.Length1;
    ghost var g := Contents(old_);
    oldRow, newRow := old_.Length0 - 1, newRows - 1;
    newCursor := Pos(-1, -1);
    var finalBlankRow := newRows;
    dropped := 0;
    StartPlacing(g, Contents(buffer), newCols, pen);
    while oldRow >= 0
      invariant -1 <= oldRow < |g| && -1 <= newRow < newRows && |g| - dropped - oldRow == newRows - newRow
      invariant RowsPlaced(g, Contents(buffer), oldRow, newRow, dropped, newCols, pen)
      invariant BlanksCounted(g, oldRow, dropped + (newRows - finalBlankRow)) && finalBlankRow <= newRows
      invariant dropped <= |g| - 1 - cursor.row && (dropped > 0 ==> newRow == -1)
      invariant newCursor == if cursor.row > oldRow then Pos(cursor.row - oldRow + newRow, Min(cursor.col, newCols - 1))
                else Pos(-1, -1)
    {
      var width := LinePopcount(old_, oldRow);
      CountBlank(g, oldRow, dropped + (newRows - finalBlankRow), width);
      if finalBlankRow == newRow + 1 && width == 0 {
        finalBlankRow := newRow;
      }
      var spareRows := newRows - finalBlankRow;
      if newRow < 0 && spareRows >= 0 && (newCursor.row == -1 || newCursor.row - newRow < newRows) {
        var downwards := -newRow;
        if downwards > spareRows {
          downwards := spareRows;
        }
        ScrollDown(buffer, downwards, g, oldRow, dropped, pen);
        newRow := newRow + downwards;
        if newCursor.row >= 0 {
          newCursor := newCursor.(row := newCursor.row + downwards);
        }
        finalBlankRow := finalBlankRow + downwards;
        dropped := dropped + downwards;
      }
      if newRow < 0 {
        break;
      }
      newCursor := PlaceRow(old_, buffer, oldRow, newRow, width, pen, cursor, newCursor, dropped);
      oldRow := oldRow - 1;
      newRow := newRow - 1;
    }
    PlacingEnds(g, oldRow, newRow, newRows - finalBlankRow, dropped, cursor.row, newRows);
  }

  /** Places the old rows, pushes those left over at the top and moves the others to the top. The cursor
      always ends up somewhere. */
  method ResizeBuffer(old_: array2<Cell>, pen: Pen, cursor: Pos, newRows: nat, newCols: nat)
    returns (buffer: array2<Cell>, newCursor: Pos, pushed: Grid)
    requires 0 <= cursor.row < old_.Length0 && 0 <= cursor.col < old_.Length1 && newRows > 0 && newCols > 0
    ensures fresh(buffer) && buffer.Length0 == newRows && buffer.Length1 == newCols
    ensures Contents(buffer) == Resized(Contents(old_), cursor.row, newRows, newCols, pen)
    ensures newCursor == ResizedCursor(Contents(old_), cursor, newRows, newCols)
    ensures pushed == Contents(old_)[..PushedBy(Contents(old_), cursor.row, newRows)]
  {
    hide Trailing, CutRow, Resized, RowsPlaced, Contents, Dropped, PushedBy, Excess;
    buffer := new Cell[newRows, newCols]((r, c) => Cell([], pen));
    var oldRow, newRow;
    ghost var dropped;
    oldRow, newRow, newCursor, dropped := PlaceRows(old_, buffer, pen, cursor);
    ghost var g, placed := Contents(old_), Contents(buffer);
    PlacedBounds(g, placed, oldRow, newRow, dropped, newCols, pen);
    if cursor.row <= oldRow {
      newCursor := Pos(0, cursor.col);
      if newCursor.col >= newCols {
        newCursor := newCursor.(col := newCols - 1);
      }
    }
    assert newCursor.row != -1 && newCursor.col != -1;
    pushed := PushTop(old_, oldRow);
    MoveUp(buffer, newRow, pen);
    PlacedAll(g, placed, Contents(buffer), oldRow, newRow, dropped, cursor.row, newCols, pen);
    if newRow >= 0 {
      newCursor := newCursor.(row := newCursor.row - (newRow + 1));
    }
  }

  lemma PlacedBounds(g: Grid, n: Grid, oldRow: int, newRow: int, dropped: nat, cols: nat, pen: Pen)
    requires RowsPlaced(g, n, oldRow, newRow, dropped, cols, pen)
    ensures -1 <= oldRow < |g| && -1 <= newRow < |n| && |g| - dropped - oldRow == |n| - newRow
  {
  }

  // ----- what a resize keeps -----

  lemma CutJoin(a: Grid, b: Grid, c: Grid, cols: nat, pen: Pen)
    ensures CutRows(a, cols, pen) + (CutRows(b, cols, pen) + c) == CutRows(a + b, cols, pen) + c
  {
  }

  /** A resize keeps every line that is not blank: the pushed rows and then the rows of the new screen are
      the old rows in order, cut to the new width, without `dropped` blank rows from the bottom or with
      blank rows added there. Rows are pushed, and blank rows dropped, only when the new screen is full. */
  lemma ResizeConserves(g: Grid, cursorRow: nat, newRows: nat, newCols: nat, pen: Pen)
    requires cursorRow < |g| && newRows > 0
    ensures
      var top, dropped := PushedBy(g, cursorRow, newRows), Dropped(g, cursorRow, newRows);
      var new_ := Resized(g, cursorRow, newRows, newCols, pen);
      && top + dropped <= |g|
      && CutRows(g[..top], newCols, pen) + new_
         == CutRows(g[..|g| - dropped], newCols, pen) + ClearRows(top + dropped + newRows - |g|, newCols, pen)
      && (forall i :: |g| - dropped <= i < |g| ==> IsBlankRow(g[i]))
      && (top + dropped > 0 ==> |g| - top - dropped == newRows)
  {
    var top, dropped := PushedBy(g, cursorRow, newRows), Dropped(g, cursorRow, newRows);
    CutJoin(g[..top], g[top..|g| - dropped], ClearRows(top + dropped + newRows - |g|, newCols, pen), newCols, pen);
    assert g[..top] + g[top..|g| - dropped] == g[..|g| - dropped];
    forall i | |g| - dropped <= i < |g| ensures IsBlankRow(g[i]) { TrailingBlank(g, i); }
  }

  /** A row no wider than the new screen keeps what it shows. */
  lemma CutKeepsText(row: Row, cols: nat, pen: Pen)
    requires Popcount(row) <= cols
    ensures Popcount(CutRow(row, cols, pen)) == Popcount(row)
    ensures forall c :: 0 <= c < Popcount(row) ==> CutRow(row, cols, pen)[c] == row[c]
  {
    PopcountIs(CutRow(row, cols, pen), Popcount(row));
  }

  lemma PopcountIs(row: Row, n: nat)
    requires n <= |row| && (n > 0 ==> row[n - 1].chars != []) && forall c :: n <= c < |row| ==> row[c].chars == []
    ensures Popcount(row) == n
  {
  }

  /** The cursor stays on the content of its row exactly when that row is kept; otherwise it is at the top. */
  lemma CursorStays(g: Grid, cursor: Pos, newRows: nat, newCols: nat, pen: Pen)
    requires 0 <= cursor.row < |g| && 0 <= cursor.col && newRows > 0 && newCols > 0
    ensures
      var at := ResizedCursor(g, cursor, newRows, newCols);
      && 0 <= at.row < newRows && 0 <= at.col < newCols && (cursor.col < newCols ==> at.col == cursor.col)
      && (cursor.row >= PushedBy(g, cursor.row, newRows) ==>
            Resized(g, cursor.row, newRows, newCols, pen)[at.row] == CutRow(g[cursor.row], newCols, pen))
      && (cursor.row < PushedBy(g, cursor.row, newRows) ==> at.row == 0)
  {
  }

  /** Whether the row of the cursor is kept. */
  lemma CursorRowKept(g: Grid, cursorRow: nat, newRows: nat)
    requires cursorRow < |g| && newRows > 0
    ensures cursorRow >= PushedBy(g, cursorRow, newRows) <==>
              |g| - cursorRow - Min(Trailing(g), |g| - 1 - cursorRow) <= newRows
  {
  }
}
