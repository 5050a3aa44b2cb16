/** What a terminal cell holds, and rectangles of cells. */
module Cells {

  /** A colour is an RGB triple or a palette index, and may carry the mark of being the default. */
  datatype Color =
    | Rgb(red: nat, green: nat, blue: nat, defaultFg: bool, defaultBg: bool)
    | Indexed(idx: nat, defaultFg: bool, defaultBg: bool)

  datatype Attrs = Attrs(
    bold: bool, underline: nat, italic: bool, blink: bool, reverse: bool, conceal: bool, strike: bool,
    font: nat, small: bool, baseline: nat)

  const PLAIN: Attrs := Attrs(false, 0, false, false, false, false, false, 0, false, 0)

  datatype Pen = Pen(fg: Color, bg: Color, attrs: Attrs, protectedCell: bool, dwl: bool, dhl: nat)

  /** `chars` are the code points up to the first zero; an erased cell has none. */
  datatype Cell = Cell(chars: seq<nat>, pen: Pen)

  /** In place of the code point of a cell that a wide glyph to its left covers. */
  const PADDING: nat := 0xffff_ffff

  datatype LineInfo = LineInfo(doublewidth: bool, doubleheight: nat, continuation: bool)

  const PLAIN_LINE: LineInfo := LineInfo(false, 0, false)

  type Row = seq<Cell>
  type Grid = seq<Row>

  /** An erased cell keeps only the colours of the pen, and the width class of its line. */
  function Blank(pen: Pen, line: LineInfo): Cell {
    Cell([], Pen(pen.fg, pen.bg, PLAIN, false, line.doublewidth, line.doubleheight))
  }

  predicate IsGrid(g: Grid, rows: nat, cols: nat) {
    |g| == rows && forall r :: 0 <= r < rows ==> |g[r]| == cols
  }

  /** Rows and columns from start up to, not including, end. */
  datatype Rect = Rect(startRow: int, endRow: int, startCol: int, endCol: int) {
    predicate Has(r: int, c: int) {
      startRow <= r < endRow && startCol <= c < endCol
    }

    predicate In(rows: nat, cols: nat) {
      0 <= startRow <= endRow <= rows && 0 <= startCol <= endCol <= cols
    }

    predicate Empty() {
      startRow >= endRow || startCol >= endCol
    }
  }

  function Abs(n: int): nat { if n < 0 then -n else n }

  /** A fixed-size buffer of cells as a value. */
  ghost function Contents(buffer: array2<Cell>): (g: Grid)
    reads buffer
    ensures IsGrid(g, buffer.Length0, buffer.Length1)
    ensures forall r, c :: 0 <= r < buffer.Length0 && 0 <= c < buffer.Length1 ==> g[r][c] == buffer[r, c]
  {
    seq(buffer.Length0, r requires 0 <= r < buffer.Length0 reads buffer =>
      seq(buffer.Length1, c requires 0 <= c < buffer.Length1 reads buffer => buffer[r, c]))
  }

  lemma SameGrid(a: Grid, b: Grid, rows: nat, cols: nat)
    requires IsGrid(a, rows, cols) && IsGrid(b, rows, cols)
    requires forall r, c :: 0 <= r < rows && 0 <= c < cols ==> a[r][c] == b[r][c]
    ensures a == b
  {
    forall r | 0 <= r < rows ensures a[r] == b[r] {
      assert forall c :: 0 <= c < cols ==> a[r][c] == b[r][c];
    }
  }
}
