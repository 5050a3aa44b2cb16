/** The cursor of the terminal: what text, controls, escape sequences and CSI commands do to its position,
    to the saved position and to the scroll region. Drawing and scrolling themselves are elsewhere. */
module Cursor {
  import P = ParserRules

  type Byte = P.Byte

  datatype Pos = Pos(row: int, col: int)

  // ----- CSI arguments -----

  /** The argument list as commands see it: one that is not there counts as missing. */
  function ArgAt(args: seq<P.Arg>, i: nat): nat { if i < |args| then args[i].value else P.MISSING }

  /** A count: missing and zero mean one. */
  function CountAt(args: seq<P.Arg>, i: nat): (n: nat)
    ensures n >= 1
  {
    if ArgAt(args, i) == P.MISSING || ArgAt(args, i) == 0 then 1 else ArgAt(args, i)
  }

  function OrAt(args: seq<P.Arg>, i: nat, default: nat): nat {
    if ArgAt(args, i) == P.MISSING then default else ArgAt(args, i)
  }

  // ----- where a move asks the cursor to go -----

  /** The commands that only move the cursor. */
  predicate IsMove(command: Byte) {
    0x41 <= command <= 0x48 || command in {0x60, 0x61, 0x64, 0x65, 0x66, 0x6a, 0x6b}
  }

  /** The position a move asks for, before it is brought into the screen; `home` is where addressed
      positions count from. */
  function Target(pos: Pos, command: Byte, args: seq<P.Arg>, home: Pos): Pos
    requires IsMove(command)
  {
    var n := CountAt(args, 0);
    match command
    case 0x41 => pos.(row := pos.row - n)
    case 0x42 => pos.(row := pos.row + n)
    case 0x43 => pos.(col := pos.col + n)
    case 0x44 => pos.(col := pos.col - n)
    case 0x45 => Pos(pos.row + n, 0)
    case 0x46 => Pos(pos.row - n, 0)
    case 0x47 => pos.(col := OrAt(args, 0, 1) - 1)
    case 0x60 => pos.(col := OrAt(args, 0, 1) - 1)
    case 0x61 => pos.(col := pos.col + n)
    case 0x64 => pos.(row := OrAt(args, 0, 1) - 1 + home.row)
    case 0x65 => pos.(row := pos.row + n)
    case 0x6a => pos.(col := pos.col - n)
    case 0x6b => pos.(row := pos.row - n)
    case _ => Pos(OrAt(args, 0, 1) - 1 + home.row, OrAt(args, 1, 1) - 1 + home.col)
  }

  /** What the moves mean: which way, how far, and what they leave. */
  lemma MovesMean(p: Pos, command: Byte, args: seq<P.Arg>, home: Pos)
    requires IsMove(command)
    ensures
      var t, n, first, second := Target(p, command, args, home), CountAt(args, 0), OrAt(args, 0, 1), OrAt(args, 1, 1);
      && (command in {0x41, 0x46, 0x6b} ==> t.row == p.row - n)          // up: CUU, CPL, VPB
      && (command in {0x42, 0x45, 0x65} ==> t.row == p.row + n)          // down: CUD, CNL, VPR
      && (command in {0x43, 0x61} ==> t.col == p.col + n)                // right: CUF, HPR
      && (command in {0x44, 0x6a} ==> t.col == p.col - n)                // left: CUB, HPB
      && (command in {0x45, 0x46} ==> t.col == 0)
      && (command in {0x47, 0x60} ==> t.col == first - 1)                // to a column: CHA, HPA
      && (command == 0x64 ==> t.row == home.row + first - 1)             // to a row: VPA
      && (command in {0x48, 0x66} ==> t == Pos(home.row + first - 1, home.col + second - 1))
      && (command in {0x43, 0x44, 0x47, 0x60, 0x61, 0x6a} ==> t.row == p.row)
      && (command in {0x41, 0x42, 0x64, 0x65, 0x6b} ==> t.col == p.col)
  {
  }

  /** The nearest value in [low, high). */
  function Nearest(v: int, low: int, high: int): (r: int)
    ensures low < high ==>
              low <= r < high && (low <= v < high ==> r == v) && (v < low ==> r == low) && (v >= high ==> r == high - 1)
  {
    var w := if v < low then low else v;
    if w > high - 1 then high - 1 else w
  }

  // ----- tab stops -----

  /** The number of tab stops in (a, b]. */
  function StopsIn(stops: seq<bool>, a: nat, b: nat): nat
    requires b < |stops|
    decreases b
  {
    if b <= a then 0 else StopsIn(stops, a, b - 1) + (if stops[b] then 1 else 0)
  }

  /** The number of tab stops in [b, a). */
  function StopsBack(stops: seq<bool>, a: nat, b: nat): nat
    requires a <= |stops|
    decreases a - b
  {
    if b >= a then 0 else StopsBack(stops, a, b + 1) + (if stops[b] then 1 else 0)
  }

  /** The column reached is that of the count-th tab stop after `from`, or, if there are not so many, `last`. */
  predicate TabbedTo(stops: seq<bool>, from: nat, to: nat, count: nat, last: int)
    requires from <= to < |stops|
  {
    && StopsIn(stops, from, to) <= count && (to == from || to <= last)
    && if StopsIn(stops, from, to) == count then if count == 0 then to == from else stops[to] else to >= last
  }

  /** The same to the left; there, the first column. */
  predicate TabbedBackTo(stops: seq<bool>, from: nat, to: nat, count: nat)
    requires to <= from < |stops|
  {
    && StopsBack(stops, from, to) <= count
    && if StopsBack(stops, from, to) == count then if count == 0 then to == from else stops[to] else to == 0
  }

  lemma {:induction false} StopsGrow(stops: seq<bool>, from: nat, a: nat, b: nat)
    requires from <= a < b < |stops|
    ensures StopsIn(stops, from, b) >= StopsIn(stops, from, a) + (if stops[b] then 1 else 0)
  {
    if a < b - 1 { StopsGrow(stops, from, a, b - 1); }
  }

  /** There is only one such column. */
  lemma TabbedOnce(stops: seq<bool>, from: nat, to: nat, to': nat, count: nat, last: int)
    requires from <= to <= to' < |stops|
    requires TabbedTo(stops, from, to, count, last) && TabbedTo(stops, from, to', count, last)
    ensures to == to'
  {
    if to < to' { StopsGrow(stops, from, to, to'); }
  }

  // ----- glyphs on lines of single width -----

  /** Where the cursor is, and whether a wrap is pending. */
  datatype Spot = Spot(pos: Pos, pending: bool)

  /** Down one row, except at the bottom of the region or of the screen. */
  function Down(row: int, bottom: int, rows: int): int {
    if row == bottom - 1 || row == rows - 1 then row else row + 1
  }

  /** After a glyph put at `s`, on a row of `room` columns. */
  function Advanced(s: Spot, width: int, room: int, autowrap: bool): Spot {
    if s.pos.col + width >= room then s.(pending := s.pending || autowrap)
    else s.(pos := s.pos.(col := s.pos.col + width))
  }

  function SpotAfter(s: Spot, width: int, rows: int, cols: int, bottom: int, autowrap: bool): Spot {
    var p := if s.pending || s.pos.col + width > cols then Pos(Down(s.pos.row, bottom, rows), 0) else s.pos;
    Advanced(Spot(p, false), width, cols, autowrap)
  }

  function SpotAfterAll(s: Spot, widths: seq<int>, rows: int, cols: int, bottom: int, autowrap: bool): Spot {
    if widths == [] then s
    else
      var n := |widths| - 1;
      SpotAfter(SpotAfterAll(s, widths[..n], rows, cols, bottom, autowrap), widths[n], rows, cols, bottom, autowrap)
  }

  /** Narrow glyphs from the first column of a row fill the rows one after the other: q rows and m cells later the
      cursor is after the last cell, or, if that is the last of its row, on it with a wrap pending. */
  lemma {:induction false} TextFillsRows(row: int, widths: seq<int>, q: nat, m: nat, rows: int, cols: nat, bottom: int)
    requires |widths| == q * cols + m && m < cols && cols >= 2
    requires forall k :: 0 <= k < |widths| ==> widths[k] == 1
    requires 0 <= row && row + q < bottom <= rows
    ensures SpotAfterAll(Spot(Pos(row, 0), false), widths, rows, cols, bottom, true) ==
            if m == 0 && q > 0 then Spot(Pos(row + q - 1, cols - 1), true) else Spot(Pos(row + q, m), false)
  {
    if m > 0 {
      TextFillsRows(row, widths[..|widths| - 1], q, m - 1, rows, cols, bottom);
    } else if q > 0 {
      assert q * cols == (q - 1) * cols + cols;
      TextFillsRows(row, widths[..|widths| - 1], q - 1, cols - 1, rows, cols, bottom);
    }
  }

  // ----- repeated glyphs -----

  /** Where a glyph of some width is put, from `col` on, until the column `target` is reached. */
  function RepeatColumns(col: int, target: int, width: int): seq<int>
    decreases target - col
  {
    if col >= target || width <= 0 then [] else [col] + RepeatColumns(col + width, target, width)
  }

  /** `n` rounded up to a multiple of the width. */
  function RoundUp(n: int, width: int): (r: nat)
    requires width > 0
    ensures n <= 0 ==> r == 0
    ensures n > 0 ==> n <= r < n + width
    decreases n
  {
    if n <= 0 then 0 else width + RoundUp(n - width, width)
  }

  lemma FitsInFront(col: int, rest: seq<int>, width: int, limit: int)
    ensures (forall c :: c in [col] + rest ==> c + width <= limit)
            <==> col + width <= limit && forall c :: c in rest ==> c + width <= limit
  {
    assert col in [col] + rest && forall c :: c in [col] + rest <==> c == col || c in rest;
  }

  lemma OneTurn(col: int, target: int, width: int)
    requires width > 0 && col < target
    ensures RepeatColumns(col, target, width) == [col] + RepeatColumns(col + width, target, width)
    ensures RoundUp(target - col, width) == width + RoundUp(target - (col + width), width)
    ensures col + width >= target ==>
              RepeatColumns(col + width, target, width) == [] && RoundUp(target - (col + width), width) == 0
  {
  }

  /** All of them end before column `limit` exactly when the columns to be filled do, rounded up to whole glyphs. */
  lemma {:induction false} RepeatFitsExactlyWhen(col: int, target: int, width: int, limit: int)
    requires width > 0 && col < target
    ensures (forall c :: c in RepeatColumns(col, target, width) ==> c + width <= limit)
            <==> col + RoundUp(target - col, width) <= limit
    decreases target - col
  {
    hide *;
    OneTurn(col, target, width);
    FitsInFront(col, RepeatColumns(col + width, target, width), width, limit);
    if col + width < target {
      RepeatFitsExactlyWhen(col + width, target, width, limit);
    }
  }

  /** The column after some turns of the loop. */
  function AfterTurns(col: int, width: int, turns: nat): int { col + turns * width }

  lemma TurnsReach(col: int, width: int, target: int)
    ensures (exists turns :: AfterTurns(col, width, turns) >= target) <==> width > 0 || col >= target
  {
    if col >= target {
      assert AfterTurns(col, width, 0) >= target;
    } else if width > 0 {
      var turns: nat := target - col;
      assert turns * width >= turns;
      assert AfterTurns(col, width, turns) >= target;
    } else {
      forall turns: nat ensures AfterTurns(col, width, turns) < target { assert turns * width <= 0; }
    }
  }

  // ----- margins -----

  /** DECSTBM: the top and bottom margin after the command; -1 for a bottom at the last row. */
  function StbmMargins(args: seq<P.Arg>, rows: nat): (int, int) {
    var top0 := OrAt(args, 0, 1) - 1;
    var bottom0: int := if ArgAt(args, 1) == P.MISSING then -1 else ArgAt(args, 1);
    var top := if top0 < 0 then 0 else if top0 > rows then rows else top0;
    var bottom := if top == 0 && bottom0 == rows then -1 else if bottom0 > rows then rows else bottom0;
    if (if bottom > -1 then bottom else rows) <= top then (0, -1) else (top, bottom)
  }

  /** DECSLRM: the same for columns, except that a right margin left open is not compared with the left. */
  function SlrmMargins(args: seq<P.Arg>, cols: nat): (int, int) {
    var left0 := OrAt(args, 0, 1) - 1;
    var right0: int := if ArgAt(args, 1) == P.MISSING then -1 else ArgAt(args, 1);
    var left := if left0 < 0 then 0 else if left0 > cols then cols else left0;
    var right := if left == 0 && right0 == cols then -1 else if right0 > cols then cols else right0;
    if right > -1 && right <= left then (0, -1) else (left, right)
  }

  /** Margins that leave at least one line or column between them. */
  predicate MarginsOk(low: int, high: int, size: nat) { 0 <= low < (if high > -1 then high else size) <= size }

  /** DECSTBM: the lines n to m if that is a region, and else all of them. */
  lemma StbmOk(args: seq<P.Arg>, rows: nat)
    requires rows > 0
    ensures var (top, bottom) := StbmMargins(args, rows);
      && MarginsOk(top, bottom, rows)
      && var n, m := OrAt(args, 0, 1), OrAt(args, 1, rows);
         var low, high := if n > 0 then n - 1 else 0, if m < rows then m else rows;
         (top, if bottom > -1 then bottom else rows) == if low < high then (low, high) else (0, rows)
  {
  }

  /** DECSLRM: the columns n to m if there are such, all of them if not, and all from n on if no m is given; that
      leaves a column exactly when it does not put such an open-ended left margin past the last one. */
  lemma SlrmOk(args: seq<P.Arg>, cols: nat)
    requires cols > 0
    ensures
      var (left, right) := SlrmMargins(args, cols);
      && (MarginsOk(left, right, cols) <==>
            !(ArgAt(args, 1) == P.MISSING && ArgAt(args, 0) != P.MISSING && ArgAt(args, 0) > cols))
      && (!MarginsOk(left, right, cols) ==> left == cols && right == -1)
      && var n, m := OrAt(args, 0, 1), ArgAt(args, 1);
         var low := if n > 0 then n - 1 else 0;
         (left, if right > -1 then right else cols) ==
           if m == P.MISSING then (if low < cols then low else cols, cols)
           else if low < m && low < cols then (low, if m < cols then m else cols)
           else (0, cols)
  {
  }

  /** The margins and modes that decide where the cursor may be and how text moves it. */
  datatype Modes = Modes(
    top: int, bottom: int,       // bottom -1: the last row
    left: int, right: int,       // right -1: the last column
    sides: bool,                 // the side margins are in force
    origin: bool, autowrap: bool, insert: bool, newline: bool)

  const INITIAL: Modes := Modes(0, -1, 0, -1, false, false, true, false, false)

  predicate Lists(args: seq<P.Arg>, num: nat) { exists i :: 0 <= i < |args| && args[i].value == num }

  /** After one DEC mode has been set or reset. */
  function DecMode(m: Modes, num: nat, val: bool): Modes {
    if num == 6 then m.(origin := val)
    else if num == 7 then m.(autowrap := val)
    else if num == 69 then m.(sides := val)
    else m
  }

  lemma ListsStep(args: seq<P.Arg>, i: nat, num: nat)
    requires i < |args|
    ensures Lists(args[..i + 1], num) <==> Lists(args[..i], num) || args[i].value == num
  {
    var more := args[..i + 1];
    assert more[i] == args[i];
    if Lists(args[..i], num) {
      var k :| 0 <= k < i && args[..i][k].value == num;
      assert more[k].value == num;
    }
    if Lists(more, num) && args[i].value != num {
      var k :| 0 <= k < i + 1 && more[k].value == num;
      assert args[..i][k].value == num;
    }
  }

  lemma DecModesStep(m: Modes, args: seq<P.Arg>, i: nat, val: bool)
    requires i < |args|
    ensures DecModes(m, args[..i + 1], val) == DecMode(DecModes(m, args[..i], val), args[i].value, val)
  {
    hide Lists;
    ListsStep(args, i, 6);
    ListsStep(args, i, 7);
    ListsStep(args, i, 69);
  }

  /** After a list of DEC modes has been set or reset. */
  function DecModes(m: Modes, args: seq<P.Arg>, val: bool): Modes {
    m.(sides := if Lists(args, 69) then val else m.sides,
       origin := if Lists(args, 6) then val else m.origin,
       autowrap := if Lists(args, 7) then val else m.autowrap)
  }

  lemma NoneListed(p: Places, m: Modes, val: bool)
    ensures DecModes(m, [], val) == m && DecPlaces(p, m, [], val) == p
  {
  }

  lemma NoMode(m: Modes, p: Places, val: bool)
    ensures DecMode(m, P.MISSING, val) == m && PlacesAfter(p, m, P.MISSING, val) == p
  {
  }

  function AnsiModes(m: Modes, num: nat, val: bool): Modes {
    if num == 4 then m.(insert := val) else if num == 20 then m.(newline := val) else m
  }

  /** Cursor and saved cursor. */
  datatype Places = Places(pos: Pos, saved: Pos)

  function PlacesAfter(p: Places, m: Modes, num: nat, val: bool): Places {
    if num == 6 then p.(pos := if val then Pos(m.top, if m.sides then m.left else 0) else Pos(0, 0))
    else if num == 1048 || num == 1049 then if val then p.(saved := p.pos) else p.(pos := p.saved)
    else p
  }

  /** After a list of DEC modes. */
  function DecPlaces(p: Places, m: Modes, args: seq<P.Arg>, val: bool): Places {
    if args == [] then p
    else
      var n := |args| - 1;
      PlacesAfter(DecPlaces(p, m, args[..n], val), DecModes(m, args[..n], val), args[n].value, val)
  }

  lemma DecPlacesStep(p: Places, m: Modes, args: seq<P.Arg>, i: nat, val: bool)
    requires i < |args|
    ensures DecPlaces(p, m, args[..i + 1], val) ==
            PlacesAfter(DecPlaces(p, m, args[..i], val), DecModes(m, args[..i], val), args[i].value, val)
  {
    assert args[..i + 1][..i] == args[..i] && args[..i + 1][i] == args[i];
  }

  lemma DecModesMean(m: Modes, args: seq<P.Arg>, val: bool)
    ensures DecModes(m, args, val).origin == if Lists(args, 6) then val else m.origin
    ensures DecModes(m, args, val).autowrap == if Lists(args, 7) then val else m.autowrap
    ensures DecModes(m, args, val).sides == if Lists(args, 69) then val else m.sides
  {
  }

  /** A list of one mode. */
  lemma OneDecMode(p: Places, m: Modes, a: P.Arg, val: bool)
    ensures a.value == 6 && val ==>
              DecPlaces(p, m, [a], val) == Places(Pos(m.top, if m.sides then m.left else 0), p.saved)
    ensures a.value == 6 && !val ==> DecPlaces(p, m, [a], val) == Places(Pos(0, 0), p.saved)
    ensures a.value == 1048 || a.value == 1049 ==>
              DecPlaces(p, m, [a], val) == if val then Places(p.pos, p.pos) else Places(p.saved, p.saved)
    ensures a.value != 6 && a.value != 1048 && a.value != 1049 ==> DecPlaces(p, m, [a], val) == p
  {
    var none: seq<P.Arg> := [];
    assert [a][..0] == none;
    NoneListed(p, m, val);
  }

  predicate OnScreen(p: Pos, rows: nat, cols: nat) { 0 <= p.row < rows && 0 <= p.col < cols }

  /** Setting the modes leaves the cursor past the last column: origin mode puts it on the left margin,
      and it is brought into the screen only after the last mode. */
  predicate MovesOut(m: Modes, args: seq<P.Arg>, cols: nat) {
    if args == [] then false
    else if args[|args| - 1].value == 6 then DecModes(m, args[..|args| - 1], true).sides && m.left == cols
    else MovesOut(m, args[..|args| - 1], cols)
  }

  /** Setting the modes saves a position past the last column. */
  predicate SavesOutside(m: Modes, args: seq<P.Arg>, cols: nat) {
    if args == [] then false
    else if args[|args| - 1].value in {1048, 1049} then MovesOut(m, args[..|args| - 1], cols)
    else SavesOutside(m, args[..|args| - 1], cols)
  }

  lemma {:induction false} OutExactlyWhen(p: Places, m: Modes, args: seq<P.Arg>, val: bool, rows: nat, cols: nat)
    requires OnScreen(p.pos, rows, cols) && OnScreen(p.saved, rows, cols)
    requires 0 <= m.top < rows && 0 <= m.left <= cols && rows > 0 && cols > 0
    ensures OnScreen(DecPlaces(p, m, args, val).pos, rows, cols) <==> !(val && MovesOut(m, args, cols))
    ensures OnScreen(DecPlaces(p, m, args, val).saved, rows, cols) <==> !(val && SavesOutside(m, args, cols))
  {
    hide Lists;
    if args != [] { OutExactlyWhen(p, m, args[..|args| - 1], val, rows, cols); }
  }

  /** It does happen: DECVSSM, DECOM and a save in one command, after a left margin past the last column. */
  lemma SavedPastMargin(m: Modes, cols: nat)
    requires m.left == cols
    ensures SavesOutside(m, [P.Arg(69, false), P.Arg(6, false), P.Arg(1048, false)], cols)
    ensures SlrmMargins([P.Arg(cols + 1, false)], cols) == (cols, -1) <== cols + 1 != P.MISSING
  {
    var a, b := P.Arg(69, false), P.Arg(6, false);
    assert [a, b, P.Arg(1048, false)][..2] == [a, b] && [a, b][..1] == [a];
    assert [a][0].value == 69;
  }

  // ----- the state -----

  datatype Op =
    | TextOp(widths: seq<int>)        // the widths of the glyphs of one run of text
    | ControlOp(c: Byte)
    | EscapeOp(bytes: seq<Byte>)
    | CsiOp(leader: seq<Byte>, args: seq<P.Arg>, intermed: seq<Byte>, command: Byte)

  class CursorState {
    const rows: nat
    const cols: nat
    var pos: Pos
    var atPhantom: bool
    var top: int
    var bottom: int              // -1: the last row
    var left: int
    var right: int               // -1: the last column
    var autowrap: bool
    var insert: bool
    var newline: bool
    var origin: bool
    var leftrightmargin: bool
    var altScreen: bool
    var altLines: bool                // the line info shown is that of the second screen
    var tabstops: seq<bool>
    var doublewidth: seq<bool>        // of the rows of the screen shown
    var otherDoublewidth: seq<bool>   // of the other screen
    var saved: Pos
    var combineWidth: int

    function Bottom(): int
      reads this`bottom
    {
      if bottom > -1 then bottom else rows
    }

    function Left(): int
      reads this`left, this`leftrightmargin
    {
      if leftrightmargin then left else 0
    }

    function Right(): int
      reads this`right, this`leftrightmargin
    {
      if leftrightmargin && right > -1 then right else cols
    }

    function RowWidth(row: int): int
      requires 0 <= row < |doublewidth|
      reads this`doublewidth
    {
      if doublewidth[row] then cols / 2 else cols
    }

    predicate InGrid(p: Pos) { OnScreen(p, rows, cols) }

    /** Margins in order. The left margin may lie past the last column if the right one is open. */
    ghost predicate Shaped()
      reads this`top, this`bottom, this`left, this`right, this`tabstops, this`doublewidth, this`otherDoublewidth
    {
      && rows >= 1 && cols >= 2
      && MarginsOk(top, bottom, rows) && (MarginsOk(left, right, cols) || (left == cols && right == -1))
      && |tabstops| == cols && |doublewidth| == |otherDoublewidth| == rows
    }

    /** Cursor and saved cursor on the screen, margins in order. */
    ghost predicate Valid()
      reads this
    {
      Shaped() && InGrid(pos) && InGrid(saved)
    }

    function Now(): Modes
      reads this
    {
      Modes(top, bottom, left, right, leftrightmargin, origin, autowrap, insert, newline)
    }

    /** No line is of double width. */
    predicate Plain()
      requires |doublewidth| == rows
      reads this
    {
      forall r :: 0 <= r < rows ==> !doublewidth[r]
    }

    constructor (rows: nat, cols: nat)
      requires rows >= 1 && cols >= 2
      ensures Valid() && this.rows == rows && this.cols == cols && pos == saved == Pos(0, 0) && combineWidth == 0
      ensures Now() == INITIAL && !atPhantom && Plain()
      ensures forall c :: 0 <= c < cols ==> (tabstops[c] <==> c % 8 == 0)
    {
      this.rows, this.cols := rows, cols;
      pos, saved, atPhantom := Pos(0, 0), Pos(0, 0), false;
      top, bottom, left, right := 0, -1, 0, -1;
      autowrap, insert, newline, origin, leftrightmargin, altScreen, altLines := true, false, false, false, false,
          false, false;
      tabstops := seq(cols, c => c % 8 == 0);
      doublewidth, otherDoublewidth := seq(rows, r => false), seq(rows, r => false);
      combineWidth := 0;
    }

    /** Scrolling moves line info along; new lines are of single width, and otherwise any outcome is allowed for. */
    method Scroll()
      requires Valid()
      modifies this`doublewidth
      ensures Valid() && (old(Plain()) ==> Plain())
    {
      ghost var none := seq(rows, r => false);
      assert |none| == rows && forall r :: 0 <= r < rows ==> !none[r];
      var moved: seq<bool> :| |moved| == rows && (Plain() ==> forall r :: 0 <= r < rows ==> !moved[r]);
      doublewidth := moved;
    }

    /** Down one row; at the bottom of the region the region scrolls instead. */
    method Linefeed()
      requires Valid()
      modifies this`pos, this`doublewidth
      ensures Valid() && pos == Pos(Down(old(pos).row, Bottom(), rows), old(pos).col) && (old(Plain()) ==> Plain())
    {
      if pos.row == Bottom() - 1 {
        Scroll();
      } else if pos.row < rows - 1 {
        pos := pos.(row := pos.row + 1);
      }
    }

    /** To the count-th tab stop to the right, or the last column of the row. */
    method TabForward(count: nat)
      requires Valid()
      modifies this`pos
      ensures Valid() && old(pos).col <= pos.col && pos.row == old(pos).row
      ensures TabbedTo(tabstops, old(pos).col, pos.col, count, RowWidth(pos.row) - 1)
    {
      var left := count;
      while left > 0
        invariant Valid() && old(pos).col <= pos.col && pos.row == old(pos).row
        invariant StopsIn(tabstops, old(pos).col, pos.col) + left == count
        invariant left == 0 && count > 0 ==> tabstops[pos.col]
        invariant pos == old(pos) || (count > 0 && pos.col <= RowWidth(pos.row) - 1)
        decreases cols - pos.col
      {
        if pos.col >= RowWidth(pos.row) - 1 {
          return;
        }
        pos := pos.(col := pos.col + 1);
        if tabstops[pos.col] {
          left := left - 1;
        }
      }
    }

    /** To the count-th tab stop to the left, or the first column. */
    method TabBack(count: nat)
      requires Valid()
      modifies this`pos
      ensures Valid() && pos.col <= old(pos).col && pos.row == old(pos).row
      ensures TabbedBackTo(tabstops, old(pos).col, pos.col, count)
    {
      var left := count;
      while left > 0
        invariant Valid() && pos.col <= old(pos).col && pos.row == old(pos).row
        invariant StopsBack(tabstops, old(pos).col, pos.col) + left == count && (count == 0 ==> pos == old(pos))
        invariant left == 0 && count > 0 ==> tabstops[pos.col]
        decreases pos.col
      {
        if pos.col < 1 {
          return;
        }
        pos := pos.(col := pos.col - 1);
        if tabstops[pos.col] {
          left := left - 1;
        }
      }
    }

    method Wrap()
      requires Valid()
      modifies this`pos, this`atPhantom, this`doublewidth
      ensures Valid() && !atPhantom && pos == Pos(Down(old(pos).row, Bottom(), rows), 0) && (old(Plain()) ==> Plain())
    {
      Linefeed();
      pos := pos.(col := 0);
      atPhantom := false;
    }

    /** A glyph of this width leaves the cursor on the screen. One of negative width, which a C1 code point in
        UTF-8 is given, does so if it does not wrap and there is room to its left. */
    predicate StaysIn(width: int)
      requires Valid()
      reads this
    {
      width >= 0 || (!atPhantom && -width <= pos.col <= RowWidth(pos.row) - width)
    }

    function Here(): Spot
      reads this
    {
      Spot(pos, atPhantom)
    }

    /** Wraps if a wrap is pending or the glyph does not fit the row, and moves the rest of the row in insert mode. */
    method MakeRoom(width: int)
      requires Valid()
      modifies this`pos, this`atPhantom, this`doublewidth
      ensures Valid() && !atPhantom && (old(Plain()) ==> Plain())
      ensures
        var wraps := old(atPhantom || pos.col + width > RowWidth(pos.row));
        && pos == (if wraps then Pos(Down(old(pos).row, Bottom(), rows), 0) else old(pos))
        && (!wraps && !insert ==> doublewidth == old(doublewidth))
    {
      hide MarginsOk, Down;
      if atPhantom || pos.col + width > RowWidth(pos.row) {
        Wrap();
      }
      if insert {
        Scroll();
      }
    }

    /** Puts one glyph, at `at`: wraps first if it does not fit, then advances unless the row is full. */
    method PutGlyph(width: int, last: bool) returns (at: Pos)
      requires Valid()
      modifies this`pos, this`atPhantom, this`doublewidth, this`combineWidth
      ensures Shaped() && 0 <= pos.row < rows && combineWidth == if last then width else old(combineWidth)
      ensures InGrid(pos) <==> old(StaysIn(width))
      ensures InGrid(at) && (width <= cols ==> at.col + width <= cols)
      ensures width >= 0 ==>
        var row, col, room := old(pos).row, old(pos).col, old(RowWidth(pos.row));
        if old(atPhantom) || col + width > room then
          && pos.row == Down(row, Bottom(), rows)
          && pos.col == (if width >= RowWidth(pos.row) then 0 else width)
          && atPhantom == (width >= RowWidth(pos.row) && autowrap)
        else !insert ==>
          && pos == Pos(row, if col + width >= room then col else col + width)
              && atPhantom == (col + width >= room && autowrap)
          && doublewidth == old(doublewidth)
      ensures old(Plain()) ==> Plain() && Here() == SpotAfter(old(Here()), width, rows, cols, Bottom(), autowrap)
    {
      hide MarginsOk, Down;
      MakeRoom(width);
      at := pos;
      if last {
        combineWidth := width;
      }
      Advance(width);
    }

    /** Advances the cursor past the glyph, or has the next one wrap. */
    method Advance(width: int)
      requires Valid()
      modifies this`pos, this`atPhantom
      ensures Here() == Advanced(old(Here()), width, RowWidth(old(pos).row), autowrap)
    {
      if pos.col + width >= RowWidth(pos.row) {
        if autowrap {
          atPhantom := true;
        }
      } else {
        pos := pos.(col := pos.col + width);
      }
    }

    /** Puts the glyphs of one run of text, up to the first that leaves the screen: what the code does from there
        on, with a cursor outside the grid, is no longer modelled. */
    method OnText(widths: seq<int>) returns (n: nat)
      requires Valid()
      modifies this`pos, this`atPhantom, this`doublewidth, this`combineWidth
      ensures Shaped() && n <= |widths| && (InGrid(pos) <==> n == |widths|)
      ensures n < |widths| ==> widths[n] < 0
      ensures n == |widths| ==> combineWidth == if widths == [] then old(combineWidth) else widths[|widths| - 1]
      ensures n == |widths| && old(Plain()) ==>
                Plain() && Here() == SpotAfterAll(old(Here()), widths, rows, cols, Bottom(), autowrap)
    {
      n := 0;
      while n < |widths|
        invariant Valid() && n <= |widths|
                  && combineWidth == if 0 < n == |widths| then widths[n - 1] else old(combineWidth)
        invariant old(Plain()) ==>
                    Plain() && Here() == SpotAfterAll(old(Here()), widths[..n], rows, cols, Bottom(), autowrap)
      {
        assert widths[..n + 1][..n] == widths[..n];
        var _ := PutGlyph(widths[n], n == |widths| - 1);
        if !InGrid(pos) {
          return;
        }
        n := n + 1;
      }
      assert widths[..|widths|] == widths;
    }

    /** A position change cancels the pending wrap. */
    method UpdateCursor(before: Pos, cancelPhantom: bool)
      modifies this`atPhantom
      ensures atPhantom == (old(atPhantom) && (pos == before || !cancelPhantom))
    {
      if pos != before && cancelPhantom {
        atPhantom := false;
      }
    }

    method OnControl(c: Byte)
      requires Valid()
      modifies this`pos, this`atPhantom, this`doublewidth, this`tabstops
      ensures Valid()
      ensures tabstops == if c == 0x88 then old(tabstops)[old(pos).col := true] else old(tabstops)
      ensures c == 0x08 ==> pos == Pos(old(pos).row, if old(pos).col > 0 then old(pos).col - 1 else 0)
      ensures c == 0x09 ==>
                && pos.row == old(pos).row && pos.col >= old(pos).col
                && TabbedTo(tabstops, old(pos).col, pos.col, 1, RowWidth(pos.row) - 1)
      ensures c == 0x0d ==> pos == Pos(old(pos).row, 0)
      ensures c in {0x0a, 0x0b, 0x0c, 0x84, 0x85} ==>
                pos == Pos(Down(old(pos).row, Bottom(), rows),
                    if c == 0x85 || (c != 0x84 && newline) then 0 else old(pos).col)
      ensures c == 0x8d ==>
                pos == Pos(if old(pos).row == top || old(pos).row == 0 then old(pos).row else old(pos).row - 1,
                    old(pos).col)
      ensures c !in {0x08, 0x09, 0x0a, 0x0b, 0x0c, 0x0d, 0x84, 0x85, 0x8d} ==> pos == old(pos)
      ensures atPhantom == (old(atPhantom) && pos == old(pos)) && (old(Plain()) ==> Plain())
    {
      var before := pos;
      match c {
        case 0x08 =>
          if pos.col > 0 {
            pos := pos.(col := pos.col - 1);
          }
        case 0x09 => TabForward(1);
        case 0x0d => pos := pos.(col := 0);
        case 0x84 => Linefeed();
        case 0x85 =>
          Linefeed();
          pos := pos.(col := 0);
        case 0x88 => tabstops := tabstops[pos.col := true];
        case 0x8d =>
          if pos.row == top {
            Scroll();
          } else if pos.row > 0 {
            pos := pos.(row := pos.row - 1);
          }
        case _ =>
          if c == 0x0a || c == 0x0b || c == 0x0c {
            Linefeed();
            if newline {
              pos := pos.(col := 0);
            }
          }
      }
      UpdateCursor(before, true);
    }

    /** DECSC and DECRC. Restoring does not bring the position into the screen. */
    method SaveCursor(save: bool)
      modifies this`pos, this`saved, this`atPhantom
      ensures save ==> saved == old(pos) == pos && atPhantom == old(atPhantom)
      ensures !save ==> pos == old(saved) == saved && atPhantom == (old(atPhantom) && pos == old(pos))
    {
      if save {
        saved := pos;
      } else {
        var before := pos;
        pos := saved;
        UpdateCursor(before, true);
      }
    }

    method SetLineWidth(double: bool)
      requires Valid()
      modifies this`doublewidth
      ensures Valid()
      ensures doublewidth == if leftrightmargin then old(doublewidth) else old(doublewidth)[pos.row := double]
    {
      if !leftrightmargin {
        doublewidth := doublewidth[pos.row := double];
      }
    }

    method ResetModes()
      modifies this`top, this`bottom, this`left, this`right, this`autowrap, this`insert, this`newline, this`altScreen,
               this`origin, this`leftrightmargin
      ensures Now() == INITIAL && !altScreen
    {
      top, bottom, left, right := 0, -1, 0, -1;
      autowrap, insert, newline, altScreen, origin, leftrightmargin := true, false, false, false, false, false;
    }

    /** A tab stop every eight columns. */
    method ResetTabstops()
      requires |tabstops| == cols
      modifies this`tabstops
      ensures |tabstops| == cols && forall c :: 0 <= c < cols ==> (tabstops[c] <==> c % 8 == 0)
    {
      for c := 0 to cols
        invariant |tabstops| == cols && forall k :: 0 <= k < c ==> (tabstops[k] <==> k % 8 == 0)
      {
        tabstops := tabstops[c := c % 8 == 0];
      }
    }

    method ResetLines()
      requires |doublewidth| == rows
      modifies this`doublewidth
      ensures |doublewidth| == rows && forall r :: 0 <= r < rows ==> !doublewidth[r]
    {
      for r := 0 to rows
        invariant |doublewidth| == rows && forall k :: 0 <= k < r ==> !doublewidth[k]
      {
        doublewidth := doublewidth[r := false];
      }
    }

    /** RIS, and DECSTR when not `hard`. */
    method Reset(hard: bool)
      requires Valid()
      modifies this
      ensures Valid() && saved == old(saved) && combineWidth == old(combineWidth)
      ensures pos == (if hard then Pos(0, 0) else old(pos)) && atPhantom == (!hard && old(atPhantom))
      ensures Now() == INITIAL && Plain() && forall c :: 0 <= c < cols ==> (tabstops[c] <==> c % 8 == 0)
    {
      ResetModes();
      ResetTabstops();
      ResetLines();
      if hard {
        pos := Pos(0, 0);
        atPhantom := false;
      }
    }

    method OnEscape(bytes: seq<Byte>)
      requires Valid()
      modifies this
      ensures Valid() && combineWidth == old(combineWidth)
      ensures Now() == if Starts(bytes, 0x63) then INITIAL else old(Now())
      ensures pos == if Starts(bytes, 0x63) then Pos(0, 0) else if Starts(bytes, 0x38) then old(saved) else old(pos)
      ensures saved == if Starts(bytes, 0x37) then old(pos) else old(saved)
      ensures atPhantom == (old(atPhantom) && !Starts(bytes, 0x63) && (Starts(bytes, 0x38) ==> pos == old(pos)))
      ensures if Starts(bytes, 0x63) then forall c :: 0 <= c < cols ==> (tabstops[c] <==> c % 8 == 0)
              else tabstops == old(tabstops)
      ensures bytes == [0x23, 0x35] && !leftrightmargin ==> doublewidth == old(doublewidth)[pos.row := false]
      ensures bytes in {[0x23, 0x33], [0x23, 0x34], [0x23, 0x36]} && !leftrightmargin ==>
                doublewidth == old(doublewidth)[pos.row := true]
    {
      if bytes == [] {
        return;
      }
      match bytes[0]
      case 0x23 =>
        if |bytes| == 2 {
          if 0x33 <= bytes[1] <= 0x36 {
            SetLineWidth(bytes[1] != 0x35);
          }
        }
      case 0x37 => SaveCursor(true);
      case 0x38 => SaveCursor(false);
      case 0x63 => Reset(true);
      case _ =>
    }

    method SetMode(num: nat, val: bool)
      requires Valid()
      modifies this`insert, this`newline
      ensures Valid() && Now() == AnsiModes(old(Now()), num, val)
    {
      if num == 4 {
        insert := val;
      } else if num == 20 {
        newline := val;
      }
    }

    /** Shows the other screen, if whoever draws it agrees. */
    method ShowAltScreen(val: bool)
      requires Shaped()
      modifies this`altScreen, this`altLines, this`doublewidth, this`otherDoublewidth
      ensures Shaped()
    {
      if * {
        if altLines != val {
          doublewidth, otherDoublewidth := otherDoublewidth, doublewidth;
        }
        altScreen, altLines := val, val;
      }
    }

    method SetDecMode(num: nat, val: bool)
      requires Shaped()
      modifies this
      ensures Shaped() && combineWidth == old(combineWidth) && tabstops == old(tabstops)
      ensures Now() == DecMode(old(Now()), num, val) && (num == 69 && val ==> Plain())
      ensures Places(pos, saved) == PlacesAfter(old(Places(pos, saved)), old(Now()), num, val)
    {
      hide MarginsOk;
      match num
      case 6 =>
        var before := pos;
        origin := val;
        pos := Pos(if origin then top else 0, if origin then Left() else 0);
        UpdateCursor(before, true);
      case 7 => autowrap := val;
      case 69 =>
        leftrightmargin := val;
        if val {
          ResetLines();
        }
      case 1047 => ShowAltScreen(val);
      case 1048 => SaveCursor(val);
      case 1049 =>
        ShowAltScreen(val);
        SaveCursor(val);
      case _ =>
    }

    // ----- CSI -----

    /** Where addressed positions count from. */
    function Home(): Pos
      reads this
    {
      if origin then Pos(top, Left()) else Pos(0, 0)
    }

    /** The nearest place the cursor may be at: in the margins if positions count from there, else on the screen. */
    function Brought(p: Pos): Pos
      requires Shaped()
      reads this`top, this`bottom, this`left, this`right, this`tabstops, this`doublewidth, this`otherDoublewidth,
            this`leftrightmargin, this`origin
    {
      if origin then Pos(Nearest(p.row, top, Bottom()), Nearest(p.col, Left(), Right()))
      else Pos(Nearest(p.row, 0, rows), Nearest(p.col, 0, RowWidth(Nearest(p.row, 0, rows))))
    }

    /** The commands move the cursor anywhere; in the end it is brought to the nearest place it may be at. */
    method ClampCursor()
      requires Shaped()
      modifies this`pos
      ensures Shaped() && InGrid(pos) && pos == Brought(old(pos))
    {
      var row, col := pos.row, pos.col;
      if origin {
        if row < top { row := top; }
        if row > Bottom() - 1 { row := Bottom() - 1; }
        if col < Left() { col := Left(); }
        if col > Right() - 1 { col := Right() - 1; }
      } else {
        if row < 0 { row := 0; }
        if row > rows - 1 { row := rows - 1; }
        if col < 0 { col := 0; }
        if col > RowWidth(row) - 1 { col := RowWidth(row) - 1; }
      }
      pos := Pos(row, col);
    }

    /** A command that only moves the cursor: to the position it asks for if that is allowed, else as near
        as possible. */
    method Move(command: Byte, args: seq<P.Arg>)
      requires Valid() && IsMove(command)
      modifies this`pos, this`atPhantom
      ensures Valid() && !atPhantom && pos == Brought(Target(old(pos), command, args, Home()))
    {
      var before := pos;
      pos := MoveTo(command, args);
      atPhantom := false;
      ClampCursor();
      UpdateCursor(before, true);
    }

    method MoveTo(command: Byte, args: seq<P.Arg>) returns (p: Pos)
      requires IsMove(command)
      ensures p == Target(pos, command, args, Home())
    {
      var count := CountAt(args, 0);
      p := pos;
      match command
      case 0x41 => p := p.(row := p.row - count);
      case 0x42 => p := p.(row := p.row + count);
      case 0x43 => p := p.(col := p.col + count);
      case 0x44 => p := p.(col := p.col - count);
      case 0x45 => p := Pos(p.row + count, 0);
      case 0x46 => p := Pos(p.row - count, 0);
      case 0x47 => p := p.(col := OrAt(args, 0, 1) - 1);
      case 0x60 => p := p.(col := OrAt(args, 0, 1) - 1);
      case 0x61 => p := p.(col := p.col + count);
      case 0x64 =>
        p := p.(row := OrAt(args, 0, 1) - 1);
        if origin {
          p := p.(row := p.row + top);
        }
      case 0x65 => p := p.(row := p.row + count);
      case 0x6a => p := p.(col := p.col - count);
      case 0x6b => p := p.(row := p.row - count);
      case _ =>
        p := Pos(OrAt(args, 0, 1) - 1, OrAt(args, 1, 1) - 1);
        if origin {
          p := Pos(p.row + top, p.col + Left());
        }
    }

    /** The loop of REP ends: the glyph has a width, or, on a double-width row, there is nothing left to fill. */
    predicate RepeatEnds()
      requires Valid()
      reads this
    {
      combineWidth > 0 || pos.col >= RowWidth(pos.row)
    }

    /** The column REP goes up to. */
    function RepeatTarget(args: seq<P.Arg>): int
      requires Valid()
      reads this
    {
      var room := RowWidth(pos.row);
      if pos.col + CountAt(args, 0) > room then room else pos.col + CountAt(args, 0)
    }

    /** Exactly then some number of turns takes its loop there. */
    lemma RepeatEndsExactlyWhen(args: seq<P.Arg>)
      requires Valid()
      ensures (exists turns :: AfterTurns(pos.col, combineWidth, turns) >= RepeatTarget(args)) <==> RepeatEnds()
    {
      hide *;
      TurnsReach(pos.col, combineWidth, RepeatTarget(args));
      StartsBelow(args);
    }

    lemma StartsBelow(args: seq<P.Arg>)
      requires Valid()
      ensures pos.col >= RepeatTarget(args) <==> pos.col >= RowWidth(pos.row)
      ensures RepeatEnds() <==> combineWidth > 0 || pos.col >= RowWidth(pos.row)
    {
    }

    /** Every glyph that REP repeats fits the row exactly when the columns it fills do, rounded up to whole glyphs. */
    lemma RepeatFits(args: seq<P.Arg>)
      requires Valid() && combineWidth > 0 && pos.col < RowWidth(pos.row)
      ensures
        var room, count := RowWidth(pos.row) - pos.col, CountAt(args, 0);
        (forall c :: c in RepeatColumns(pos.col, RepeatTarget(args), combineWidth) ==>
             c + combineWidth <= RowWidth(pos.row))
        <==> RoundUp(if count < room then count else room, combineWidth) <= room
    {
      RepeatFitsExactlyWhen(pos.col, RepeatTarget(args), combineWidth, RowWidth(pos.row));
    }

    /** REP: repeats the last glyph up to the end of the row, in `columns`. `ends` is false for a loop without end,
        after which there is nothing. */
    method Repeat(args: seq<P.Arg>) returns (ends: bool, columns: seq<int>)
      requires Valid()
      modifies this`pos, this`atPhantom
      ensures Valid() && ends == old(RepeatEnds())
      ensures !ends ==> !RepeatEnds() && pos == old(pos) && atPhantom == old(atPhantom)
      ensures ends ==> columns == RepeatColumns(old(pos).col, old(RepeatTarget(args)), combineWidth)
      ensures ends && !origin && old(pos).col < RowWidth(old(pos).row) ==>
                && pos.row == old(pos).row
                && (pos.col >= old(pos).col + CountAt(args, 0) || pos.col == RowWidth(pos.row) - 1)
      ensures ends && old(pos).col < RowWidth(old(pos).row) ==>
                pos == Brought(Pos(old(pos).row,
                    old(pos).col + RoundUp(old(RepeatTarget(args)) - old(pos).col, combineWidth)))
    {
      hide MarginsOk, RoundUp, RepeatColumns, Nearest;
      hide CursorState.Brought;
      columns := [];
      if !RepeatEnds() {
        return false, columns;
      }
      var before, cancelPhantom := pos, true;
      var rowWidth := RowWidth(pos.row);
      var col := pos.col + CountAt(args, 0);
      if col > rowWidth {
        col := rowWidth;
      }
      columns := RepeatTo(col);
      if pos.col + combineWidth >= rowWidth {
        if autowrap {
          atPhantom := true;
          cancelPhantom := false;
        }
      }
      ghost var end := pos;
      ClampCursor();
      if !origin { BroughtRight(end, col); }
      UpdateCursor(before, cancelPhantom);
      ends := true;
    }

    lemma BroughtRight(p: Pos, col: int)
      requires Shaped() && !origin && 0 <= p.row < rows && p.col >= col >= 0
      ensures Brought(p).row == p.row && Brought(p).col < cols
      ensures Brought(p).col == RowWidth(p.row) - 1 || (Brought(p).col >= col && col < RowWidth(p.row))
    {
    }

    /** The loop of REP. */
    method RepeatTo(col: int) returns (columns: seq<int>)
      requires combineWidth > 0 || pos.col >= col
      modifies this`pos
      ensures columns == RepeatColumns(old(pos).col, col, combineWidth)
      ensures pos.row == old(pos).row && pos.col >= col && pos.col >= old(pos).col
      ensures combineWidth > 0 && old(pos).col < col ==>
                pos.col == old(pos).col + RoundUp(col - old(pos).col, combineWidth)
    {
      columns := [];
      ghost var start := pos.col;
      while pos.col < col
        invariant pos.row == old(pos).row && pos.col >= start
        invariant combineWidth > 0 && start < col ==>
                    pos.col + RoundUp(col - pos.col, combineWidth) == start + RoundUp(col - start, combineWidth)
        invariant columns + RepeatColumns(pos.col, col, combineWidth) == RepeatColumns(start, col, combineWidth)
        decreases col - pos.col
      {
        var rest := RepeatColumns(pos.col + combineWidth, col, combineWidth);
        assert columns + ([pos.col] + rest) == columns + [pos.col] + rest;
        columns := columns + [pos.col];
        pos := pos.(col := pos.col + combineWidth);
      }
    }

    method ReadScrollRegion(args: seq<P.Arg>)
      requires rows >= 1
      modifies this`top, this`bottom
      ensures (top, bottom) == StbmMargins(args, rows)
    {
      top := OrAt(args, 0, 1) - 1;
      bottom := if ArgAt(args, 1) == P.MISSING then -1 else ArgAt(args, 1);
      if top < 0 { top := 0; }
      if top > rows { top := rows; }
      if bottom < -1 { bottom := -1; }
      if top == 0 && bottom == rows {
        bottom := -1;
      } else if bottom > rows {
        bottom := rows;
      }
      if Bottom() <= top {
        top := 0;
        bottom := -1;
      }
    }

    method SetScrollRegion(args: seq<P.Arg>)
      requires Valid()
      modifies this`pos, this`top, this`bottom, this`atPhantom
      ensures Valid() && (top, bottom) == StbmMargins(args, rows) && pos == Brought(Home())
      ensures atPhantom == (old(atPhantom) && pos == old(pos))
    {
      var before := pos;
      ReadScrollRegion(args);
      StbmOk(args, rows);
      pos := Home();
      ClampCursor();
      UpdateCursor(before, true);
    }

    method ReadSideMargins(args: seq<P.Arg>)
      requires cols >= 1
      modifies this`left, this`right
      ensures (left, right) == SlrmMargins(args, cols)
    {
      left := OrAt(args, 0, 1) - 1;
      right := if ArgAt(args, 1) == P.MISSING then -1 else ArgAt(args, 1);
      if left < 0 { left := 0; }
      if left > cols { left := cols; }
      if right < -1 { right := -1; }
      if left == 0 && right == cols {
        right := -1;
      } else if right > cols {
        right := cols;
      }
      if right > -1 && right <= left {
        left := 0;
        right := -1;
      }
    }

    method SetSideMargins(args: seq<P.Arg>)
      requires Valid()
      modifies this`pos, this`left, this`right, this`atPhantom
      ensures Valid() && (left, right) == SlrmMargins(args, cols) && pos == Brought(Home())
      ensures atPhantom == (old(atPhantom) && pos == old(pos))
    {
      var before := pos;
      ReadSideMargins(args);
      SlrmOk(args, cols);
      pos := Home();
      ClampCursor();
      UpdateCursor(before, true);
    }

    /** Sets or resets DEC modes one by one. The cursor may be past the last column afterwards, and so may
        the saved position, in exactly these cases. */
    method SetModes(args: seq<P.Arg>, val: bool)
      requires Valid()
      modifies this
      ensures Shaped() && combineWidth == old(combineWidth)
      ensures Now() == DecModes(old(Now()), args, val) && tabstops == old(tabstops)
      ensures Places(pos, saved) == DecPlaces(old(Places(pos, saved)), old(Now()), args, val)
      ensures InGrid(pos) <==> !(val && MovesOut(old(Now()), args, cols))
      ensures InGrid(saved) <==> !(val && SavesOutside(old(Now()), args, cols))
    {
      hide Lists, DecMode, DecModes, DecPlaces, PlacesAfter, MovesOut, SavesOutside;
      ghost var m, p := Now(), Places(pos, saved);
      NoneListed(p, m, val);
      OutExactlyWhen(p, m, args, val, rows, cols);
      for i := 0 to |args|
        invariant Shaped() && combineWidth == old(combineWidth)
        invariant Now() == DecModes(m, args[..i], val) && tabstops == old(tabstops)
        invariant Places(pos, saved) == DecPlaces(p, m, args[..i], val)
      {
        DecModesStep(m, args, i, val);
        DecPlacesStep(p, m, args, i, val);
        NoMode(DecModes(m, args[..i], val), DecPlaces(p, m, args[..i], val), val);
        if args[i].value != P.MISSING {
          SetDecMode(args[i].value, val);
        }
      }
      assert args[..|args|] == args;
    }

    method ClearTabstops(val: nat)
      requires Valid()
      modifies this`tabstops
      ensures Valid()
      ensures tabstops == if val == 0 then old(tabstops)[pos.col := false]
              else if val == 3 || val == 5 then seq(cols, c => false) else old(tabstops)
    {
      if val == 0 {
        tabstops := tabstops[pos.col := false];
      } else if val == 3 || val == 5 {
        for c := 0 to cols
          invariant |tabstops| == cols && forall k :: 0 <= k < c ==> !tabstops[k]
        {
          tabstops := tabstops[c := false];
        }
      }
    }

    /** One CSI command; `ends` is false for a REP without end. It leaves the cursor on the screen, and the saved
        cursor unless it sets modes that save it outside. */
    method OnCsi(leader: seq<Byte>, args: seq<P.Arg>, intermed: seq<Byte>, command: Byte) returns (ends: bool)
      requires Valid()
      modifies this
      ensures ends <==> !IsRepeat(leader, intermed, command) || old(RepeatEnds())
      ensures !ends ==> Valid() && !RepeatEnds()
      ensures Shaped() && InGrid(pos) && combineWidth == old(combineWidth)
      ensures InGrid(saved) <==> !SavesOut(leader, args, intermed, command, old(Now()), cols)
      ensures Now() == CsiModes(old(Now()), leader, args, intermed, command, rows, cols)
      ensures !Recognised(leader, intermed, command) ==>
                pos == old(pos) && saved == old(saved) && tabstops == old(tabstops) && atPhantom == old(atPhantom)
      ensures leader == intermed == [] && Recognised(leader, intermed, command) ==> Commanded(args, command)
      ensures IsDecMode(leader, intermed, command) ==>
                var p := DecPlaces(old(Places(pos, saved)), old(Now()), args, command == 0x68);
                pos == Brought(p.pos) && saved == p.saved && tabstops == old(tabstops)
      ensures IsDecMode(leader, intermed, command) ==>
                && origin == (if Lists(args, 6) then command == 0x68 else old(origin))
                && autowrap == (if Lists(args, 7) then command == 0x68 else old(autowrap))
                && leftrightmargin == (if Lists(args, 69) then command == 0x68 else old(leftrightmargin))
      ensures IsSoftReset(leader, intermed, command) ==>
                && pos == old(pos) && saved == old(saved) && Plain()
                && forall c :: 0 <= c < cols ==> (tabstops[c] <==> c % 8 == 0)
      ensures Recognised(leader, intermed, command) && !(leader == intermed == [])
              && !IsDecMode(leader, intermed, command) && !IsSoftReset(leader, intermed, command) ==>
                (pos == old(pos) || pos == Brought(old(pos))) && saved == old(saved) && tabstops == old(tabstops)
    {
      hide MarginsOk, CsiModes, Commanded, DecPlaces, DecModes, SavesOutside, Nearest, Lists;
      hide CursorState.Brought;
      Unrecognised(old(Now()), leader, args, intermed, command, rows, cols);
      DecModesMean(old(Now()), args, command == 0x68);
      if !Recognised(leader, intermed, command) {
        return true;
      }
      if leader == intermed == [] {
        ends := Command(args, command);
        return;
      }
      ends := true;
      if leader == [0x3f] && (command == 0x4a || command == 0x4b) {
        var given := EraseArgument(args, command);
        if !given {
          return;
        }
      }
      if IsDecMode(leader, intermed, command) {
        SetModes(args, command == 0x68);
      } else if leader == [0x3f] && command == 0x4a {
        Scroll();
      } else if intermed == [0x21] {
        Reset(false);
      }
      Settle();
      if intermed == [0x21] { Unmoved(old(pos)); }
    }

    lemma Unmoved(p: Pos)
      requires Shaped() && !origin && Plain() && InGrid(p)
      ensures Brought(p) == p
    {
    }

    /** Whether ED and EL go on to their end: EL does not with an unknown argument, and ED 3 does not if whoever keeps
        the scrollback clears it. */
    method EraseArgument(args: seq<P.Arg>, command: Byte) returns (given: bool)
      ensures !given ==> if command == 0x4b then OrAt(args, 0, 0) > 2 else OrAt(args, 0, 0) == 3
      ensures command == 0x4b && OrAt(args, 0, 0) > 2 ==> !given
    {
      given := true;
      if command == 0x4b {
        given := OrAt(args, 0, 0) <= 2;
      } else if OrAt(args, 0, 0) == 3 {
        if * { given := false; }
      }
    }

    /** What every recognised command ends with. */
    method Settle()
      requires Shaped()
      modifies this`pos, this`atPhantom
      ensures Shaped() && InGrid(pos) && pos == Brought(old(pos))
      ensures atPhantom == (old(atPhantom) && pos == old(pos))
    {
      var before := pos;
      ClampCursor();
      UpdateCursor(before, true);
    }

    /** What a command without leader and intermediates does to the position, margins, modes and tab stops. */
    twostate predicate Commanded(args: seq<P.Arg>, command: Byte)
      requires old(Valid()) && Shaped()
      reads this
    {
      var n, m := OrAt(args, 0, 1), ArgAt(args, 1);
      var first := if n > 0 then n - 1 else 0;
      var val := OrAt(args, 0, 0);
      var from, last := old(pos).col, old(RowWidth(pos.row)) - 1;
      && saved == old(saved)
      && (IsMove(command) ==> pos == Brought(Target(old(pos), command, args, old(Home()))) && !atPhantom)
      && (command == 0x49 ==> exists to: nat :: from <= to < cols && pos == Brought(Pos(old(pos).row, to))
                                   && TabbedTo(old(tabstops), from, to, CountAt(args, 0), last))
      && (command == 0x5a ==> exists to: nat :: to <= from && pos == Brought(Pos(old(pos).row, to))
                                   && TabbedBackTo(old(tabstops), from, to, CountAt(args, 0)))
      && (command == 0x62 && old(RepeatEnds()) && from <= last ==>
            pos == Brought(Pos(old(pos).row, from + RoundUp(old(RepeatTarget(args)) - from, old(combineWidth)))))
      && (command == 0x67 ==>
            tabstops == if val == 0 then old(tabstops)[old(pos).col := false]
                        else if val == 3 || val == 5 then seq(cols, c => false) else old(tabstops))
      && (command != 0x67 ==> tabstops == old(tabstops))
      && (command == 0x68 || command == 0x6c ==>
            && insert == (if ArgAt(args, 0) == 4 then command == 0x68 else old(insert))
            && newline == (if ArgAt(args, 0) == 20 then command == 0x68 else old(newline)))
      && (command == 0x72 ==>
            var end := if OrAt(args, 1, rows) < rows then OrAt(args, 1, rows) else rows;
            (top, Bottom()) == (if first < end then (first, end) else (0, rows)) && pos == Brought(Home()))
      && (command != 0x72 ==> top == old(top) && bottom == old(bottom))
      && (command == 0x73 ==>
            && (left, if right > -1 then right else cols) ==
               (if m == P.MISSING then (if first < cols then first else cols, cols)
                else if first < m && first < cols then (first, if m < cols then m else cols)
                else (0, cols))
            && pos == Brought(Home()))
      && (command != 0x73 ==> left == old(left) && right == old(right))
      && (command in {0x4a, 0x4b, 0x67} ==> pos == old(pos) || pos == Brought(old(pos)))
      && (!IsMove(command) && command !in {0x49, 0x4a, 0x4b, 0x5a, 0x62, 0x67, 0x72, 0x73} ==> pos == Brought(old(pos)))
    }

    /** CHT and CBT. */
    method Tab(count: nat, forward: bool)
      requires Valid()
      modifies this`pos, this`atPhantom
      ensures Valid()
      ensures forward ==> exists to: nat :: old(pos).col <= to < cols && pos == Brought(Pos(old(pos).row, to))
                                  && TabbedTo(tabstops, old(pos).col, to, count, RowWidth(old(pos).row) - 1)
      ensures !forward ==> exists to: nat :: to <= old(pos).col && pos == Brought(Pos(old(pos).row, to))
                                   && TabbedBackTo(tabstops, old(pos).col, to, count)
    {
      hide MarginsOk, TabbedTo, TabbedBackTo;
      hide CursorState.Brought;
      var before := pos;
      if forward {
        TabForward(count);
        assert TabbedTo(tabstops, before.col, pos.col, count, RowWidth(before.row) - 1);
      } else {
        TabBack(count);
        assert TabbedBackTo(tabstops, before.col, pos.col, count);
      }
      ClampCursor();
      UpdateCursor(before, true);
    }

    /** TBC, SM and RM. */
    method SetUp(args: seq<P.Arg>, command: Byte)
      requires Valid() && command in {0x67, 0x68, 0x6c}
      modifies this`pos, this`atPhantom, this`tabstops, this`insert, this`newline
      ensures Valid() && Now() == CsiModes(old(Now()), [], args, [], command, rows, cols) && Commanded(args, command)
    {
      hide MarginsOk, StbmMargins, SlrmMargins, TabbedTo, TabbedBackTo, Nearest, Target, RoundUp, Recognised;
      hide CursorState.Brought;
      match command
      case 0x67 =>
        var val := OrAt(args, 0, 0);
        if val > 5 {
          return;
        }
        ClearTabstops(val);
        Settle();
      case _ =>
        if ArgAt(args, 0) != P.MISSING { SetMode(ArgAt(args, 0), command == 0x68); }
        Settle();
    }

    /** DECSTBM and DECSLRM. */
    method SetMargins(args: seq<P.Arg>, command: Byte)
      requires Valid() && (command == 0x72 || command == 0x73)
      modifies this`pos, this`atPhantom, this`top, this`bottom, this`left, this`right
      ensures Valid() && Now() == CsiModes(old(Now()), [], args, [], command, rows, cols) && Commanded(args, command)
    {
      hide MarginsOk, StbmMargins, SlrmMargins, TabbedTo, TabbedBackTo, Nearest, Target, RoundUp, Recognised;
      hide CursorState.Brought;
      if command == 0x72 {
        SetScrollRegion(args);
        StbmOk(args, rows);
      } else {
        SetSideMargins(args);
        SlrmOk(args, cols);
      }
    }

    /** The commands that erase or scroll, or have nothing to do with the cursor. */
    method Draw(args: seq<P.Arg>, command: Byte)
      requires Valid()
      modifies this`pos, this`atPhantom, this`doublewidth
      ensures Valid()
      ensures pos == Brought(old(pos)) || (pos == old(pos) && (command == 0x4a || command == 0x4b))
    {
      hide MarginsOk, Nearest;
      hide CursorState.Brought;
      if command == 0x4a || command == 0x4b {
        var given := EraseArgument(args, command);
        if !given {
          return;
        }
      }
      if command == 0x40 || 0x4a <= command <= 0x54 {
        Scroll();
      }
      Settle();
    }

    method Command(args: seq<P.Arg>, command: Byte) returns (ends: bool)
      requires Valid() && Recognised([], [], command)
      modifies this
      ensures ends <==> command != 0x62 || old(RepeatEnds())
      ensures !ends ==> Valid() && !RepeatEnds()
      ensures Valid() && combineWidth == old(combineWidth)
      ensures Now() == CsiModes(old(Now()), [], args, [], command, rows, cols)
      ensures Commanded(args, command)
    {
      hide MarginsOk, StbmMargins, SlrmMargins, TabbedTo, TabbedBackTo, Nearest, Target, RepeatColumns, RoundUp,
          Recognised;
      hide CursorState.Brought;
      ends := true;
      if IsMove(command) {
        Move(command, args);
        return;
      }
      match command
      case 0x49 => Tab(CountAt(args, 0), true);
      case 0x5a => Tab(CountAt(args, 0), false);
      case 0x62 =>
        var columns;
        ends, columns := Repeat(args);
      case _ =>
        if command == 0x67 || command == 0x68 || command == 0x6c {
          SetUp(args, command);
        } else if command == 0x72 || command == 0x73 {
          SetMargins(args, command);
        } else {
          Draw(args, command);
        }
    }

    /** Why a run breaks off at an operation: a glyph of negative width has left the screen, REP does not end, or a
        list of modes has saved the cursor past the margin. */
    ghost predicate Breaks(op: Op, m: Modes)
      reads this
    {
      match op
      case TextOp(widths) => !InGrid(pos) && exists k :: 0 <= k < |widths| && widths[k] < 0
      case CsiOp(leader, args, intermed, command) =>
        || (IsRepeat(leader, intermed, command) && Valid() && !RepeatEnds())
        || (SavesOut(leader, args, intermed, command, m, cols) && !InGrid(saved))
      case _ => false
    }

    /** Any run of text, controls, escapes and CSI commands, up to the first operation that breaks off: until
        then cursor and saved cursor stay on the screen and the scroll region in order. Operations allowed by
        what they are never break off. */
    method Run(ops: seq<Op>) returns (n: nat)
      requires Valid()
      modifies this
      ensures n <= |ops| && Shaped() && (n == |ops| ==> Valid())
      ensures n < |ops| ==> Breaks(ops[n], ModesAfter(ops[..n], old(Now()), rows, cols))
      ensures n == |ops| ==> Now() == ModesAfter(ops, old(Now()), rows, cols)
      ensures Allowed(ops, rows, cols, old(combineWidth), old(Now())) ==> n == |ops|
    {
      hide CsiModes;
      ghost var width, m := combineWidth, Now();
      n := 0;
      while n < |ops|
        invariant n <= |ops| && Valid() && combineWidth == WidthAfter(ops[..n], width)
                  && Now() == ModesAfter(ops[..n], m, rows, cols)
      {
        assert ops[..n + 1][..n] == ops[..n];
        if Allowed(ops, rows, cols, width, m) { AllowedAt(ops, n, rows, cols, width, m); }
        match ops[n] {
          case TextOp(widths) =>
            var k := OnText(widths);
            if k < |widths| {
              return;
            }
          case ControlOp(c) => OnControl(c);
          case EscapeOp(bytes) => OnEscape(bytes);
          case CsiOp(leader, args, intermed, command) =>
            var ends := OnCsi(leader, args, intermed, command);
            if !ends || !InGrid(saved) {
              return;
            }
        }
        n := n + 1;
      }
      assert ops[..|ops|] == ops;
    }
  }

  /** A full row and then a C1 code point: the wrap puts the cursor on the first column, and the width -1 in front
      of it, although there was room to the left. */
  method FullRowThenC1(rows: nat, cols: nat) returns (c: CursorState)
    requires rows >= 1 && cols >= 2
    ensures c.Shaped() && !c.InGrid(c.pos)
  {
    c := new CursorState(rows, cols);
    for i := 0 to cols
      invariant fresh(c) && c.Valid() && c.rows == rows && c.cols == cols && c.autowrap && !c.insert
                && !c.doublewidth[0]
      invariant c.pos == Pos(0, if i < cols then i else cols - 1) && c.atPhantom == (i == cols)
    {
      var _ := c.PutGlyph(1, false);
    }
    var _ := c.PutGlyph(-1, true);
  }

  /** A glyph of two columns on a row of five, repeated nine times: the second copy does not fit the row, nor the
      screen. */
  method WideRepeat() returns (c: CursorState, columns: seq<int>)
    ensures c.cols == 5 && c.combineWidth == 2 && 4 in columns && 4 + c.combineWidth > c.cols
  {
    c := new CursorState(1, 5);
    var _ := c.PutGlyph(2, true);
    var ends;
    ends, columns := c.Repeat([P.Arg(9, false)]);
    assert columns == [2] + ([4] + RepeatColumns(6, 5, 2)) && columns[1] == 4;
  }

  /** The commands with a meaning; others leave everything as it is. */
  predicate Recognised(leader: seq<Byte>, intermed: seq<Byte>, command: Byte) {
    || (leader == intermed == []
        && (IsMove(command) || command in {0x40, 0x49, 0x4a, 0x4b, 0x4c, 0x4d, 0x50, 0x53, 0x54, 0x58,
        0x5a, 0x62, 0x63, 0x67, 0x68, 0x6c, 0x6d, 0x6e, 0x72, 0x73}))
    || (leader == [0x3f] && intermed == [] && command in {0x4a, 0x4b, 0x68, 0x6c, 0x6d, 0x6e})
    || (leader == [0x3f] && intermed == [0x24] && command == 0x70)
    || (leader == [0x3e] && intermed == [] && command in {0x63, 0x71})
    || (leader == [] && intermed == [0x21] && command == 0x70)
    || (leader == [] && intermed in {[0x20], [0x22]} && command == 0x71)
    || (leader == [] && intermed == [0x27] && command in {0x7d, 0x7e})
  }

  // ----- what a run may hold -----

  predicate IsRepeat(leader: seq<Byte>, intermed: seq<Byte>, command: Byte) { leader == intermed == []
      && command == 0x62 }

  predicate IsDecMode(leader: seq<Byte>, intermed: seq<Byte>, command: Byte) {
    leader == [0x3f] && intermed == [] && (command == 0x68 || command == 0x6c)
  }

  predicate IsSoftReset(leader: seq<Byte>, intermed: seq<Byte>, command: Byte) {
    leader == [] && intermed == [0x21] && command == 0x70
  }

  predicate Starts(bytes: seq<Byte>, b: Byte) { bytes != [] && bytes[0] == b }

  /** The command sets modes that save the cursor past the last column. */
  predicate SavesOut(leader: seq<Byte>, args: seq<P.Arg>, intermed: seq<Byte>, command: Byte, m: Modes, cols: nat) {
    IsDecMode(leader, intermed, command) && command == 0x68 && SavesOutside(m, args, cols)
  }

  /** Margins and modes after a CSI command. */
  function CsiModes(m: Modes, leader: seq<Byte>, args: seq<P.Arg>, intermed: seq<Byte>, command: Byte, rows: nat,
          cols: nat): Modes {
    if IsDecMode(leader, intermed, command) then DecModes(m, args, command == 0x68)
    else if IsSoftReset(leader, intermed, command) then INITIAL
    else if leader != [] || intermed != [] then m
    else
      match command
      case 0x68 => AnsiModes(m, ArgAt(args, 0), true)
      case 0x6c => AnsiModes(m, ArgAt(args, 0), false)
      case 0x72 => m.(top := StbmMargins(args, rows).0, bottom := StbmMargins(args, rows).1)
      case 0x73 => m.(left := SlrmMargins(args, cols).0, right := SlrmMargins(args, cols).1)
      case _ => m
  }

  lemma Unrecognised(m: Modes, leader: seq<Byte>, args: seq<P.Arg>, intermed: seq<Byte>, command: Byte, rows: nat,
          cols: nat)
    ensures !Recognised(leader, intermed, command) ==> CsiModes(m, leader, args, intermed, command, rows, cols) == m
    ensures leader == intermed == [] ==>
              CsiModes(m, leader, args, intermed, command, rows, cols) == CsiModes(m, [], args, [], command, rows, cols)
    ensures !(leader == intermed == []) && !IsDecMode(leader, intermed, command)
            && !IsSoftReset(leader, intermed, command) ==>
              CsiModes(m, leader, args, intermed, command, rows, cols) == m
    ensures IsDecMode(leader, intermed, command) ==>
              CsiModes(m, leader, args, intermed, command, rows, cols) == DecModes(m, args, command == 0x68)
    ensures IsSoftReset(leader, intermed, command) ==>
              CsiModes(m, leader, args, intermed, command, rows, cols) == INITIAL
  {
  }

  /** Margins and modes after some operations. */
  function ModesAfter(ops: seq<Op>, m: Modes, rows: nat, cols: nat): Modes {
    if ops == [] then m
    else
      var before := ModesAfter(ops[..|ops| - 1], m, rows, cols);
      match ops[|ops| - 1]
      case EscapeOp(bytes) => if Starts(bytes, 0x63) then INITIAL else before
      case CsiOp(leader, args, intermed, command) => CsiModes(before, leader, args, intermed, command, rows, cols)
      case _ => before
  }

  /** The width of the last glyph after some operations. */
  function WidthAfter(ops: seq<Op>, start: int): int {
    if ops == [] then start
    else
      match ops[|ops| - 1]
      case TextOp(widths) => if widths == [] then WidthAfter(ops[..|ops| - 1], start) else widths[|widths| - 1]
      case _ => WidthAfter(ops[..|ops| - 1], start)
  }

  predicate Allowed(ops: seq<Op>, rows: nat, cols: nat, width: int, m: Modes) {
    forall i :: 0 <= i < |ops| ==> OpAllowed(ops, i, rows, cols, width, m)
  }

  predicate OpAllowed(ops: seq<Op>, i: nat, rows: nat, cols: nat, width: int, m: Modes)
    requires i < |ops|
  {
    match ops[i]
    case TextOp(widths) => forall k :: 0 <= k < |widths| ==> widths[k] >= 0
    case CsiOp(leader, args, intermed, command) =>
      && (IsRepeat(leader, intermed, command) ==> WidthAfter(ops[..i], width) > 0)
      && !SavesOut(leader, args, intermed, command, ModesAfter(ops[..i], m, rows, cols), cols)
    case _ => true
  }

  lemma AllowedAt(ops: seq<Op>, i: nat, rows: nat, cols: nat, width: int, m: Modes)
    requires Allowed(ops, rows, cols, width, m) && i < |ops|
    ensures OpAllowed(ops, i, rows, cols, width, m)
  {
  }
}
