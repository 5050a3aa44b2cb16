/** Scrolling by the state layer: which rows reach the scrollback before they are overwritten, and the
    ring of lines the host keeps. */
module Scrollback {
  import opened Cells
  import opened Screen

  // ----- what a scroll pushes -----

  function Clamp(n: int, limit: nat): int { if n > limit then limit else if -n > limit then 0 - limit else n }

  /** The rows `premove` pushes for a rectangle about to be destroyed. */
  function Premoved(g: Grid, cols: nat, rect: Rect, primary: bool): Grid
    requires rect.endRow <= |g|
  {
    if primary && rect.startRow == 0 && rect.startCol == 0 && rect.endCol == cols
        && rect.endRow >= 0 then g[..rect.endRow] else []
  }

  /** What a vertical scroll destroys: its top rows, or its bottom rows. */
  function DestroyedRows(rect: Rect, down: int): Rect {
    if down > 0 then rect.(endRow := rect.startRow + down) else rect.(startRow := rect.endRow + down)
  }

  function DestroyedCols(rect: Rect, right: int): Rect {
    if right > 0 then rect.(endCol := rect.startCol + right) else rect.(startCol := rect.endCol + right)
  }

  function PushedVertically(g: Grid, cols: nat, rect: Rect, down: int, primary: bool): Grid
    requires rect.endRow <= |g| && Abs(down) <= rect.endRow - rect.startRow
  {
    if down == 0 then [] else Premoved(g, cols, DestroyedRows(rect, down), primary)
  }

  function PushedSideways(g: Grid, cols: nat, rect: Rect, right: int, primary: bool): Grid
    requires rect.endRow <= |g|
  {
    if right == 0 then [] else Premoved(g, cols, DestroyedCols(rect, right), primary)
  }

  function PushedRows(g: Grid, cols: nat, rect: Rect, down: int, right: int, primary: bool): Grid
    requires rect.endRow <= |g| && Abs(down) <= rect.endRow - rect.startRow
  {
    PushedVertically(g, cols, rect, down, primary) + PushedSideways(g, cols, rect, right, primary)
  }

  /** Line info moves with the rows when whole lines scroll. */
  function ScrolledLines(lines: seq<LineInfo>, cols: nat, rect: Rect, down: int, right: int): (r: seq<LineInfo>)
    ensures |r| == |lines|
  {
    if rect.startCol == 0 && rect.endCol == cols && right == 0 then
      seq(|lines|, i requires 0 <= i < |lines| =>
        if !(rect.startRow <= i < rect.endRow) then lines[i]
        else if rect.startRow <= i + down < rect.endRow && i + down < |lines| && 0 <= i + down then lines[i + down]
        else PLAIN_LINE)
    else lines
  }

  // ----- conservation of lines -----

  predicate IsBlankRow(row: Row) { forall c :: 0 <= c < |row| ==> row[c].chars == [] }

  /** `b` is `a` with blank rows inserted. */
  predicate Inserted(a: Grid, b: Grid) {
    if b == [] then a == []
    else (a != [] && a[0] == b[0] && Inserted(a[1..], b[1..])) || (IsBlankRow(b[0]) && Inserted(a, b[1..]))
  }

  lemma InsertedSelf(a: Grid)
    ensures Inserted(a, a)
  {
  }

  lemma {:induction false} InsertedJoin(a: Grid, b: Grid, c: Grid, d: Grid)
    requires Inserted(a, b) && Inserted(c, d)
    ensures Inserted(a + c, b + d)
  {
    if b == [] {
      assert a + c == c && b + d == d;
    } else {
      assert (b + d)[1..] == b[1..] + d;
      if a != [] && a[0] == b[0] && Inserted(a[1..], b[1..]) {
        assert (a + c)[1..] == a[1..] + c;
        InsertedJoin(a[1..], b[1..], c, d);
      } else {
        InsertedJoin(a, b[1..], c, d);
      }
    }
  }

  lemma {:induction false} InsertedBlanks(b: Grid)
    requires forall i :: 0 <= i < |b| ==> IsBlankRow(b[i])
    ensures Inserted([], b)
  {
    if b != [] { InsertedBlanks(b[1..]); }
  }

  lemma {:induction false} InsertedThen(a: Grid, b: Grid, c: Grid)
    requires Inserted(a, b) && Inserted(b, c)
    ensures Inserted(a, c)
    decreases |c|
  {
    if c != [] {
      if b != [] && b[0] == c[0] && Inserted(b[1..], c[1..]) {
        if a != [] && a[0] == b[0] && Inserted(a[1..], b[1..]) {
          InsertedThen(a[1..], b[1..], c[1..]);
        } else {
          InsertedThen(a, b[1..], c[1..]);
        }
      } else {
        InsertedThen(a, b, c[1..]);
      }
    }
  }

  /** The region of the top `bottom` rows, whole lines. */
  function TopRegion(bottom: nat, cols: nat): Rect { Rect(0, bottom, 0, cols) }

  ghost function BlankRows(rows: seq<LineInfo>, cols: nat, pen: Pen): (g: Grid)
    ensures |g| == |rows| && forall i :: 0 <= i < |g| ==> IsBlankRow(g[i])
  {
    seq(|rows|, r requires 0 <= r < |rows| => seq(cols, c => Blank(pen, rows[r])))
  }

  /** The rows of the screen after a vertical scroll of the top region: forward they move up over blank
      rows; backward, blank rows come in at the top and the rows at the bottom of the region go. */
  lemma TopRegionScrolled(g: Grid, rows: nat, cols: nat, bottom: nat, down: int, pen: Pen, lines: seq<LineInfo>)
    requires IsGrid(g, rows, cols) && |lines| == rows && 0 < bottom <= rows && down != 0 && -down <= bottom
             && down <= bottom && cols > 0
    ensures
      var s := Scrolled(g, rows, cols, TopRegion(bottom, cols), down, 0, pen, lines);
      var d := Abs(down);
      s == if down > 0 || d == bottom then g[d..bottom] + BlankRows(lines[bottom - d..bottom], cols, pen) + g[bottom..]
           else BlankRows(lines[..d], cols, pen) + g[..bottom - d] + g[bottom..]
  {
    var rect, d := TopRegion(bottom, cols), Abs(down);
    var s := Scrolled(g, rows, cols, rect, down, 0, pen, lines);
    var target := if down > 0 || d == bottom
                  then g[d..bottom] + BlankRows(lines[bottom - d..bottom], cols, pen) + g[bottom..]
                  else BlankRows(lines[..d], cols, pen) + g[..bottom - d] + g[bottom..];
    forall r | 0 <= r < rows ensures s[r] == target[r] {
      assert forall c :: 0 <= c < cols ==> s[r][c] == target[r][c];
    }
  }

  /** In a vertical scroll of whole lines each row keeps its line info: a row that moves takes it along, a new row is
      blank and plain, and the others stay. */
  lemma InfoFollowsRows(g: Grid, rows: nat, cols: nat, rect: Rect, down: int, pen: Pen, lines: seq<LineInfo>, r: nat)
    requires IsGrid(g, rows, cols) && |lines| == rows && rect.In(rows, cols) && r < rows && cols > 0
    requires rect.startCol == 0 && rect.endCol == cols && down != 0 && Abs(down) <= rect.endRow - rect.startRow
    ensures
      var after := ScrolledLines(lines, cols, rect, down, 0);
      var s := Scrolled(g, rows, cols, rect, down, 0, pen, after);
      if !(rect.startRow <= r < rect.endRow) then s[r] == g[r] && after[r] == lines[r]
      else if rect.startRow <= r + down < rect.endRow then s[r] == g[r + down] && after[r] == lines[r + down]
      else IsBlankRow(s[r]) && after[r] == PLAIN_LINE
  {
    var after := ScrolledLines(lines, cols, rect, down, 0);
    var s := Scrolled(g, rows, cols, rect, down, 0, pen, after);
    if !(rect.startRow <= r < rect.endRow) {
      assert forall c :: 0 <= c < cols ==> s[r][c] == g[r][c];
    } else if rect.startRow <= r + down < rect.endRow {
      assert forall c :: 0 <= c < cols ==> s[r][c] == g[r + down][c];
    }
  }

  /** Lines are conserved: scrollback and screen together keep every line, with blank rows inserted, in
      each forward scroll of a region from row 0 and in a backward scroll by its whole height. */
  lemma ScrollConserves(pushed: Grid, g: Grid, rows: nat, cols: nat, bottom: nat, down: int, pen: Pen,
          lines: seq<LineInfo>)
    requires IsGrid(g, rows, cols) && |lines| == rows && 0 < bottom <= rows && cols > 0
    requires 0 < down <= bottom || -down == bottom
    ensures
      var rect := TopRegion(bottom, cols);
      Inserted(pushed + g,
          pushed + PushedRows(g, cols, rect, down, 0, true) + Scrolled(g, rows, cols, rect, down, 0, pen, lines))
  {
    hide Scrolled, Inserted, Shifted;
    var rect, d := TopRegion(bottom, cols), Abs(down);
    TopRegionScrolled(g, rows, cols, bottom, down, pen, lines);
    var blanks := BlankRows(lines[bottom - d..bottom], cols, pen);
    assert PushedRows(g, cols, rect, down, 0, true) == g[..d];
    InsertedBetween(pushed, g, d, bottom, blanks);
  }

  lemma Regroup(a: Grid, b: Grid, c: Grid, d: Grid, e: Grid)
    ensures a + b + (c + d + e) == (a + (b + c)) + (d + e)
  {
  }

  lemma InsertedBetween(pushed: Grid, g: Grid, d: nat, bottom: nat, blanks: Grid)
    requires d <= bottom <= |g| && forall i :: 0 <= i < |blanks| ==> IsBlankRow(blanks[i])
    ensures Inserted(pushed + g, pushed + g[..d] + (g[d..bottom] + blanks + g[bottom..]))
  {
    hide Inserted;
    var top, rest := pushed + g[..bottom], g[bottom..];
    InsertedBlanks(blanks);
    InsertedSelf(rest);
    InsertedJoin([], blanks, rest, rest);
    InsertedSelf(top);
    assert [] + rest == rest;
    InsertedJoin(top, top, rest, blanks + rest);
    Regroup(pushed, g[..d], g[d..bottom], blanks, rest);
    assert g[..d] + g[d..bottom] == g[..bottom];
    assert pushed + g == top + rest;
  }

  /** A backward scroll by less than the height of the region pushes nothing and loses its bottom rows. */
  lemma BackwardLoses(g: Grid, rows: nat, cols: nat, bottom: nat, down: int, pen: Pen, lines: seq<LineInfo>)
    requires IsGrid(g, rows, cols) && |lines| == rows && bottom <= rows && cols > 0 && 0 < -down < bottom
    ensures
      var rect, d := TopRegion(bottom, cols), -down;
      && PushedRows(g, cols, rect, down, 0, true) == []
      && Scrolled(g, rows, cols, rect, down, 0, pen, lines) == BlankRows(lines[..d], cols, pen) + g[..bottom - d]
          + g[bottom..]
  {
    TopRegionScrolled(g, rows, cols, bottom, down, pen, lines);
  }

  lemma {:induction false} InsertedSize(a: Grid, b: Grid)
    requires Inserted(a, b)
    ensures |a| <= |b| && (|a| == |b| ==> a == b)
  {
    if b != [] {
      if a != [] && a[0] == b[0] && Inserted(a[1..], b[1..]) {
        InsertedSize(a[1..], b[1..]);
        assert a == [a[0]] + a[1..] && b == [b[0]] + b[1..];
      } else {
        InsertedSize(a, b[1..]);
      }
    }
  }

  /** Exactly when a scroll of the top region conserves the lines of a given screen: forward, backward by the
      whole region, or when it leaves the screen as it was. */
  lemma ConservesExactlyWhen(pushed: Grid, g: Grid, rows: nat, cols: nat, bottom: nat, down: int, pen: Pen,
          lines: seq<LineInfo>)
    requires IsGrid(g, rows, cols) && |lines| == rows && 0 < bottom <= rows && cols > 0 && down != 0
             && Abs(down) <= bottom
    ensures
      var rect := TopRegion(bottom, cols);
      var s := Scrolled(g, rows, cols, rect, down, 0, pen, lines);
      Inserted(pushed + g, pushed + PushedRows(g, cols, rect, down, 0, true) + s) <==>
            down > 0 || -down == bottom || s == g
  {
    hide Scrolled, Inserted, Shifted;
    var rect := TopRegion(bottom, cols);
    var s := Scrolled(g, rows, cols, rect, down, 0, pen, lines);
    if down > 0 || -down == bottom {
      ScrollConserves(pushed, g, rows, cols, bottom, down, pen, lines);
    } else {
      BackwardLoses(g, rows, cols, bottom, down, pen, lines);
      assert pushed + [] + s == pushed + s && |s| == |g|;
      if s == g { InsertedSelf(pushed + g); }
      if Inserted(pushed + g, pushed + s) {
        InsertedSize(pushed + g, pushed + s);
        assert (pushed + g)[|pushed|..] == g && (pushed + s)[|pushed|..] == s;
      }
    }
  }

  /** Exactly when it does so whatever the screen shows. */
  lemma AlwaysConservesExactlyWhen(pushed: Grid, rows: nat, cols: nat, bottom: nat, down: int, pen: Pen,
          lines: seq<LineInfo>)
    requires |lines| == rows && 0 < bottom <= rows && cols > 0 && down != 0 && Abs(down) <= bottom
    ensures
      (forall g: Grid | IsGrid(g, rows, cols) ::
         var rect := TopRegion(bottom, cols);
         Inserted(pushed + g,
             pushed + PushedRows(g, cols, rect, down, 0, true) + Scrolled(g, rows, cols, rect, down, 0, pen, lines)))
      <==> down > 0 || -down == bottom
  {
    hide Inserted, Shifted;
    if down > 0 || -down == bottom {
      forall g: Grid | IsGrid(g, rows, cols)
        ensures
          var rect := TopRegion(bottom, cols);
          Inserted(pushed + g,
              pushed + PushedRows(g, cols, rect, down, 0, true) + Scrolled(g, rows, cols, rect, down, 0, pen, lines))
      {
        ScrollConserves(pushed, g, rows, cols, bottom, down, pen, lines);
      }
    } else {
      var g := Filled(rows, cols, Cell([65], pen));
      ConservesExactlyWhen(pushed, g, rows, cols, bottom, down, pen, lines);
      BackwardLoses(g, rows, cols, bottom, down, pen, lines);
      assert IsBlankRow(Scrolled(g, rows, cols, TopRegion(bottom, cols), down, 0, pen, lines)[0])
             && !IsBlankRow(g[0]) by {
        assert g[0][0].chars == [65];
      }
    }
  }

  // ----- whole runs -----

  /** One vertical scroll of the rows above `bottom`. */
  datatype TopScroll = TopScroll(bottom: nat, down: int)

  /** A session as a value: the rows pushed so far, then the screen and the line info of its rows. */
  datatype Session = Session(pushed: Grid, screen: Grid, lines: seq<LineInfo>) {
    predicate Fits(rows: nat, cols: nat) { IsGrid(screen, rows, cols) && |lines| == rows }

    function History(): Grid { pushed + screen }
  }

  ghost function ScrolledSession(x: Session, rows: nat, cols: nat, op: TopScroll, pen: Pen): (y: Session)
    requires x.Fits(rows, cols) && op.bottom <= rows
    ensures y.Fits(rows, cols)
  {
    var rect, down := TopRegion(op.bottom, cols), Clamp(op.down, op.bottom);
    var lines := ScrolledLines(x.lines, cols, rect, down, 0);
    if op.down == 0 then x
    else Session(x.pushed + PushedRows(x.screen, cols, rect, down, 0, true),
                 Scrolled(x.screen, rows, cols, rect, down, 0, pen, lines), lines)
  }

  ghost function SessionAfter(x: Session, rows: nat, cols: nat, ops: seq<TopScroll>, pen: Pen): (y: Session)
    requires x.Fits(rows, cols) && forall i :: 0 <= i < |ops| ==> ops[i].bottom <= rows
    ensures y.Fits(rows, cols)
  {
    if ops == [] then x
    else
      var n := |ops| - 1;
      ScrolledSession(SessionAfter(x, rows, cols, ops[..n], pen), rows, cols, ops[n], pen)
  }

  function Flags(n: nat, value: bool): (m: seq<bool>)
    ensures |m| == n && forall i :: 0 <= i < n ==> m[i] == value
  {
    seq(n, i => value)
  }

  /** Which rows of the screen hold a line of the first screen, after one more scroll. */
  function MarksAfter(m: seq<bool>, op: TopScroll): (r: seq<bool>)
    requires op.bottom <= |m|
    ensures |r| == |m|
  {
    var down := Clamp(op.down, op.bottom);
    var d := Abs(down);
    if down > 0 || d == op.bottom then m[d..op.bottom] + Flags(d, false) + m[op.bottom..]
    else Flags(d, false) + m[..op.bottom - d] + m[op.bottom..]
  }

  /** A scroll loses a line: it is backward by less than its region, and one of the rows at the bottom of the
      region holds a line of the first screen. */
  predicate Loses(m: seq<bool>, op: TopScroll)
    requires op.bottom <= |m|
  {
    && 0 < -op.down < op.bottom
    && exists i :: op.bottom + op.down <= i < op.bottom && m[i]
  }

  function MarksOf(rows: nat, ops: seq<TopScroll>): (m: seq<bool>)
    requires forall i :: 0 <= i < |ops| ==> ops[i].bottom <= rows
    ensures |m| == rows
  {
    if ops == [] then Flags(rows, true) else MarksAfter(MarksOf(rows, ops[..|ops| - 1]), ops[|ops| - 1])
  }

  predicate RunLoses(rows: nat, ops: seq<TopScroll>)
    requires forall i :: 0 <= i < |ops| ==> ops[i].bottom <= rows
  {
    exists k :: 0 <= k < |ops| && Loses(MarksOf(rows, ops[..k]), ops[k])
  }

  lemma RunLosesStep(rows: nat, ops: seq<TopScroll>)
    requires ops != [] && forall i :: 0 <= i < |ops| ==> ops[i].bottom <= rows
    ensures
      var n := |ops| - 1;
      RunLoses(rows, ops) <==> RunLoses(rows, ops[..n]) || Loses(MarksOf(rows, ops[..n]), ops[n])
  {
    hide Loses, MarksOf;
    var n := |ops| - 1;
    var before := ops[..n];
    forall k | 0 <= k < n ensures before[..k] == ops[..k] && before[k] == ops[k] { }
    if RunLoses(rows, before) {
      var k :| 0 <= k < |before| && Loses(MarksOf(rows, before[..k]), before[k]);
      assert Loses(MarksOf(rows, ops[..k]), ops[k]);
    }
    if RunLoses(rows, ops) {
      var k :| 0 <= k < |ops| && Loses(MarksOf(rows, ops[..k]), ops[k]);
      if k < n { assert Loses(MarksOf(rows, before[..k]), before[k]); }
    }
  }

  /** What one scroll of the top region does to a session, for every distance. */
  lemma SessionScrolled(x: Session, rows: nat, cols: nat, op: TopScroll, pen: Pen)
    requires x.Fits(rows, cols) && op.bottom <= rows && cols > 0
    ensures
      var y, down, g := ScrolledSession(x, rows, cols, op, pen), Clamp(op.down, op.bottom), x.screen;
      var d := Abs(down);
      && (down == 0 ==> y.pushed == x.pushed && y.screen == g)
      && (down != 0 && (down > 0 || d == op.bottom) ==>
            var blanks := BlankRows(y.lines[op.bottom - d..op.bottom], cols, pen);
            y.pushed == x.pushed + g[..d] && y.screen == g[d..op.bottom] + blanks + g[op.bottom..])
      && (down < 0 && d < op.bottom ==>
            var blanks := BlankRows(y.lines[..d], cols, pen);
            y.pushed == x.pushed && y.screen == blanks + g[..op.bottom - d] + g[op.bottom..])
  {
    var rect, down := TopRegion(op.bottom, cols), Clamp(op.down, op.bottom);
    var y := ScrolledSession(x, rows, cols, op, pen);
    if down != 0 {
      hide Scrolled, ScrolledLines, BlankRows;
      TopRegionScrolled(x.screen, rows, cols, op.bottom, down, pen, y.lines);
      assert PushedRows(x.screen, cols, rect, down, 0, true) ==
        if down > 0 || -down == op.bottom then x.screen[..Abs(down)] else [];
    } else if op.down != 0 {
      assert op.bottom == 0 && PushedRows(x.screen, cols, rect, 0, 0, true) == [];
      SameGrid(x.screen, y.screen, rows, cols);
    }
  }

  // ----- runs that lose nothing -----

  /** The marked rows, in order. */
  function Marked(g: Grid, m: seq<bool>): Grid
    requires |g| == |m|
  {
    if g == [] then [] else (if m[0] then [g[0]] else []) + Marked(g[1..], m[1..])
  }

  lemma {:induction false} MarkedJoin(g: Grid, m: seq<bool>, h: Grid, n: seq<bool>)
    requires |g| == |m| && |h| == |n|
    ensures Marked(g + h, m + n) == Marked(g, m) + Marked(h, n)
  {
    if g == [] {
      assert g + h == h && m + n == n;
    } else {
      assert (g + h)[1..] == g[1..] + h && (m + n)[1..] == m[1..] + n;
      MarkedJoin(g[1..], m[1..], h, n);
    }
  }

  lemma {:induction false} MarkedFlags(g: Grid, m: seq<bool>, value: bool)
    requires |g| == |m| && forall i :: 0 <= i < |m| ==> m[i] == value
    ensures Marked(g, m) == if value then g else []
  {
    if g != [] {
      MarkedFlags(g[1..], m[1..], value);
      assert g == [g[0]] + g[1..];
    }
  }

  ghost predicate UnmarkedBlank(g: Grid, m: seq<bool>)
    requires |g| == |m|
  {
    forall i :: 0 <= i < |g| && !m[i] ==> IsBlankRow(g[i])
  }

  lemma {:induction false} MarkedInserted(g: Grid, m: seq<bool>)
    requires |g| == |m| && UnmarkedBlank(g, m)
    ensures Inserted(Marked(g, m), g)
  {
    if g != [] {
      MarkedInserted(g[1..], m[1..]);
      var rest := Marked(g[1..], m[1..]);
      if m[0] {
        assert Marked(g, m)[1..] == rest;
      } else {
        assert [] + rest == rest;
      }
    }
  }

  /** The lines of the first screen are all in the rows pushed and the marked rows. */
  ghost predicate Carries(first: Grid, x: Session, m: seq<bool>) {
    |m| == |x.screen| && UnmarkedBlank(x.screen, m) && Inserted(first, x.pushed + Marked(x.screen, m))
  }

  lemma BlankPart(g: Grid, m: seq<bool>, lo: nat, hi: nat)
    requires |g| == |m| && UnmarkedBlank(g, m) && lo <= hi <= |g|
    ensures UnmarkedBlank(g[lo..hi], m[lo..hi])
  {
  }

  lemma BlankJoin(a: Grid, m: seq<bool>, b: Grid, n: seq<bool>)
    requires |a| == |m| && |b| == |n| && UnmarkedBlank(a, m) && UnmarkedBlank(b, n)
    ensures UnmarkedBlank(a + b, m + n)
  {
  }

  lemma MarksAreBlank(x: Session, rows: nat, cols: nat, op: TopScroll, pen: Pen, m: seq<bool>)
    requires x.Fits(rows, cols) && op.bottom <= rows == |m| && cols > 0 && UnmarkedBlank(x.screen, m)
    ensures UnmarkedBlank(ScrolledSession(x, rows, cols, op, pen).screen, MarksAfter(m, op))
  {
    hide ScrolledSession, IsBlankRow, BlankRows, UnmarkedBlank;
    var y, g, down, bottom := ScrolledSession(x, rows, cols, op, pen), x.screen, Clamp(op.down, op.bottom), op.bottom;
    var d := Abs(down);
    var none := Flags(d, false);
    SessionScrolled(x, rows, cols, op, pen);
    BlankPart(g, m, bottom, rows);
    assert g[bottom..rows] == g[bottom..] && m[bottom..rows] == m[bottom..];
    if down == 0 {
      assert MarksAfter(m, op) == m;
    } else if down > 0 || d == bottom {
      var blanks := BlankRows(y.lines[bottom - d..bottom], cols, pen);
      AllBlank(blanks, none);
      BlankPart(g, m, d, bottom);
      BlankJoin(g[d..bottom], m[d..bottom], blanks, none);
      BlankJoin(g[d..bottom] + blanks, m[d..bottom] + none, g[bottom..], m[bottom..]);
    } else {
      var blanks := BlankRows(y.lines[..d], cols, pen);
      AllBlank(blanks, none);
      BlankPart(g, m, 0, bottom - d);
      BlankJoin(blanks, none, g[..bottom - d], m[..bottom - d]);
      BlankJoin(blanks + g[..bottom - d], none + m[..bottom - d], g[bottom..], m[bottom..]);
    }
  }

  lemma AllBlank(g: Grid, m: seq<bool>)
    requires |g| == |m| && (forall i :: 0 <= i < |g| ==> IsBlankRow(g[i])) && forall i :: 0 <= i < |m| ==> !m[i]
    ensures UnmarkedBlank(g, m) && Tells(g, m)
  {
  }

  lemma ForwardCarries(first: Grid, pushed: Grid, g: Grid, m: seq<bool>, d: nat, bottom: nat, blanks: Grid)
    requires |g| == |m| && d <= bottom <= |g| && |blanks| == d && UnmarkedBlank(g, m)
    requires Inserted(first, pushed + Marked(g, m))
    ensures
      Inserted(first, pushed + g[..d] + Marked(g[d..bottom] + blanks + g[bottom..],
          m[d..bottom] + Flags(d, false) + m[bottom..]))
  {
    hide Inserted, Marked;
    var middle := Marked(g[d..bottom], m[d..bottom]);
    var rest := middle + Marked(g[bottom..], m[bottom..]);
    Pieces(g, m, d, bottom);
    MarkedJoin(g[d..bottom], m[d..bottom], blanks, Flags(d, false));
    MarkedFlags(blanks, Flags(d, false), false);
    MarkedJoin(g[d..bottom] + blanks, m[d..bottom] + Flags(d, false), g[bottom..], m[bottom..]);
    assert middle + [] == middle;
    MarkedInserted(g[..d], m[..d]);
    InsertedSelf(pushed);
    InsertedSelf(rest);
    InsertedJoin(pushed, pushed, Marked(g[..d], m[..d]), g[..d]);
    InsertedJoin(pushed + Marked(g[..d], m[..d]), pushed + g[..d], rest, rest);
    assert pushed + Marked(g, m) == pushed + Marked(g[..d], m[..d]) + rest;
    InsertedThen(first, pushed + Marked(g, m), pushed + g[..d] + rest);
  }

  lemma Pieces(g: Grid, m: seq<bool>, d: nat, bottom: nat)
    requires |g| == |m| && d <= bottom <= |g|
    ensures Marked(g, m) == Marked(g[..d], m[..d]) + (Marked(g[d..bottom], m[d..bottom])
                + Marked(g[bottom..], m[bottom..]))
  {
    hide Marked;
    MarkedJoin(g[d..bottom], m[d..bottom], g[bottom..], m[bottom..]);
    MarkedJoin(g[..d], m[..d], g[d..bottom] + g[bottom..], m[d..bottom] + m[bottom..]);
    assert g == g[..d] + (g[d..bottom] + g[bottom..]) && m == m[..d] + (m[d..bottom] + m[bottom..]);
  }

  lemma BackwardCarries(g: Grid, m: seq<bool>, d: nat, bottom: nat, blanks: Grid)
    requires |g| == |m| && d <= bottom <= |g| && |blanks| == d && forall i :: bottom - d <= i < bottom ==> !m[i]
    ensures
      Marked(blanks + g[..bottom - d] + g[bottom..], Flags(d, false) + m[..bottom - d] + m[bottom..]) == Marked(g, m)
  {
    hide *;
    var kept := bottom - d;
    var none := Flags(d, false);
    var top, low := Marked(g[..kept], m[..kept]), Marked(g[bottom..], m[bottom..]);
    Pieces(g, m, kept, bottom);
    MarkedFlags(g[kept..bottom], m[kept..bottom], false);
    assert [] + low == low;
    MarkedFlags(blanks, none, false);
    MarkedJoin(blanks, none, g[..kept], m[..kept]);
    assert [] + top == top;
    MarkedJoin(blanks + g[..kept], none + m[..kept], g[bottom..], m[bottom..]);
  }

  lemma CarriesOn(first: Grid, x: Session, rows: nat, cols: nat, op: TopScroll, pen: Pen, m: seq<bool>)
    requires x.Fits(rows, cols) && op.bottom <= rows && cols > 0 && Carries(first, x, m) && !Loses(m, op)
    ensures Carries(first, ScrolledSession(x, rows, cols, op, pen), MarksAfter(m, op))
  {
    hide Inserted, Marked, UnmarkedBlank, ScrolledSession, BlankRows;
    var y, down := ScrolledSession(x, rows, cols, op, pen), Clamp(op.down, op.bottom);
    var d := Abs(down);
    MarksAreBlank(x, rows, cols, op, pen, m);
    SessionScrolled(x, rows, cols, op, pen);
    if down == 0 {
      assert MarksAfter(m, op) == m;
    } else if down > 0 || d == op.bottom {
      ForwardCarries(first, x.pushed, x.screen, m, d, op.bottom,
          BlankRows(y.lines[op.bottom - d..op.bottom], cols, pen));
    } else {
      BackwardCarries(x.screen, m, d, op.bottom, BlankRows(y.lines[..d], cols, pen));
    }
  }

  lemma {:induction false} RunCarries(x: Session, rows: nat, cols: nat, ops: seq<TopScroll>, pen: Pen)
    requires x.Fits(rows, cols) && cols > 0 && forall i :: 0 <= i < |ops| ==> ops[i].bottom <= rows
    requires !RunLoses(rows, ops)
    ensures Carries(x.History(), SessionAfter(x, rows, cols, ops, pen), MarksOf(rows, ops))
    decreases |ops|
  {
    hide Inserted, Marked, ScrolledSession, MarksAfter, RunLoses, Loses;
    if ops == [] {
      MarkedFlags(x.screen, Flags(rows, true), true);
      InsertedSelf(x.History());
    } else {
      var n := |ops| - 1;
      RunLosesStep(rows, ops);
      RunCarries(x, rows, cols, ops[..n], pen);
      CarriesOn(x.History(), SessionAfter(x, rows, cols, ops[..n], pen), rows, cols, ops[n], pen,
          MarksOf(rows, ops[..n]));
    }
  }

  /** A run that loses no line of the first screen keeps the whole history, with blank rows inserted. */
  lemma RunConserves(x: Session, rows: nat, cols: nat, ops: seq<TopScroll>, pen: Pen)
    requires x.Fits(rows, cols) && cols > 0 && forall i :: 0 <= i < |ops| ==> ops[i].bottom <= rows
    requires !RunLoses(rows, ops)
    ensures Inserted(x.History(), SessionAfter(x, rows, cols, ops, pen).History())
  {
    hide Inserted, Marked, SessionAfter, MarksOf, RunLoses;
    var y, m := SessionAfter(x, rows, cols, ops, pen), MarksOf(rows, ops);
    RunCarries(x, rows, cols, ops, pen);
    MarkedInserted(y.screen, m);
    InsertedSelf(y.pushed);
    InsertedJoin(y.pushed, y.pushed, Marked(y.screen, m), y.screen);
    InsertedThen(x.History(), y.pushed + Marked(y.screen, m), y.History());
  }

  // ----- runs that lose a line -----

  function Texts(g: Grid): nat {
    if g == [] then 0 else (if IsBlankRow(g[0]) then 0 else 1) + Texts(g[1..])
  }

  lemma {:induction false} TextsJoin(a: Grid, b: Grid)
    ensures Texts(a + b) == Texts(a) + Texts(b)
  {
    hide IsBlankRow;
    if a == [] {
      assert a + b == b;
    } else {
      assert (a + b)[1..] == a[1..] + b;
      TextsJoin(a[1..], b);
    }
  }

  lemma {:induction false} TextsInserted(a: Grid, b: Grid)
    requires Inserted(a, b)
    ensures Texts(a) == Texts(b)
  {
    hide IsBlankRow;
    if b != [] {
      if a != [] && a[0] == b[0] && Inserted(a[1..], b[1..]) {
        TextsInserted(a[1..], b[1..]);
      } else {
        TextsInserted(a, b[1..]);
      }
    }
  }

  lemma {:induction false} TextsBlank(g: Grid)
    requires forall i :: 0 <= i < |g| ==> IsBlankRow(g[i])
    ensures Texts(g) == 0
  {
    if g != [] { TextsBlank(g[1..]); }
  }

  lemma {:induction false} TextsSome(g: Grid, i: nat)
    requires i < |g| && !IsBlankRow(g[i])
    ensures Texts(g) > 0
  {
    if i > 0 { TextsSome(g[1..], i - 1); }
  }

  lemma TextsPieces(g: Grid, d: nat, bottom: nat)
    requires d <= bottom <= |g|
    ensures Texts(g) == Texts(g[..d]) + Texts(g[d..bottom]) + Texts(g[bottom..])
  {
    hide Texts;
    TextsJoin(g[..d], g[d..bottom]);
    TextsJoin(g[..d] + g[d..bottom], g[bottom..]);
    assert g == g[..d] + g[d..bottom] + g[bottom..];
  }

  /** The marked rows have text and the others have none. */
  ghost predicate Tells(g: Grid, m: seq<bool>) {
    |g| == |m| && forall i :: 0 <= i < |g| ==> (m[i] <==> !IsBlankRow(g[i]))
  }

  lemma TellsPart(g: Grid, m: seq<bool>, lo: nat, hi: nat)
    requires Tells(g, m) && lo <= hi <= |g|
    ensures Tells(g[lo..hi], m[lo..hi])
  {
  }

  lemma TellsJoin(a: Grid, m: seq<bool>, b: Grid, n: seq<bool>)
    requires Tells(a, m) && Tells(b, n)
    ensures Tells(a + b, m + n)
  {
  }

  lemma TellsOn(x: Session, rows: nat, cols: nat, op: TopScroll, pen: Pen, m: seq<bool>)
    requires x.Fits(rows, cols) && op.bottom <= rows && cols > 0 && |m| == rows && Tells(x.screen, m)
    ensures Tells(ScrolledSession(x, rows, cols, op, pen).screen, MarksAfter(m, op))
  {
    hide ScrolledSession, IsBlankRow, BlankRows, Tells;
    var y, g, down, bottom := ScrolledSession(x, rows, cols, op, pen), x.screen, Clamp(op.down, op.bottom), op.bottom;
    var d := Abs(down);
    var none := Flags(d, false);
    SessionScrolled(x, rows, cols, op, pen);
    TellsPart(g, m, bottom, rows);
    assert g[bottom..rows] == g[bottom..] && m[bottom..rows] == m[bottom..];
    if down == 0 {
      assert MarksAfter(m, op) == m;
    } else if down > 0 || d == bottom {
      var blanks := BlankRows(y.lines[bottom - d..bottom], cols, pen);
      AllBlank(blanks, none);
      TellsPart(g, m, d, bottom);
      TellsJoin(g[d..bottom], m[d..bottom], blanks, none);
      TellsJoin(g[d..bottom] + blanks, m[d..bottom] + none, g[bottom..], m[bottom..]);
    } else {
      var blanks := BlankRows(y.lines[..d], cols, pen);
      AllBlank(blanks, none);
      TellsPart(g, m, 0, bottom - d);
      TellsJoin(blanks, none, g[..bottom - d], m[..bottom - d]);
      TellsJoin(blanks + g[..bottom - d], none + m[..bottom - d], g[bottom..], m[bottom..]);
    }
  }

  /** A scroll never adds text, and a scroll that loses a line takes some away. */
  lemma TextsAfter(x: Session, rows: nat, cols: nat, op: TopScroll, pen: Pen, m: seq<bool>)
    requires x.Fits(rows, cols) && op.bottom <= rows && cols > 0 && Tells(x.screen, m)
    ensures
      var y := ScrolledSession(x, rows, cols, op, pen);
      Texts(y.History()) <= Texts(x.History()) && (Loses(m, op) ==> Texts(y.History()) < Texts(x.History()))
  {
    hide ScrolledSession, IsBlankRow, Texts, BlankRows;
    var y, down, g := ScrolledSession(x, rows, cols, op, pen), Clamp(op.down, op.bottom), x.screen;
    var d, bottom := Abs(down), op.bottom;
    SessionScrolled(x, rows, cols, op, pen);
    TextsJoin(x.pushed, g);
    TextsJoin(y.pushed, y.screen);
    if down != 0 && (down > 0 || d == bottom) {
      var blanks := BlankRows(y.lines[bottom - d..bottom], cols, pen);
      TextsBlank(blanks);
      TextsJoin(x.pushed, g[..d]);
      TextsPieces(g, d, bottom);
      TextsJoin(g[d..bottom], blanks);
      TextsJoin(g[d..bottom] + blanks, g[bottom..]);
    } else if down < 0 {
      var blanks := BlankRows(y.lines[..d], cols, pen);
      TextsBlank(blanks);
      TextsPieces(g, bottom - d, bottom);
      TextsJoin(blanks, g[..bottom - d]);
      TextsJoin(blanks + g[..bottom - d], g[bottom..]);
      if Loses(m, op) {
        var i :| bottom + op.down <= i < bottom && m[i];
        assert g[bottom - d..bottom][i - (bottom - d)] == g[i];
        TextsSome(g[bottom - d..bottom], i - (bottom - d));
      }
    }
  }

  lemma {:induction false} RunTexts(x: Session, rows: nat, cols: nat, ops: seq<TopScroll>, pen: Pen)
    requires x.Fits(rows, cols) && cols > 0 && forall i :: 0 <= i < |ops| ==> ops[i].bottom <= rows
    requires Tells(x.screen, Flags(rows, true))
    ensures
      var y := SessionAfter(x, rows, cols, ops, pen);
      && Tells(y.screen, MarksOf(rows, ops))
      && Texts(y.History()) <= Texts(x.History())
      && (RunLoses(rows, ops) ==> Texts(y.History()) < Texts(x.History()))
    decreases |ops|
  {
    hide Tells, Texts, ScrolledSession, MarksAfter, Loses;
    if ops != [] {
      hide RunLoses;
      var n := |ops| - 1;
      RunLosesStep(rows, ops);
      RunTexts(x, rows, cols, ops[..n], pen);
      TellsOn(SessionAfter(x, rows, cols, ops[..n], pen), rows, cols, ops[n], pen, MarksOf(rows, ops[..n]));
      TextsAfter(SessionAfter(x, rows, cols, ops[..n], pen), rows, cols, ops[n], pen, MarksOf(rows, ops[..n]));
    }
  }

  /** Exactly when a run of scrolls of regions from row 0 conserves the lines of every screen. */
  lemma RunConservesExactlyWhen(pushed: Grid, lines: seq<LineInfo>, cols: nat, ops: seq<TopScroll>, pen: Pen)
    requires cols > 0 && forall i :: 0 <= i < |ops| ==> ops[i].bottom <= |lines|
    ensures
      (forall g: Grid | IsGrid(g, |lines|, cols) ::
         Inserted(pushed + g, SessionAfter(Session(pushed, g, lines), |lines|, cols, ops, pen).History()))
      <==> !RunLoses(|lines|, ops)
  {
    hide Inserted, SessionAfter, RunLoses;
    if RunLoses(|lines|, ops) {
      var g := Filled(|lines|, cols, Cell([65], pen));
      assert Tells(g, Flags(|lines|, true)) by {
        assert forall r :: 0 <= r < |g| ==> g[r][0].chars == [65];
      }
      RunTexts(Session(pushed, g, lines), |lines|, cols, ops, pen);
      if Inserted(pushed + g, SessionAfter(Session(pushed, g, lines), |lines|, cols, ops, pen).History()) {
        TextsInserted(pushed + g, SessionAfter(Session(pushed, g, lines), |lines|, cols, ops, pen).History());
      }
    } else {
      forall g: Grid | IsGrid(g, |lines|, cols)
        ensures Inserted(pushed + g, SessionAfter(Session(pushed, g, lines), |lines|, cols, ops, pen).History())
      {
        RunConserves(Session(pushed, g, lines), |lines|, cols, ops, pen);
      }
    }
  }

  // ----- the ring -----

  function LastOf<T>(s: seq<T>, n: nat): seq<T> { if |s| <= n then s else s[|s| - n..] }

  function Rendered(render: Row -> string, rows: Grid): (r: seq<string>)
    ensures |r| == |rows|
  {
    seq(|rows|, i requires 0 <= i < |rows| => render(rows[i]))
  }

  /** The lines kept after `rows` have been pushed; in the alternate screen the host ignores them. */
  function KeptAfter(render: Row -> string, ignored: bool, before: seq<string>, rows: Grid): seq<string> {
    if ignored then before else before + Rendered(render, rows)
  }

  lemma KeptThen(render: Row -> string, ignored: bool, before: seq<string>, a: Grid, b: Grid)
    ensures KeptAfter(render, ignored, KeptAfter(render, ignored, before, a), b)
            == KeptAfter(render, ignored, before, a + b)
    ensures KeptAfter(render, ignored, before, []) == before
  {
    assert Rendered(render, a + b) == Rendered(render, a) + Rendered(render, b);
  }

  class ScrollingTerminal {
    const screen: ScreenBuffer
    var altscreen: bool                  // the screen layer shows its second buffer
    const render: Row -> string
    const maxScrollback: nat
    var alternateScreen: bool            // the host has been told so
    var scrollback: seq<string>

    ghost var pushed: Grid               // every row pushed so far
    ghost var kept: seq<string>          // every line the host did not ignore

    ghost predicate Valid()
      reads this, screen
    {
      screen.Valid() && scrollback == LastOf(kept, maxScrollback)
    }

    ghost function Now(): (x: Session)
      requires Valid()
      reads this, screen, screen.cells
      ensures x.Fits(screen.rows, screen.cols)
    {
      Session(pushed, screen.Screen(), screen.lineinfo)
    }

    constructor (screen: ScreenBuffer, render: Row -> string, maxScrollback: nat)
      requires screen.Valid()
      ensures Valid() && this.screen == screen && this.render == render && this.maxScrollback == maxScrollback
      ensures pushed == [] && kept == [] && !altscreen && !alternateScreen
    {
      this.screen, this.render, this.maxScrollback := screen, render, maxScrollback;
      altscreen, alternateScreen, scrollback, pushed, kept := false, false, [], [], [];
    }

    /** The host's callback for a pushed line: keeps the last `maxScrollback` lines. */
    method OnPushLine(line: string)
      requires Valid()
      modifies this`scrollback, this`kept
      ensures Valid() && kept == if alternateScreen then old(kept) else old(kept) + [line]
    {
      if !alternateScreen {
        scrollback := scrollback + [line];
        kept := kept + [line];
        if |scrollback| > maxScrollback {
          scrollback := scrollback[1..];
        }
      }
    }

    /** Pushes one row of the screen, cell by cell. */
    method PushRow(row: nat)
      requires Valid() && row < screen.rows
      modifies this`scrollback, this`kept, this`pushed
      ensures Valid() && pushed == old(pushed) + [screen.Screen()[row]]
      ensures kept == KeptAfter(render, alternateScreen, old(kept), [screen.Screen()[row]])
    {
      var buffer: Row := [];
      for col := 0 to screen.cols
        invariant buffer == screen.Screen()[row][..col]
      {
        buffer := buffer + [screen.cells[row, col]];
      }
      assert buffer == screen.Screen()[row];
      pushed := pushed + [buffer];
      OnPushLine(render(buffer));
    }

    /** Before cells are destroyed: pushes the rows from the top if whole lines at the top are. */
    method Premove(rect: Rect)
      requires Valid() && rect.endRow <= screen.rows
      modifies this`scrollback, this`kept, this`pushed
      ensures Valid() && pushed == old(pushed) + Premoved(screen.Screen(), screen.cols, rect, !altscreen)
      ensures kept == KeptAfter(render, alternateScreen, old(kept),
              Premoved(screen.Screen(), screen.cols, rect, !altscreen))
    {
      hide KeptAfter, LastOf;
      KeptThen(render, alternateScreen, kept, [], []);
      if rect.startRow == 0 && rect.startCol == 0 && rect.endCol == screen.cols && !altscreen {
        var row := 0;
        while row < rect.endRow
          invariant Valid() && 0 <= row && (row <= rect.endRow || row == 0)
                    && pushed == old(pushed) + screen.Screen()[..row]
          invariant kept == KeptAfter(render, alternateScreen, old(kept), screen.Screen()[..row])
        {
          PushRow(row);
          KeptThen(render, alternateScreen, old(kept), screen.Screen()[..row], [screen.Screen()[row]]);
          assert screen.Screen()[..row + 1] == screen.Screen()[..row] + [screen.Screen()[row]];
          row := row + 1;
        }
      }
    }

    /** Moves the line info of whole lines along with them. */
    method ScrollLineinfo(rect: Rect, down: int, right: int)
      requires Valid() && rect.In(screen.rows, screen.cols) && Abs(down) <= rect.endRow - rect.startRow
      modifies screen`lineinfo
      ensures Valid() && screen.lineinfo == ScrolledLines(old(screen.lineinfo), screen.cols, rect, down, right)
    {
      if rect.startCol == 0 && rect.endCol == screen.cols && right == 0 {
        var lines, top, bottom := screen.lineinfo, rect.startRow, rect.endRow;
        var height := bottom - top - Abs(down);
        if down > 0 {
          screen.lineinfo := lines[..top] + lines[top + down..top + down + height] + seq(down, i => PLAIN_LINE)
              + lines[bottom..];
        } else {
          screen.lineinfo := lines[..top] + seq(-down, i => PLAIN_LINE) + lines[top..top + height] + lines[bottom..];
        }
      }
    }

    /** Announces the rows a vertical scroll is about to destroy. */
    method PremoveRows(rect: Rect, down: int)
      requires Valid() && rect.In(screen.rows, screen.cols) && Abs(down) <= rect.endRow - rect.startRow
      modifies this`scrollback, this`kept, this`pushed
      ensures Valid() && pushed == old(pushed) + PushedVertically(screen.Screen(), screen.cols, rect, down, !altscreen)
      ensures kept == KeptAfter(render, alternateScreen, old(kept),
              PushedVertically(screen.Screen(), screen.cols, rect, down, !altscreen))
    {
      hide LastOf, KeptAfter, Premoved;
      KeptThen(render, alternateScreen, kept, [], []);
      if down > 0 {
        Premove(Rect(rect.startRow, rect.startRow + down, rect.startCol, rect.endCol));
      } else if down < 0 {
        Premove(Rect(rect.endRow + down, rect.endRow, rect.startCol, rect.endCol));
      }
    }

    /** Announces the columns a horizontal scroll is about to destroy. */
    method PremoveCols(rect: Rect, right: int)
      requires Valid() && rect.In(screen.rows, screen.cols)
      modifies this`scrollback, this`kept, this`pushed
      ensures Valid() && pushed == old(pushed) + PushedSideways(screen.Screen(), screen.cols, rect, right, !altscreen)
      ensures kept == KeptAfter(render, alternateScreen, old(kept),
              PushedSideways(screen.Screen(), screen.cols, rect, right, !altscreen))
    {
      hide LastOf, KeptAfter, Premoved;
      KeptThen(render, alternateScreen, kept, [], []);
      if right > 0 {
        Premove(Rect(rect.startRow, rect.endRow, rect.startCol, rect.startCol + right));
      } else if right < 0 {
        Premove(Rect(rect.startRow, rect.endRow, rect.endCol + right, rect.endCol));
      }
    }

    /** Scrolls a rectangle. */
    method Scroll(rect: Rect, downward: int, rightward: int)
      requires Valid() && rect.In(screen.rows, screen.cols)
      modifies this`scrollback, this`kept, this`pushed, screen`lineinfo, screen.cells
      ensures Valid()
      ensures downward == 0 && rightward == 0 ==>
                pushed == old(pushed) && kept == old(kept) && screen.Screen() == old(screen.Screen())
                    && screen.lineinfo == old(screen.lineinfo)
      ensures downward != 0 || rightward != 0 ==>
                var down, right := Clamp(downward, rect.endRow - rect.startRow),
                    Clamp(rightward, rect.endCol - rect.startCol);
                && pushed == old(pushed) + PushedRows(old(screen.Screen()), screen.cols, rect, down, right, !altscreen)
                && kept == KeptAfter(render, alternateScreen, old(kept),
                    PushedRows(old(screen.Screen()), screen.cols, rect, down, right, !altscreen))
                && screen.lineinfo == ScrolledLines(old(screen.lineinfo), screen.cols, rect, down, right)
                && screen.Screen() == Scrolled(old(screen.Screen()), screen.rows, screen.cols, rect, down, right,
                    screen.pen, screen.lineinfo)
    {
      hide Scrolled, ScrolledLines, PushedVertically, PushedSideways, KeptAfter, LastOf;
      if downward == 0 && rightward == 0 {
        return;
      }
      var down := Clamp(downward, rect.endRow - rect.startRow);
      var right := Clamp(rightward, rect.endCol - rect.startCol);
      KeptThen(render, alternateScreen, kept, PushedVertically(screen.Screen(), screen.cols, rect, down, !altscreen),
               PushedSideways(screen.Screen(), screen.cols, rect, right, !altscreen));
      PremoveRows(rect, down);
      PremoveCols(rect, right);
      ScrollLineinfo(rect, down, right);
      screen.ScrollRect(rect, down, right);
    }

    /** Any run of whole-line scrolls of regions starting at row 0 of the primary screen: the ring holds the last
        lines pushed. If the run loses no line of the screen it starts with, the history of the session is the old
        history with blank rows inserted. */
    method ScrollAll(ops: seq<TopScroll>)
      requires Valid() && !altscreen && screen.cols > 0 && forall i :: 0 <= i < |ops| ==> ops[i].bottom <= screen.rows
      modifies this`scrollback, this`kept, this`pushed, screen`lineinfo, screen.cells
      ensures Valid() && old(pushed) <= pushed
      ensures Now() == SessionAfter(old(Now()), screen.rows, screen.cols, ops, screen.pen)
      ensures !RunLoses(screen.rows, ops) ==> Inserted(old(Now()).History(), Now().History())
      ensures scrollback == LastOf(KeptAfter(render, alternateScreen, old(kept), pushed[|old(pushed)|..]),
              maxScrollback)
    {
      hide KeptAfter, LastOf, Scrolled, ScrolledLines, Inserted, RunLoses, PushedRows;
      KeptThen(render, alternateScreen, kept, [], []);
      assert pushed[|pushed|..] == [];
      for i := 0 to |ops|
        invariant Valid() && old(pushed) <= pushed
        invariant Now() == SessionAfter(old(Now()), screen.rows, screen.cols, ops[..i], screen.pen)
        invariant kept == KeptAfter(render, alternateScreen, old(kept), pushed[|old(pushed)|..])
      {
        ghost var before := pushed;
        Scroll(TopRegion(ops[i].bottom, screen.cols), ops[i].down, 0);
        assert ops[..i + 1][..i] == ops[..i];
        if ops[i].down != 0 {
          KeptThen(render, alternateScreen, old(kept), before[|old(pushed)|..], pushed[|before|..]);
          assert pushed[|old(pushed)|..] == before[|old(pushed)|..] + pushed[|before|..];
        }
      }
      assert ops[..|ops|] == ops;
      if !RunLoses(screen.rows, ops) {
        RunConserves(old(Now()), screen.rows, screen.cols, ops, screen.pen);
      }
    }
  }
}
