/** Rendering a row of the screen as text with SGR sequences, and what a terminal makes of it. */
module Render {
  import opened Cells
  import opened PenState
  import P = ParserRules
  import Utf8

  type Byte = P.Byte

  /** The attributes the renderer knows. */
  datatype Look = Look(bold: bool, underline: nat, italic: bool, blink: bool, reverse: bool, conceal: bool,
      strike: bool)

  /** A cell as the renderer reads it: wide-glyph padding has no characters. */
  datatype Shown = Shown(chars: seq<nat>, look: Look, fg: Color, bg: Color)

  /** The pen that would draw the cell. */
  function InkOf(c: Shown): Ink {
    Ink(Attrs(c.look.bold, c.look.underline, c.look.italic, c.look.blink, c.look.reverse, c.look.conceal, c.look.strike,
        0, false, 0), c.fg, c.bg)
  }

  predicate SameInk(a: Shown, b: Shown) { a.look == b.look && a.fg == b.fg && a.bg == b.bg }

  // ----- the codes between two cells -----

  function Code(b: bool, n: nat): (r: seq<nat>)
    ensures |r| == if b then 1 else 0
  {
    if b then [n] else []
  }

  function ColourCodes(c: Color, fg: bool): (r: seq<nat>)
    ensures |r| <= 5
  {
    if (fg && c.defaultFg) || (!fg && c.defaultBg) then []
    else
      match c
      case Indexed(idx, _, _) =>
        if idx < 8 then [(if fg then 30 else 40) + idx]
        else if idx < 16 then [(if fg then 90 else 100) + idx - 8]
        else [if fg then 38 else 48, 5, idx]
      case Rgb(r, g, b, _, _) => [if fg then 38 else 48, 2, r, g, b]
  }

  function LookCodes(l: Look, rest: seq<nat>): (r: seq<nat>)
    ensures |r| <= 5 + |rest|
  {
    Code(l.bold, 1) + (Code(l.italic, 3) + LineCodes(l, rest))
  }

  function LineCodes(l: Look, rest: seq<nat>): (r: seq<nat>)
    ensures |r| <= 3 + |rest|
  {
    Code(l.underline == 1, 4) + LateCodes(l, rest)
  }

  function LateCodes(l: Look, rest: seq<nat>): (r: seq<nat>)
    ensures |r| <= 2 + |rest|
  {
    Code(l.reverse, 7) + (Code(l.strike, 9) + rest)
  }

  predicate HasAttrs(c: Shown) {
    c.look.bold || c.look.italic || c.look.underline > 0 || c.look.reverse || c.look.strike || !c.fg.defaultFg
        || !c.bg.defaultBg
  }

  /** Something that can only be turned off by resetting everything is to be turned off. */
  predicate NeedReset(last: Shown, c: Shown) {
    || (last.look.bold && !c.look.bold) || (last.look.italic && !c.look.italic)
    || (last.look.underline > 0 && c.look.underline == 0) || (last.look.reverse && !c.look.reverse)
    || (!last.fg.defaultFg && c.fg.defaultFg) || (!last.bg.defaultBg && c.bg.defaultBg)
  }

  predicate Resets(last: Shown, c: Shown, first: bool) { if first then HasAttrs(c) else NeedReset(last, c) }

  function Codes(last: Shown, c: Shown, first: bool): seq<nat> {
    Code(Resets(last, c, first), 0) + LookCodes(c.look, ColourCodes(c.fg, true) + ColourCodes(c.bg, false))
  }

  /** The parameters of one sequence fit the parser's argument array. */
  lemma CodesFit(last: Shown, c: Shown, first: bool)
    ensures |Codes(last, c, first)| <= P.CSI_ARGS_MAX
  {
  }

  // ----- what the codes do -----

  function Params(codes: seq<nat>): (r: seq<P.Arg>)
    ensures |r| == |codes|
  {
    seq(|codes|, i requires 0 <= i < |codes| => Plain(codes[i]))
  }

  lemma ParamsThen(a: seq<nat>, b: seq<nat>)
    ensures Params(a + b) == Params(a) + Params(b)
  {
  }

  lemma SgrCode(p: Ink, b: bool, n: nat, rest: seq<nat>, pal: Palette)
    requires 1 <= n <= 29 && !pal.boldIsHighbright
    ensures Sgr(p, Params(Code(b, n) + rest), pal)
            == Sgr(if b then p.(attrs := AttrEffect(p.attrs, [Plain(n)])) else p, Params(rest), pal)
  {
    hide Sgr, AttrEffect;
    ParamsThen(Code(b, n), rest);
    assert Params(Code(b, n)) == When(b, n);
    SgrAttrWhen(p, b, n, Params(rest), pal);
  }

  lemma SgrColourCodes(p: Ink, c: Color, fg: bool, rest: seq<nat>, pal: Palette)
    requires ByteColour(c) && !pal.boldIsHighbright
    ensures Sgr(p, Params(ColourCodes(c, fg) + rest), pal) == Sgr(WithColour(p, c, fg), Params(rest), pal)
  {
    hide Sgr;
    ParamsThen(ColourCodes(c, fg), rest);
    var code := if fg then 38 else 48;
    match c
    case Indexed(idx, _, _) =>
      if idx < 16 {
        assert Params(ColourCodes(c, fg)) == ColourArgs(c, fg);
        SgrColour(p, c, fg, Params(rest), pal);
      } else {
        assert Params(ColourCodes(c, fg)) == [Plain(code), Plain(5), Plain(idx)];
        SgrIndexed(p, Plain(code), Plain(5), idx, Params(rest), pal);
      }
    case Rgb(r, g, b, _, _) =>
      assert Params(ColourCodes(c, fg)) == [Plain(code), Plain(2), Plain(r), Plain(g), Plain(b)];
      SgrRgb(p, Plain(code), Plain(2), Plain(r), Plain(g), b, Params(rest), pal);
  }

  function BoldOn(a: Attrs, b: bool): Attrs { a.(bold := a.bold || b) }

  function ItalicOn(a: Attrs, b: bool): Attrs { a.(italic := a.italic || b) }

  function LineOn(a: Attrs, l: Look): Attrs {
    a.(underline := if l.underline == 1 then 1 else a.underline, reverse := a.reverse || l.reverse,
        strike := a.strike || l.strike)
  }

  /** Attributes are only turned on. */
  function TurnedOn(a: Attrs, l: Look): Attrs { LineOn(ItalicOn(BoldOn(a, l.bold), l.italic), l) }

  lemma SgrLate(p: Ink, l: Look, rest: seq<nat>, pal: Palette)
    requires !pal.boldIsHighbright
    ensures
      Sgr(p, Params(LateCodes(l, rest)), pal)
      == Sgr(p.(attrs := p.attrs.(reverse := p.attrs.reverse || l.reverse, strike := p.attrs.strike || l.strike)),
          Params(rest), pal)
  {
    hide Sgr, Code;
    SgrCode(p, l.reverse, 7, Code(l.strike, 9) + rest, pal);
    SgrCode(p.(attrs := p.attrs.(reverse := p.attrs.reverse || l.reverse)), l.strike, 9, rest, pal);
  }

  lemma SgrBold(p: Ink, b: bool, rest: seq<nat>, pal: Palette)
    requires !pal.boldIsHighbright
    ensures Sgr(p, Params(Code(b, 1) + rest), pal) == Sgr(p.(attrs := BoldOn(p.attrs, b)), Params(rest), pal)
  {
    SgrCode(p, b, 1, rest, pal);
  }

  lemma SgrItalic(p: Ink, b: bool, rest: seq<nat>, pal: Palette)
    requires !pal.boldIsHighbright
    ensures Sgr(p, Params(Code(b, 3) + rest), pal) == Sgr(p.(attrs := ItalicOn(p.attrs, b)), Params(rest), pal)
  {
    SgrCode(p, b, 3, rest, pal);
  }

  lemma SgrLine(p: Ink, l: Look, rest: seq<nat>, pal: Palette)
    requires !pal.boldIsHighbright
    ensures Sgr(p, Params(LineCodes(l, rest)), pal) == Sgr(p.(attrs := LineOn(p.attrs, l)), Params(rest), pal)
  {
    hide Sgr, Code, LateCodes;
    SgrCode(p, l.underline == 1, 4, LateCodes(l, rest), pal);
    SgrLate(p.(attrs := p.attrs.(underline := if l.underline == 1 then 1 else p.attrs.underline)), l, rest, pal);
  }

  lemma SgrLook(p: Ink, l: Look, rest: seq<nat>, pal: Palette)
    requires !pal.boldIsHighbright
    ensures Sgr(p, Params(LookCodes(l, rest)), pal) == Sgr(p.(attrs := TurnedOn(p.attrs, l)), Params(rest), pal)
  {
    hide Sgr, Code, LineCodes, BoldOn, ItalicOn, LineOn;
    SgrBold(p, l.bold, Code(l.italic, 3) + LineCodes(l, rest), pal);
    var q := p.(attrs := BoldOn(p.attrs, l.bold));
    SgrItalic(q, l.italic, LineCodes(l, rest), pal);
    SgrLine(q.(attrs := ItalicOn(q.attrs, l.italic)), l, rest, pal);
  }

  /** A default colour is the terminal's; any other is a plain one. */
  predicate ColoursOk(c: Shown, pal: Palette) {
    && (if c.fg.defaultFg then c.fg == pal.defaultFg else ByteColour(c.fg))
    && (if c.bg.defaultBg then c.bg == pal.defaultBg else ByteColour(c.bg))
  }

  lemma SgrColours(p: Ink, c: Shown, pal: Palette)
    requires ColoursOk(c, pal) && !pal.boldIsHighbright
    ensures
      Sgr(p, Params(ColourCodes(c.fg, true) + ColourCodes(c.bg, false)), pal)
      == p.(fg := if c.fg.defaultFg then p.fg else c.fg, bg := if c.bg.defaultBg then p.bg else c.bg)
  {
    hide ColourCodes;
    var back := ColourCodes(c.bg, false);
    var q := p.(fg := if c.fg.defaultFg then p.fg else c.fg);
    if c.fg.defaultFg {
      NoCodes(c.fg, true);
      assert ColourCodes(c.fg, true) + back == back;
    } else {
      SgrColourCodes(p, c.fg, true, back, pal);
    }
    if c.bg.defaultBg {
      NoCodes(c.bg, false);
    } else {
      SgrColourCodes(q, c.bg, false, [], pal);
      assert back + [] == back;
    }
  }

  lemma NoCodes(c: Color, fg: bool)
    requires if fg then c.defaultFg else c.defaultBg
    ensures ColourCodes(c, fg) == []
  {
  }

  /** The pen after the codes for a cell. */
  function Recoded(p: Ink, last: Shown, c: Shown, first: bool, pal: Palette): Ink {
    var q := if Resets(last, c, first) then ResetInk(pal) else p;
    Ink(TurnedOn(q.attrs, c.look), if c.fg.defaultFg then q.fg else c.fg, if c.bg.defaultBg then q.bg else c.bg)
  }

  lemma SgrCodes(p: Ink, last: Shown, c: Shown, first: bool, pal: Palette)
    requires ColoursOk(c, pal) && !pal.boldIsHighbright
    ensures Sgr(p, Params(Codes(last, c, first)), pal) == Recoded(p, last, c, first, pal)
  {
    hide Sgr, LookCodes, ColourCodes, Resets, TurnedOn;
    var resets := Resets(last, c, first);
    var colours := ColourCodes(c.fg, true) + ColourCodes(c.bg, false);
    var rest := LookCodes(c.look, colours);
    var q := if resets then ResetInk(pal) else p;
    ParamsThen(Code(resets, 0), rest);
    SgrReset(p, resets, Params(rest), pal);
    SgrLook(q, c.look, colours, pal);
    SgrColours(q.(attrs := TurnedOn(q.attrs, c.look)), c, pal);
  }

  lemma SgrReset(p: Ink, resets: bool, rest: seq<P.Arg>, pal: Palette)
    ensures Sgr(p, Params(Code(resets, 0)) + rest, pal) == Sgr(if resets then ResetInk(pal) else p, rest, pal)
  {
    if resets {
      assert Params(Code(resets, 0)) == [Plain(0)];
      SgrOne(p, Plain(0), rest, pal);
    } else {
      assert Params(Code(resets, 0)) + rest == rest;
    }
  }

  /** From the pen of the last cell, the codes lead to the pen of the next one exactly in this case:
      blink, conceal and a double or curly underline are never turned on, and strike is only turned off
      along with something that resets. */
  predicate Lossless(last: Shown, c: Shown, first: bool) {
    if first || NeedReset(last, c) then !c.look.blink && !c.look.conceal && c.look.underline <= 1
    else
      && c.look.blink == last.look.blink && c.look.conceal == last.look.conceal
      && (c.look.underline == 1 || c.look.underline == last.look.underline)
      && (last.look.strike ==> c.look.strike)
  }

  lemma RestoresWhenLossless(last: Shown, c: Shown, first: bool, pal: Palette)
    requires ColoursOk(c, pal) && ColoursOk(last, pal) && !pal.boldIsHighbright
    ensures
      var before := if first then ResetInk(pal) else InkOf(last);
      Sgr(before, Params(Codes(last, c, first)), pal) == InkOf(c) <==> Lossless(last, c, first)
  {
    hide Sgr, Codes;
    SgrCodes(if first then ResetInk(pal) else InkOf(last), last, c, first, pal);
  }

  // ----- a row -----

  /** What is written for a row: SGR sequences and text. */
  datatype Token = Sequence(codes: seq<nat>) | Text(chars: seq<nat>)

  function TextOf(c: Shown): seq<nat> { if c.chars == [] then [0x20] else c.chars }

  /** Whether codes are due before cell k, and which. */
  function CodesAt(cells: seq<Shown>, k: nat): seq<nat>
    requires k < |cells|
  {
    if k == 0 then Codes(cells[0], cells[0], true)
    else if SameInk(cells[k - 1], cells[k]) then []
    else Codes(cells[k - 1], cells[k], false)
  }

  function CellTokens(cells: seq<Shown>, k: nat): seq<Token>
    requires k < |cells|
  {
    (if CodesAt(cells, k) != [] then [Sequence(CodesAt(cells, k))] else []) + [Text(TextOf(cells[k]))]
  }

  function Tokens(cells: seq<Shown>, n: nat): seq<Token>
    requires n <= |cells|
  {
    if n == 0 then [] else Tokens(cells, n - 1) + CellTokens(cells, n - 1)
  }

  predicate Emitted(cells: seq<Shown>, n: nat)
    requires n <= |cells|
  {
    exists k :: 0 <= k < n && CodesAt(cells, k) != []
  }

  function RowTokens(cells: seq<Shown>): seq<Token> {
    Tokens(cells, |cells|) + (if Emitted(cells, |cells|) then [Sequence([0])] else [])
  }

  /** Text as it appears on a terminal. */
  datatype Drawn = Drawn(chars: seq<nat>, ink: Ink)

  /** A terminal that reads the tokens: what it draws, and its pen in the end. */
  function Draw(p: Ink, tokens: seq<Token>, pal: Palette): (seq<Drawn>, Ink)
    decreases |tokens|
  {
    if tokens == [] then ([], p)
    else
      var (drawn, q) := Draw(p, tokens[..|tokens| - 1], pal);
      match tokens[|tokens| - 1]
      case Sequence(codes) => (drawn, Sgr(q, Params(codes), pal))
      case Text(chars) => (drawn + [Drawn(chars, q)], q)
  }

  lemma DrawOne(p: Ink, tokens: seq<Token>, t: Token, pal: Palette)
    ensures
      var (drawn, q) := Draw(p, tokens, pal);
      Draw(p, tokens + [t], pal) ==
      match t
      case Sequence(codes) => (drawn, Sgr(q, Params(codes), pal))
      case Text(chars) => (drawn + [Drawn(chars, q)], q)
  {
    assert (tokens + [t])[..|tokens + [t]| - 1] == tokens;
  }

  /** Drawing the tokens of one cell more. */
  lemma DrawCell(cells: seq<Shown>, k: nat, pal: Palette)
    requires k < |cells|
    ensures
      var (drawn, q) := Draw(ResetInk(pal), Tokens(cells, k), pal);
      var r := Sgr(q, Params(CodesAt(cells, k)), pal);
      Draw(ResetInk(pal), Tokens(cells, k + 1), pal) == (drawn + [Drawn(TextOf(cells[k]), r)], r)
  {
    hide Draw, CodesAt;
    var before, codes := Tokens(cells, k), CodesAt(cells, k);
    if codes != [] {
      DrawOne(ResetInk(pal), before, Sequence(codes), pal);
      DrawOne(ResetInk(pal), before + [Sequence(codes)], Text(TextOf(cells[k])), pal);
      assert Tokens(cells, k + 1) == before + [Sequence(codes)] + [Text(TextOf(cells[k]))];
    } else {
      DrawOne(ResetInk(pal), before, Text(TextOf(cells[k])), pal);
      assert Tokens(cells, k + 1) == before + [Text(TextOf(cells[k]))];
    }
  }

  predicate LosslessAt(cells: seq<Shown>, k: nat)
    requires k < |cells|
  {
    if k == 0 then Lossless(cells[0], cells[0], true)
    else SameInk(cells[k - 1], cells[k]) || Lossless(cells[k - 1], cells[k], false)
  }

  predicate AllColoursOk(cells: seq<Shown>, pal: Palette) { forall k :: 0 <= k < |cells| ==> ColoursOk(cells[k], pal) }

  predicate AllLossless(cells: seq<Shown>, n: nat)
    requires n <= |cells|
  {
    forall k :: 0 <= k < n ==> LosslessAt(cells, k)
  }

  /** Each text drawn with the pen of its cell. */
  predicate OwnInk(drawn: seq<Drawn>, cells: seq<Shown>)
    requires |drawn| <= |cells|
  {
    forall k :: 0 <= k < |drawn| ==> drawn[k].ink == InkOf(cells[k])
  }

  predicate OwnText(drawn: seq<Drawn>, cells: seq<Shown>)
    requires |drawn| <= |cells|
  {
    forall k :: 0 <= k < |drawn| ==> drawn[k].chars == TextOf(cells[k])
  }

  lemma OneMore(before: seq<Drawn>, d: Drawn, cells: seq<Shown>)
    requires |before| < |cells|
    ensures OwnInk(before + [d], cells) <==> OwnInk(before, cells) && d.ink == InkOf(cells[|before|])
    ensures OwnText(before + [d], cells) <==> OwnText(before, cells) && d.chars == TextOf(cells[|before|])
    ensures AllLossless(cells, |before| + 1) <==> AllLossless(cells, |before|) && LosslessAt(cells, |before|)
  {
    hide LosslessAt;
    var more := before + [d];
    assert more[|before|] == d;
    assert forall k :: 0 <= k < |before| ==> more[k] == before[k];
  }

  /** The texts of the first n cells, in order, drawn with the pens of those cells as long as every step so
      far is lossless; otherwise some cell is drawn with another pen. */
  lemma {:induction false} DrawCells(cells: seq<Shown>, n: nat, pal: Palette)
    requires n <= |cells| && AllColoursOk(cells, pal) && !pal.boldIsHighbright
    ensures
      var (drawn, q) := Draw(ResetInk(pal), Tokens(cells, n), pal);
      && |drawn| == n && OwnText(drawn, cells)
      && q == (if n == 0 then ResetInk(pal) else drawn[n - 1].ink)
      && (OwnInk(drawn, cells) <==> AllLossless(cells, n))
  {
    hide LosslessAt, Sgr, CodesAt, ColoursOk, Tokens, Draw, AllLossless, OwnText, AllColoursOk, Params;
    if n == 0 {
      DrawNothing(cells, pal);
      NoneYet(cells);
    } else {
      DrawCells(cells, n - 1, pal);
      DrawCell(cells, n - 1, pal);
      var (before, q) := Draw(ResetInk(pal), Tokens(cells, n - 1), pal);
      OneMore(before, Drawn(TextOf(cells[n - 1]), Sgr(q, Params(CodesAt(cells, n - 1)), pal)), cells);
      StepLossless(cells, n - 1, pal);
    }
  }

  lemma StepLossless(cells: seq<Shown>, k: nat, pal: Palette)
    requires k < |cells| && AllColoursOk(cells, pal) && !pal.boldIsHighbright
    ensures
      var before := if k == 0 then ResetInk(pal) else InkOf(cells[k - 1]);
      Sgr(before, Params(CodesAt(cells, k)), pal) == InkOf(cells[k]) <==> LosslessAt(cells, k)
  {
    hide Lossless, Codes, ColoursOk;
    if k == 0 {
      RestoresWhenLossless(cells[0], cells[0], true, pal);
    } else if !SameInk(cells[k - 1], cells[k]) {
      RestoresWhenLossless(cells[k - 1], cells[k], false, pal);
    }
  }

  /** A rendered row, read by a terminal with a reset pen: every cell's text in order, every cell's own pen
      exactly when each step from cell to cell is lossless, and a reset pen in the end. */
  lemma RowRestores(cells: seq<Shown>, pal: Palette)
    requires AllColoursOk(cells, pal) && !pal.boldIsHighbright
    ensures
      var (drawn, q) := Draw(ResetInk(pal), RowTokens(cells), pal);
      && q == ResetInk(pal) && |drawn| == |cells| && OwnText(drawn, cells)
      && (OwnInk(drawn, cells) <==> AllLossless(cells, |cells|))
  {
    hide Draw, Sgr;
    DrawCells(cells, |cells|, pal);
    var body := Tokens(cells, |cells|);
    if Emitted(cells, |cells|) {
      DrawOne(ResetInk(pal), body, Sequence([0]), pal);
      assert Params([0]) == [Plain(0)] && [Plain(0)] + [] == [Plain(0)];
      ResetsPen(Draw(ResetInk(pal), body, pal).1, pal);
    } else {
      NeverEmitted(cells, |cells|, pal);
      assert body + [] == body;
    }
  }

  lemma ResetsPen(p: Ink, pal: Palette)
    ensures Sgr(p, [Plain(0)], pal) == ResetInk(pal)
  {
    assert [Plain(0)] + [] == [Plain(0)];
    SgrOne(p, Plain(0), [], pal);
  }

  lemma {:induction false} NeverEmitted(cells: seq<Shown>, n: nat, pal: Palette)
    requires n <= |cells| && !Emitted(cells, n)
    ensures Draw(ResetInk(pal), Tokens(cells, n), pal).1 == ResetInk(pal)
  {
    hide Draw, Tokens, CodesAt, Sgr, Emitted;
    if n == 0 {
      DrawNothing(cells, pal);
    } else {
      NotBefore(cells, n);
      NeverEmitted(cells, n - 1, pal);
      DrawCell(cells, n - 1, pal);
      SgrNothing(Draw(ResetInk(pal), Tokens(cells, n - 1), pal).1, pal);
    }
  }

  lemma NoneYet(cells: seq<Shown>)
    ensures OwnInk([], cells) && OwnText([], cells) && AllLossless(cells, 0)
  {
  }

  lemma DrawNothing(cells: seq<Shown>, pal: Palette)
    ensures Draw(ResetInk(pal), Tokens(cells, 0), pal) == ([], ResetInk(pal))
  {
  }

  lemma NotBefore(cells: seq<Shown>, n: nat)
    requires 0 < n <= |cells| && !Emitted(cells, n)
    ensures !Emitted(cells, n - 1) && CodesAt(cells, n - 1) == []
  {
    hide CodesAt;
  }

  lemma SgrNothing(p: Ink, pal: Palette)
    ensures Sgr(p, Params([]), pal) == p
  {
    assert Params([]) == [];
  }
}
