/** From a rendered row back to its cells: its bytes read by the parser, the SGR commands applied to the pen,
    the text decoded. */
module RenderTrip {
  import opened PenState
  import opened Render
  import opened RenderBytes
  import P = ParserRules
  import Utf8

  /** A character as it appears on a terminal. */
  datatype Mark = Mark(cp: nat, ink: Ink)

  function Marks(cps: seq<nat>, ink: Ink): (r: seq<Mark>)
    ensures |r| == |cps|
  {
    seq(|cps|, i requires 0 <= i < |cps| => Mark(cps[i], ink))
  }

  /** A terminal that is given the events of the parser: its pen, its decoder, and what it has drawn. */
  datatype Terminal = Terminal(ink: Ink, decoder: Utf8.Decoder, drawn: seq<Mark>)

  function Give(t: Terminal, e: P.Event, pal: Palette): Terminal {
    match e
    case Text(c) =>
      var (d, cps) := Utf8.Take(t.decoder, c);
      Terminal(t.ink, d, t.drawn + Marks(cps, t.ink))
    case Csi(leader, args, intermed, command) =>
      if leader == intermed == [] && command == SGR then t.(ink := Sgr(t.ink, args, pal)) else t
    case _ => t
  }

  function GiveAll(t: Terminal, events: seq<P.Event>, pal: Palette): Terminal
    decreases |events|
  {
    if events == [] then t else Give(GiveAll(t, events[..|events| - 1], pal), events[|events| - 1], pal)
  }

  lemma {:induction false} GiveThen(t: Terminal, a: seq<P.Event>, b: seq<P.Event>, pal: Palette)
    ensures GiveAll(t, a + b, pal) == GiveAll(GiveAll(t, a, pal), b, pal)
    decreases |b|
  {
    if b == [] {
      assert a + b == a;
    } else {
      hide Give;
      var last := |b| - 1;
      assert (a + b)[..|a + b| - 1] == a + b[..last];
      GiveThen(t, a, b[..last], pal);
    }
  }

  lemma MarksThen(a: seq<nat>, b: seq<nat>, ink: Ink)
    ensures Marks(a + b, ink) == Marks(a, ink) + Marks(b, ink)
  {
  }

  /** A run of text is decoded and drawn with the pen as it is. */
  lemma {:induction false} GiveText(t: Terminal, bytes: seq<Byte>, pal: Palette)
    ensures
      var (d, cps) := Utf8.Feed(t.decoder, bytes);
      GiveAll(t, TextEvents(bytes), pal) == Terminal(t.ink, d, t.drawn + Marks(cps, t.ink))
    decreases |bytes|
  {
    if bytes == [] {
      assert t.drawn + Marks([], t.ink) == t.drawn;
    } else {
      hide Utf8.Take;
      var last := |bytes| - 1;
      GiveText(t, bytes[..last], pal);
      assert TextEvents(bytes)[..last] == TextEvents(bytes[..last]);
      var (d, cps) := Utf8.Feed(t.decoder, bytes[..last]);
      var more := Utf8.Take(d, bytes[last]).1;
      MarksThen(cps, more, t.ink);
      assert t.drawn + Marks(cps, t.ink) + Marks(more, t.ink) == t.drawn + (Marks(cps, t.ink) + Marks(more, t.ink));
    }
  }

  /** The characters of a row of texts, each with the pen of its text. */
  function MarksOf(drawn: seq<Drawn>): seq<Mark> {
    if drawn == [] then [] else MarksOf(drawn[..|drawn| - 1]) + Marks(drawn[|drawn| - 1].chars, drawn[|drawn| - 1].ink)
  }

  /** Every character of every cell, drawn with the pen of its cell. */
  function CellMarks(cells: seq<Shown>, n: nat): seq<Mark>
    requires n <= |cells|
  {
    if n == 0 then [] else CellMarks(cells, n - 1) + Marks(TextOf(cells[n - 1]), InkOf(cells[n - 1]))
  }

  /** Characters that the renderer and the decoder agree on. */
  predicate Encodable(chars: seq<nat>) { forall i :: 0 <= i < |chars| ==> chars[i] < 0x200000 }

  predicate Readable(cells: seq<Shown>) { forall k :: 0 <= k < |cells| ==> Encodable(cells[k].chars) }

  lemma GiveCodes(t: Terminal, codes: seq<nat>, pal: Palette)
    ensures GiveAll(t, CodeEvents(codes), pal) == t.(ink := Sgr(t.ink, Params(codes), pal))
  {
    if codes == [] {
      assert Params(codes) == [];
    } else {
      var events := CodeEvents(codes);
      assert events[..0] == [];
      assert GiveAll(t, events[..0], pal) == t;
    }
  }

  lemma GiveCell(t: Terminal, c: Shown, codes: seq<nat>, pal: Palette)
    requires t.decoder.remaining == 0 && IsText(c.chars) && Encodable(c.chars)
    ensures
      var q := Sgr(t.ink, Params(codes), pal);
      var u := GiveAll(t, CodeEvents(codes) + TextEvents(TextBytes(TextOf(c))), pal);
      u.ink == q && u.decoder.remaining == 0 && u.drawn == t.drawn + Marks(TextOf(c), q)
  {
    hide GiveAll, Sgr, Utf8.Feed, Utf8.Plain, TextBytes, Params, Marks;
    GiveThen(t, CodeEvents(codes), TextEvents(TextBytes(TextOf(c))), pal);
    GiveCodes(t, codes, pal);
    TextOfIsText(c);
    TextDecodes(TextOf(c), t.decoder);
    GiveText(t.(ink := Sgr(t.ink, Params(codes), pal)), TextBytes(TextOf(c)), pal);
  }

  /** One cell more. */
  lemma GiveNext(start: Terminal, before: seq<P.Event>, drawn: seq<Drawn>, c: Shown, codes: seq<nat>, pal: Palette)
    requires IsText(c.chars) && Encodable(c.chars)
    requires var t := GiveAll(start, before, pal); t.decoder.remaining == 0 && t.drawn == MarksOf(drawn)
    ensures
      var q := Sgr(GiveAll(start, before, pal).ink, Params(codes), pal);
      var u := GiveAll(start, before + CodeEvents(codes) + TextEvents(TextBytes(TextOf(c))), pal);
      u.ink == q && u.decoder.remaining == 0 && u.drawn == MarksOf(drawn + [Drawn(TextOf(c), q)])
  {
    hide *;
    var rest := CodeEvents(codes) + TextEvents(TextBytes(TextOf(c)));
    assert before + CodeEvents(codes) + TextEvents(TextBytes(TextOf(c))) == before + rest;
    GiveThen(start, before, rest, pal);
    var t := GiveAll(start, before, pal);
    GiveCell(t, c, codes, pal);
    MarksOfOne(drawn, Drawn(TextOf(c), Sgr(t.ink, Params(codes), pal)));
  }

  /** The events of the first n cells draw what their tokens stand for. */
  lemma {:induction false} GiveCells(d: Utf8.Decoder, cells: seq<Shown>, n: nat, pal: Palette)
    requires n <= |cells| && d.remaining == 0 && RowOk(cells, pal) && Readable(cells)
    ensures
      var (drawn, q) := Draw(ResetInk(pal), Tokens(cells, n), pal);
      var t := GiveAll(Terminal(ResetInk(pal), d, []), CellEvents(cells, n), pal);
      t.ink == q && t.decoder.remaining == 0 && t.drawn == MarksOf(drawn)
  {
    hide *;
    assert n <= |cells|;
    if n == 0 {
      GiveNone(d, cells, pal);
    } else {
      CellReadable(cells, n - 1, pal);
      EventsNext(cells, n);
      GiveCells(d, cells, n - 1, pal);
      DrawCell(cells, n - 1, pal);
      var drawn := Draw(ResetInk(pal), Tokens(cells, n - 1), pal).0;
      GiveNext(Terminal(ResetInk(pal), d, []), CellEvents(cells, n - 1), drawn, cells[n - 1], CodesAt(cells, n - 1),
          pal);
    }
  }

  lemma CellReadable(cells: seq<Shown>, k: nat, pal: Palette)
    requires k < |cells| && RowOk(cells, pal) && Readable(cells)
    ensures IsText(cells[k].chars) && Encodable(cells[k].chars)
  {
  }

  lemma GiveNone(d: Utf8.Decoder, cells: seq<Shown>, pal: Palette)
    requires d.remaining == 0
    ensures
      var (drawn, q) := Draw(ResetInk(pal), Tokens(cells, 0), pal);
      var t := GiveAll(Terminal(ResetInk(pal), d, []), CellEvents(cells, 0), pal);
      t.ink == q && t.decoder.remaining == 0 && t.drawn == MarksOf(drawn)
  {
    hide Sgr, Give;
    DrawNothing(cells, pal);
    GiveNothing(Terminal(ResetInk(pal), d, []), pal);
  }

  lemma EventsNext(cells: seq<Shown>, n: nat)
    requires 0 < n <= |cells|
    ensures CellEvents(cells, n)
         == CellEvents(cells, n - 1) + CodeEvents(CodesAt(cells, n - 1)) + TextEvents(TextBytes(TextOf(cells[n - 1])))
  {
  }

  lemma GiveNothing(t: Terminal, pal: Palette)
    ensures GiveAll(t, [], pal) == t
  {
  }

  lemma MarksOfOne(drawn: seq<Drawn>, d: Drawn)
    ensures MarksOf(drawn + [d]) == MarksOf(drawn) + Marks(d.chars, d.ink)
  {
    assert (drawn + [d])[..|drawn|] == drawn;
  }

  /** The same characters in the same order, whatever their pens. */
  predicate SameChars(a: seq<Mark>, b: seq<Mark>) { |a| == |b| && forall i :: 0 <= i < |a| ==> a[i].cp == b[i].cp }

  /** The marks of some texts are those of the cells exactly when each text has the pen of its cell. */
  lemma {:induction false} MarksMatch(drawn: seq<Drawn>, cells: seq<Shown>)
    requires |drawn| <= |cells| && OwnText(drawn, cells)
    ensures SameChars(MarksOf(drawn), CellMarks(cells, |drawn|))
    ensures MarksOf(drawn) == CellMarks(cells, |drawn|) <==> OwnInk(drawn, cells)
  {
    if drawn == [] {
    } else {
      var n := |drawn| - 1;
      var before, last := drawn[..n], drawn[n];
      assert drawn == before + [last] && last.chars == TextOf(cells[n]) != [];
      assert CellMarks(cells, n + 1) == CellMarks(cells, n) + Marks(last.chars, InkOf(cells[n]));
      OneMore(before, last, cells);
      hide *;
      MarksMatch(before, cells);
      MarksOfOne(before, last);
      SameMarks(last.chars, last.ink, InkOf(cells[n]));
      SameParts(MarksOf(before), Marks(last.chars, last.ink), CellMarks(cells, n), Marks(last.chars, InkOf(cells[n])));
    }
  }

  lemma SameMarks(cps: seq<nat>, a: Ink, b: Ink)
    requires cps != []
    ensures Marks(cps, a) == Marks(cps, b) <==> a == b
    ensures SameChars(Marks(cps, a), Marks(cps, b))
  {
    if a != b { assert Marks(cps, a)[0] != Marks(cps, b)[0]; }
  }

  lemma SameParts(a: seq<Mark>, x: seq<Mark>, b: seq<Mark>, y: seq<Mark>)
    requires SameChars(a, b) && SameChars(x, y)
    ensures SameChars(a + x, b + y)
    ensures a + x == b + y <==> a == b && x == y
  {
    if a + x == b + y {
      assert (a + x)[..|a|] == a && (b + y)[..|b|] == b && (a + x)[|a|..] == x && (b + y)[|b|..] == y;
    }
  }

  /** What the bytes of a row draw is what its tokens stand for. */
  lemma RowGiven(m: P.Machine, d: Utf8.Decoder, cells: seq<Shown>, pal: Palette)
    requires Ready(m) && m.body == [] && m.log == [] && d.remaining == 0
    requires RowOk(cells, pal) && Readable(cells) && !pal.boldIsHighbright
    ensures
      var t := GiveAll(Terminal(ResetInk(pal), d, []), P.Run(m, Bytes(RowTokens(cells)), false).log, pal);
      && t.ink == ResetInk(pal) && t.decoder.remaining == 0
      && t.drawn == MarksOf(Draw(ResetInk(pal), Tokens(cells, |cells|), pal).0)
  {
    assert AllColoursOk(cells, pal);
    hide *;
    var start := Terminal(ResetInk(pal), d, []);
    var body, last := CellEvents(cells, |cells|), Ending(cells);
    RowLog(m, cells, pal);
    GiveThen(start, body, CodeEvents(last), pal);
    GiveCells(d, cells, |cells|, pal);
    GiveCodes(GiveAll(start, body, pal), last, pal);
    EndsReset(cells, Draw(ResetInk(pal), Tokens(cells, |cells|), pal).1, pal);
  }

  /** The codes after the last cell. */
  function Ending(cells: seq<Shown>): seq<nat> { if Emitted(cells, |cells|) then [0] else [] }

  lemma RowLog(m: P.Machine, cells: seq<Shown>, pal: Palette)
    requires Ready(m) && m.body == [] && m.log == [] && RowOk(cells, pal)
    ensures P.Run(m, Bytes(RowTokens(cells)), false).log == CellEvents(cells, |cells|) + CodeEvents(Ending(cells))
  {
    hide P.Run, Bytes, RowTokens, Emitted, CellEvents, CodeEvents, Ready, ColoursOk;
    RowParses(m, cells, pal);
    assert [] + CellEvents(cells, |cells|) == CellEvents(cells, |cells|);
  }

  /** A rendered row, read byte by byte by the parser, its SGR commands applied to a reset pen and its text
      decoded: every character of every cell appears in order; every one with the pen of its own cell exactly
      when each step from cell to cell is lossless; and the pen is reset in the end. */
  lemma RowRoundTrip(m: P.Machine, d: Utf8.Decoder, cells: seq<Shown>, pal: Palette)
    requires Ready(m) && m.body == [] && m.log == [] && d.remaining == 0
    requires RowOk(cells, pal) && Readable(cells) && !pal.boldIsHighbright
    ensures
      var events := P.Run(m, Bytes(RowTokens(cells)), false).log;
      var t := GiveAll(Terminal(ResetInk(pal), d, []), events, pal);
      && t.ink == ResetInk(pal) && t.decoder.remaining == 0
      && SameChars(t.drawn, CellMarks(cells, |cells|))
      && (t.drawn == CellMarks(cells, |cells|) <==> AllLossless(cells, |cells|))
  {
    assert AllColoursOk(cells, pal);
    hide *;
    RowGiven(m, d, cells, pal);
    DrawCells(cells, |cells|, pal);
    MarksMatch(Draw(ResetInk(pal), Tokens(cells, |cells|), pal).0, cells);
  }

  lemma EndsReset(cells: seq<Shown>, q: Ink, pal: Palette)
    requires q == Draw(ResetInk(pal), Tokens(cells, |cells|), pal).1 && AllColoursOk(cells, pal)
             && !pal.boldIsHighbright
    ensures Sgr(q, Params(Ending(cells)), pal) == ResetInk(pal)
  {
    hide Draw, Sgr, Tokens;
    if Emitted(cells, |cells|) {
      assert Params([0]) == [Plain(0)];
      ResetsPen(q, pal);
    } else {
      NeverEmitted(cells, |cells|, pal);
      SgrNothing(q, pal);
      assert Params([]) == [];
    }
  }
}
