/** The bytes of a rendered row: how they are written, and that the parser reads back the SGR sequences
    and the text, and the decoder the characters. */
module RenderBytes {
  import opened Cells
  import opened PenState
  import opened Render
  import P = ParserRules
  import C = ParserCommands
  import Utf8

  const SEMICOLON: Byte := 0x3b
  const BRACKET: Byte := 0x5b
  const SGR: Byte := 0x6d

  function CodeBytes(codes: seq<nat>): (r: seq<Byte>)
    ensures codes != [] ==> r != [] && 0x30 <= r[0] <= 0x39
    decreases |codes|
  {
    if codes == [] then []
    else
      var last := |codes| - 1;
      if last == 0 then C.Digits(codes[0]) else CodeBytes(codes[..last]) + [SEMICOLON] + C.Digits(codes[last])
  }

  function SequenceBytes(codes: seq<nat>): seq<Byte> { [P.ESC, BRACKET] + CodeBytes(codes) + [SGR] }

  function TextBytes(chars: seq<nat>): seq<Byte> {
    if chars == [] then [] else TextBytes(chars[..|chars| - 1]) + Utf8.RuneToUtf8(chars[|chars| - 1])
  }

  function TokenBytes(t: Token): seq<Byte> {
    match t
    case Sequence(codes) => SequenceBytes(codes)
    case Text(chars) => TextBytes(chars)
  }

  function Bytes(tokens: seq<Token>): seq<Byte> {
    if tokens == [] then [] else Bytes(tokens[..|tokens| - 1]) + TokenBytes(tokens[|tokens| - 1])
  }

  lemma BytesOne(tokens: seq<Token>, t: Token)
    ensures Bytes(tokens + [t]) == Bytes(tokens) + TokenBytes(t)
  {
    assert (tokens + [t])[..|tokens + [t]| - 1] == tokens;
  }

  function CodesBytes(codes: seq<nat>): seq<Byte> { if codes == [] then [] else SequenceBytes(codes) }

  // ----- writing -----

  method AppendCode(codes: seq<nat>, when: bool, n: nat) returns (codes': seq<nat>)
    ensures codes' == codes + Code(when, n)
  {
    codes' := codes;
    if when {
      codes' := codes' + [n];
    }
  }

  method AppendColour(codes: seq<nat>, c: Color, fg: bool) returns (codes': seq<nat>)
    ensures codes' == codes + ColourCodes(c, fg)
  {
    codes' := codes;
    if !(if fg then c.defaultFg else c.defaultBg) {
      match c
      case Indexed(idx, _, _) =>
        if idx < 8 {
          codes' := codes' + [(if fg then 30 else 40) + idx];
        } else if idx < 16 {
          codes' := codes' + [(if fg then 90 else 100) + idx - 8];
        } else {
          codes' := codes' + [if fg then 38 else 48, 5, idx];
        }
      case Rgb(r, g, b, _, _) => codes' := codes' + [if fg then 38 else 48, 2, r, g, b];
    }
  }

  /** The SGR sequence that leads from the last cell to this one, or nothing. */
  method AnsiForCell(cell: Shown, lastLook: Look, lastFg: Color, lastBg: Color, first: bool) returns (result: seq<Byte>)
    ensures
      var codes := Codes(Shown([], lastLook, lastFg, lastBg), cell, first);
      result == CodesBytes(codes)
  {
    hide ColourCodes, Code, SequenceBytes, LookCodes;
    var look := cell.look;
    var hasAttrs := look.bold || look.italic || look.underline > 0 || look.reverse || look.strike || !cell.fg.defaultFg
        || !cell.bg.defaultBg;
    var needReset := false;
    if !first {
      if lastLook.bold && !look.bold { needReset := true; }
      if lastLook.italic && !look.italic { needReset := true; }
      if lastLook.underline > 0 && look.underline == 0 { needReset := true; }
      if lastLook.reverse && !look.reverse { needReset := true; }
      if !lastFg.defaultFg && cell.fg.defaultFg { needReset := true; }
      if !lastBg.defaultBg && cell.bg.defaultBg { needReset := true; }
    }
    var codes: seq<nat> := [];
    var resets := needReset || (first && hasAttrs);
    codes := AppendCode(codes, resets, 0);
    codes := AppendLook(codes, look);
    codes := AppendColour(codes, cell.fg, true);
    codes := AppendColour(codes, cell.bg, false);
    LookCodesThen(look, ColourCodes(cell.fg, true) + ColourCodes(cell.bg, false));
    Regroup(Code(resets, 0), LookCodes(look, []), ColourCodes(cell.fg, true), ColourCodes(cell.bg, false));
    if codes == [] {
      return [];
    }
    result := WriteCodes(codes);
  }

  method AppendLook(codes: seq<nat>, look: Look) returns (codes': seq<nat>)
    ensures codes' == codes + LookCodes(look, [])
  {
    hide Code;
    codes' := AppendCode(codes, look.bold, 1);
    codes' := AppendCode(codes', look.italic, 3);
    codes' := AppendCode(codes', look.underline == 1, 4);
    codes' := AppendCode(codes', look.reverse, 7);
    codes' := AppendCode(codes', look.strike, 9);
    var late := LateCodes(look, []);
    assert late == Code(look.reverse, 7) + Code(look.strike, 9);
    Assoc(codes + Code(look.bold, 1) + Code(look.italic, 3) + Code(look.underline == 1, 4), Code(look.reverse, 7),
        Code(look.strike, 9));
    Assoc(codes + Code(look.bold, 1) + Code(look.italic, 3), Code(look.underline == 1, 4), late);
    Assoc(codes + Code(look.bold, 1), Code(look.italic, 3), LineCodes(look, []));
    Assoc(codes, Code(look.bold, 1), Code(look.italic, 3) + LineCodes(look, []));
  }

  lemma LookCodesThen(l: Look, rest: seq<nat>)
    ensures LookCodes(l, rest) == LookCodes(l, []) + rest
  {
    hide Code;
    var late := LateCodes(l, []);
    assert late == Code(l.reverse, 7) + Code(l.strike, 9);
    Assoc(Code(l.reverse, 7), Code(l.strike, 9), rest);
    Assoc(Code(l.underline == 1, 4), late, rest);
    Assoc(Code(l.italic, 3), LineCodes(l, []), rest);
    Assoc(Code(l.bold, 1), Code(l.italic, 3) + LineCodes(l, []), rest);
  }

  lemma Assoc(a: seq<nat>, b: seq<nat>, c: seq<nat>)
    ensures a + (b + c) == (a + b) + c
  {
  }

  lemma Regroup(a: seq<nat>, b: seq<nat>, c: seq<nat>, d: seq<nat>)
    ensures [] + a + b + c + d == a + (b + (c + d))
  {
  }

  lemma CodeBytesNext(codes: seq<nat>, i: nat)
    requires i < |codes|
    ensures CodeBytes(codes[..i + 1]) == if i == 0 then C.Digits(codes[0])
            else CodeBytes(codes[..i]) + [SEMICOLON] + C.Digits(codes[i])
  {
    assert codes[..i + 1][..i] == codes[..i];
  }

  method WriteCodes(codes: seq<nat>) returns (result: seq<Byte>)
    requires codes != []
    ensures result == SequenceBytes(codes)
  {
    hide CodeBytes, C.Digits;
    result := [P.ESC, BRACKET];
    for i := 0 to |codes|
      invariant i == 0 ==> result == [P.ESC, BRACKET]
      invariant i > 0 ==> result == [P.ESC, BRACKET] + CodeBytes(codes[..i])
    {
      if i > 0 {
        result := result + [SEMICOLON];
      }
      result := result + C.Digits(codes[i]);
      CodeBytesNext(codes, i);
    }
    assert codes[..|codes|] == codes;
    result := result + [SGR];
  }

  method WriteText(chars: seq<nat>) returns (result: seq<Byte>)
    ensures result == TextBytes(if chars == [] then [0x20] else chars)
  {
    result := [];
    if |chars| > 0 {
      for i := 0 to |chars|
        invariant result == TextBytes(chars[..i])
      {
        result := result + Utf8.RuneToUtf8(chars[i]);
        assert chars[..i + 1][..i] == chars[..i];
      }
      assert chars[..|chars|] == chars;
    } else {
      result := result + [0x20];
      assert [0x20][..0] == [];
    }
  }

  /** Renders a row. */
  method RenderRow(cells: seq<Shown>) returns (result: seq<Byte>)
    ensures result == Bytes(RowTokens(cells))
  {
    hide Codes, SequenceBytes, Bytes, Tokens, CodesAt, TextBytes, CodesBytes, Emitted, RowTokens, TextOf;
    result := [];
    var lastLook := Look(false, 0, false, false, false, false, false);
    var lastFg, lastBg := Rgb(0, 0, 0, false, false), Rgb(0, 0, 0, false, false);
    var firstCell, emittedAnsi := true, false;
    NoBytes(cells);
    for col := 0 to |cells|
      invariant firstCell <==> col == 0
      invariant col > 0 ==>
                  lastLook == cells[col - 1].look && lastFg == cells[col - 1].fg && lastBg == cells[col - 1].bg
      invariant emittedAnsi <==> Emitted(cells, col)
      invariant result == Bytes(Tokens(cells, col))
    {
      var cell := cells[col];
      SameCodes(cells, col);
      SequenceSome(CodesAt(cells, col));
      if firstCell || cell.look != lastLook || cell.fg != lastFg || cell.bg != lastBg {
        var ansi := AnsiForCell(cell, lastLook, lastFg, lastBg, firstCell);
        CodesFrom(Shown([], lastLook, lastFg, lastBg), cells, col);
        if |ansi| > 0 {
          result := result + ansi;
          emittedAnsi := true;
        }
        lastLook, lastFg, lastBg := cell.look, cell.fg, cell.bg;
        firstCell := false;
      }
      var text := WriteText(cell.chars);
      result := result + text;
      CellBytes(cells, col);
    }
    RowEnd(cells);
    if emittedAnsi {
      result := result + SequenceBytes([0]);
    }
  }

  lemma NoBytes(cells: seq<Shown>)
    ensures Bytes(Tokens(cells, 0)) == [] && !Emitted(cells, 0)
  {
  }

  lemma SequenceSome(codes: seq<nat>)
    ensures |CodesBytes(codes)| > 0 <==> codes != []
    ensures codes == [] ==> CodesBytes(codes) == []
  {
  }

  lemma SameCodes(cells: seq<Shown>, k: nat)
    requires k < |cells|
    ensures k > 0 && SameInk(cells[k - 1], cells[k]) ==> CodesAt(cells, k) == []
  {
  }

  lemma CodesFrom(last: Shown, cells: seq<Shown>, k: nat)
    requires k < |cells| && (k > 0 ==> SameInk(last, cells[k - 1]) && !SameInk(cells[k - 1], cells[k]))
    ensures Codes(last, cells[k], k == 0) == CodesAt(cells, k)
  {
  }

  lemma CellBytes(cells: seq<Shown>, k: nat)
    requires k < |cells|
    ensures Bytes(Tokens(cells, k + 1)) == Bytes(Tokens(cells, k)) + CodesBytes(CodesAt(cells, k))
            + TextBytes(TextOf(cells[k]))
    ensures TextOf(cells[k]) == if cells[k].chars == [] then [0x20] else cells[k].chars
    ensures Emitted(cells, k + 1) <==> Emitted(cells, k) || CodesAt(cells, k) != []
  {
    hide Bytes, CodesAt;
    var before, codes := Tokens(cells, k), CodesAt(cells, k);
    if codes != [] {
      BytesOne(before, Sequence(codes));
      BytesOne(before + [Sequence(codes)], Text(TextOf(cells[k])));
      assert Tokens(cells, k + 1) == before + [Sequence(codes)] + [Text(TextOf(cells[k]))];
    } else {
      BytesOne(before, Text(TextOf(cells[k])));
      assert Tokens(cells, k + 1) == before + [Text(TextOf(cells[k]))];
    }
  }

  lemma RowEnd(cells: seq<Shown>)
    ensures Bytes(RowTokens(cells)) == Bytes(Tokens(cells, |cells|))
            + (if Emitted(cells, |cells|) then SequenceBytes([0]) else [])
  {
    hide Bytes, Tokens, Emitted, SequenceBytes;
    var body := Tokens(cells, |cells|);
    if Emitted(cells, |cells|) {
      BytesOne(body, Sequence([0]));
    } else {
      assert body + [] == body;
    }
  }

  // ----- reading back -----

  /** Between sequences. */
  predicate Ready(m: P.Machine) { C.Ready(m.regs) }

  predicate Small(codes: seq<nat>) { forall i :: 0 <= i < |codes| ==> codes[i] < P.MISSING }

  lemma {:induction false} CodesAreArgs(codes: seq<nat>)
    requires codes != [] && Small(codes)
    ensures CodeBytes(codes) == C.ArgsBytes(Params(codes))
    decreases |codes|
  {
    hide C.Digits;
    var last := |codes| - 1;
    var args := Params(codes);
    assert args[last] == Plain(codes[last]) && C.ArgBytes(args[last]) == C.Digits(codes[last]);
    if last > 0 {
      CodesAreArgs(codes[..last]);
      assert args[..last] == Params(codes[..last]);
      assert !args[last - 1].more;
      assert C.ArgsBytes(args) == C.ArgsBytes(args[..last]) + [SEMICOLON] + C.ArgBytes(args[last]);
    }
  }

  /** The parser reads an SGR sequence back as one command with the same arguments. */
  lemma RunSequence(m: P.Machine, codes: seq<nat>)
    requires Ready(m) && codes != [] && Small(codes)
    ensures
      var r := P.Run(m, SequenceBytes(codes), false);
      Ready(r) && r.log == m.log + [P.Csi([], Params(codes), [], SGR)]
  {
    hide P.Run, P.Clean, C.ArgsBytes;
    CodesAreArgs(codes);
    var none: seq<Byte> := [];
    assert SequenceBytes(codes) == C.CsiBytes(none, Params(codes), none, SGR);
    C.RunCsi(m, none, Params(codes), none, SGR, false);
  }

  /** Characters that are text to the parser. */
  predicate IsText(chars: seq<nat>) { forall i :: 0 <= i < |chars| ==> Utf8.Plain(chars[i]) }

  predicate TextOnly(s: seq<Byte>) { forall i :: 0 <= i < |s| ==> s[i] >= 0x20 && s[i] != P.DEL }

  function TextEvents(s: seq<Byte>): (r: seq<P.Event>)
    ensures |r| == |s|
  {
    seq(|s|, i requires 0 <= i < |s| => P.Text(s[i]))
  }

  lemma TextStep(m: P.Machine, c: Byte)
    requires Ready(m) && c >= 0x20 && c != P.DEL && m.body == []
    ensures P.Step(m, c, false) == m.(log := m.log + [P.Text(c)])
  {
  }

  lemma {:induction false} RunText(m: P.Machine, s: seq<Byte>)
    requires Ready(m) && m.body == [] && TextOnly(s)
    ensures P.Run(m, s, false) == m.(log := m.log + TextEvents(s))
    decreases |s|
  {
    if s == [] {
      assert m.log + TextEvents(s) == m.log;
    } else {
      hide P.Run, P.Step, P.React;
      var last := |s| - 1;
      RunText(m, s[..last]);
      assert s == s[..last] + [s[last]];
      C.RunOne(m, s[..last], s[last], false);
      TextStep(m.(log := m.log + TextEvents(s[..last])), s[last]);
      assert m.log + TextEvents(s[..last]) + [P.Text(s[last])] == m.log + TextEvents(s);
    }
  }

  lemma RuneIsText(r: nat)
    requires Utf8.Plain(r)
    ensures TextOnly(Utf8.RuneToUtf8(r))
  {
  }

  lemma {:induction false} TextBytesOnly(chars: seq<nat>)
    requires IsText(chars)
    ensures TextOnly(TextBytes(chars))
  {
    if chars == [] {
    } else {
      hide Utf8.RuneToUtf8, Utf8.Plain;
      var last := |chars| - 1;
      TextBytesOnly(chars[..last]);
      RuneIsText(chars[last]);
    }
  }

  // ----- a whole row -----

  predicate RowOk(cells: seq<Shown>, pal: Palette) {
    forall k :: 0 <= k < |cells| ==> ColoursOk(cells[k], pal) && IsText(cells[k].chars)
  }

  function CodeEvents(codes: seq<nat>): seq<P.Event> { if codes == [] then [] else [P.Csi([], Params(codes), [], SGR)] }

  /** What the parser is to make of the first n cells. */
  function CellEvents(cells: seq<Shown>, n: nat): seq<P.Event>
    requires n <= |cells|
  {
    if n == 0 then []
    else CellEvents(cells, n - 1) + CodeEvents(CodesAt(cells, n - 1)) + TextEvents(TextBytes(TextOf(cells[n - 1])))
  }

  lemma SmallJoin(a: seq<nat>, b: seq<nat>)
    requires Small(a) && Small(b)
    ensures Small(a + b)
  {
  }

  lemma LookSmall(l: Look, rest: seq<nat>)
    requires Small(rest)
    ensures Small(LookCodes(l, rest))
  {
    hide Small;
    CodeSmall(l.strike, 9);
    CodeSmall(l.reverse, 7);
    CodeSmall(l.underline == 1, 4);
    CodeSmall(l.italic, 3);
    CodeSmall(l.bold, 1);
    SmallJoin(Code(l.strike, 9), rest);
    SmallJoin(Code(l.reverse, 7), Code(l.strike, 9) + rest);
    SmallJoin(Code(l.underline == 1, 4), LateCodes(l, rest));
    SmallJoin(Code(l.italic, 3), LineCodes(l, rest));
    SmallJoin(Code(l.bold, 1), Code(l.italic, 3) + LineCodes(l, rest));
  }

  lemma CodeSmall(b: bool, n: nat)
    requires n < P.MISSING
    ensures Small(Code(b, n)) && Small([])
  {
  }

  lemma CodesSmall(cells: seq<Shown>, k: nat, pal: Palette)
    requires k < |cells| && ColoursOk(cells[k], pal)
    ensures Small(CodesAt(cells, k))
  {
    hide Resets, Small, LookCodes, ColourCodes;
    var c := cells[k];
    ColourSmall(c.fg, true);
    ColourSmall(c.bg, false);
    SmallJoin(ColourCodes(c.fg, true), ColourCodes(c.bg, false));
    LookSmall(c.look, ColourCodes(c.fg, true) + ColourCodes(c.bg, false));
    var last, first := if k == 0 then c else cells[k - 1], k == 0;
    CodeSmall(Resets(last, c, first), 0);
    SmallJoin(Code(Resets(last, c, first), 0), LookCodes(c.look, ColourCodes(c.fg, true) + ColourCodes(c.bg, false)));
  }

  lemma ColourSmall(c: Color, fg: bool)
    requires ByteColour(c) || (fg && c.defaultFg) || (!fg && c.defaultBg)
    ensures Small(ColourCodes(c, fg))
  {
  }

  lemma RunCell(m: P.Machine, codes: seq<nat>, chars: seq<nat>)
    requires Ready(m) && m.body == [] && Small(codes) && IsText(chars)
    ensures
      var r := P.Run(m, CodesBytes(codes) + TextBytes(chars), false);
      Ready(r) && r.body == [] && r.log == m.log + CodeEvents(codes) + TextEvents(TextBytes(chars))
  {
    hide P.Step, P.React, SequenceBytes, TextBytes;
    P.RunThen(m, CodesBytes(codes), TextBytes(chars), false);
    TextBytesOnly(chars);
    if codes == [] {
      C.RunNothing(m, false);
      assert m.log + [] == m.log;
    } else {
      RunSequence(m, codes);
      NormalBody(m, SequenceBytes(codes));
    }
    RunText(P.Run(m, CodesBytes(codes), false), TextBytes(chars));
  }

  /** Outside strings the machine holds no content. */
  lemma {:induction false} NormalBody(m: P.Machine, s: seq<Byte>)
    requires m.regs.args != [] && (P.IsContent(m.regs.state) || m.body == [])
    ensures var r := P.Run(m, s, false); P.IsContent(r.regs.state) || r.body == []
    decreases |s|
  {
    if s == [] {
    } else {
      hide P.React;
      var before := P.Run(m, s[..|s| - 1], false);
      NormalBody(m, s[..|s| - 1]);
      P.ReactFits(before.regs, s[|s| - 1], false);
    }
  }

  lemma {:induction false} RunCells(m: P.Machine, cells: seq<Shown>, n: nat, pal: Palette)
    requires Ready(m) && m.body == [] && n <= |cells| && RowOk(cells, pal)
    ensures
      var r := P.Run(m, Bytes(Tokens(cells, n)), false);
      Ready(r) && r.body == [] && r.log == m.log + CellEvents(cells, n)
  {
    hide P.Step, P.React, Bytes, Tokens, CodesAt, TextBytes, CodesBytes, CodeEvents, Ready, ColoursOk, IsText;
    assert m.regs.args != [] by { ReadyArgs(m); }
    if n == 0 {
      NoBytes(cells);
      C.RunNothing(m, false);
      assert m.log + [] == m.log;
    } else {
      RunCells(m, cells, n - 1, pal);
      var k := n - 1;
      var before := P.Run(m, Bytes(Tokens(cells, k)), false);
      CellBytes(cells, k);
      CodesSmall(cells, k, pal);
      TextOfIsText(cells[k]);
      RunCell(before, CodesAt(cells, k), TextOf(cells[k]));
      var more := CodesBytes(CodesAt(cells, k)) + TextBytes(TextOf(cells[k]));
      P.RunThen(m, Bytes(Tokens(cells, k)), more, false);
      Join3(Bytes(Tokens(cells, k)), CodesBytes(CodesAt(cells, k)), TextBytes(TextOf(cells[k])));
      JoinEvents(m.log, CellEvents(cells, k), CodeEvents(CodesAt(cells, k)), TextEvents(TextBytes(TextOf(cells[k]))));
    }
  }

  lemma ReadyArgs(m: P.Machine)
    requires Ready(m)
    ensures m.regs.args != []
  {
  }

  lemma TextOfIsText(c: Shown)
    requires IsText(c.chars)
    ensures IsText(TextOf(c))
  {
  }

  lemma Join3(a: seq<Byte>, b: seq<Byte>, c: seq<Byte>)
    ensures a + b + c == a + (b + c)
  {
  }

  lemma JoinEvents(a: seq<P.Event>, b: seq<P.Event>, c: seq<P.Event>, d: seq<P.Event>)
    ensures a + b + c + d == a + (b + c + d)
  {
  }

  /** The parser reads a rendered row back as the SGR commands and the text of its cells, in order. */
  lemma RowParses(m: P.Machine, cells: seq<Shown>, pal: Palette)
    requires Ready(m) && m.body == [] && RowOk(cells, pal)
    ensures
      var r := P.Run(m, Bytes(RowTokens(cells)), false);
      Ready(r) && r.log == m.log + CellEvents(cells, |cells|) + CodeEvents(if Emitted(cells, |cells|) then [0] else [])
  {
    hide P.Run, P.Step, P.React, Bytes, Tokens, Emitted, SequenceBytes, CodesAt, Ready, RowTokens, CellEvents;
    ReadyArgs(m);
    RunCells(m, cells, |cells|, pal);
    RowEnd(cells);
    var body := Bytes(Tokens(cells, |cells|));
    var r := P.Run(m, body, false);
    ReadyArgs(r);
    if Emitted(cells, |cells|) {
      P.RunThen(m, body, SequenceBytes([0]), false);
      RunSequence(r, [0]);
    } else {
      assert body + [] == body && r.log + [] == r.log;
    }
  }

  /** The text bytes of a cell decode to its characters. */
  lemma {:induction false} TextDecodes(chars: seq<nat>, d: Utf8.Decoder)
    requires d.remaining == 0 && forall i :: 0 <= i < |chars| ==> Utf8.Plain(chars[i]) && chars[i] < 0x200000
    ensures Utf8.Feed(d, TextBytes(chars)).0.remaining == 0 && Utf8.Feed(d, TextBytes(chars)).1 == chars
  {
    hide Utf8.Feed, Utf8.Plain;
    SameBytes(chars);
    Utf8.DecodeFillAll(chars, d);
  }

  lemma {:induction false} SameBytes(chars: seq<nat>)
    requires forall i :: 0 <= i < |chars| ==> chars[i] < 0x200000
    ensures TextBytes(chars) == Utf8.FillAll(chars)
  {
    if chars == [] {
    } else {
      hide Utf8.RuneToUtf8, Utf8.Fill;
      SameBytes(chars[..|chars| - 1]);
      Utf8.RuneIsFill(chars[|chars| - 1]);
    }
  }
}
