/** SGR: the pen that `CSI ... m` sets, and the list of arguments that describes a pen. */
module PenState {
  import opened Cells
  import opened ParserRules

  /** The pen of the state layer. */
  datatype Ink = Ink(attrs: Attrs, fg: Color, bg: Color)

  /** What SGR depends on apart from the pen. */
  datatype Palette = Palette(defaultFg: Color, defaultBg: Color, boldIsHighbright: bool)

  const SINGLE: nat := 1
  const DOUBLE: nat := 2
  const CURLY: nat := 3

  const NORMAL_LINE: nat := 0
  const RAISE: nat := 1
  const LOWER: nat := 2

  function Indexed8(idx: nat): Color { Indexed(idx % 256, false, false) }

  function Rgb8(r: nat, g: nat, b: nat): Color { Rgb(r % 256, g % 256, b % 256, false, false) }

  function ResetInk(pal: Palette): Ink { Ink(PLAIN, pal.defaultFg, pal.defaultBg) }

  // ----- one parameter -----

  /** Argument `i`; what lies behind the arguments counts as missing. */
  function Slot(args: seq<Arg>, i: nat): Arg { if i < |args| then args[i] else Arg(MISSING, false) }

  /** The colour named by arguments from 1 on, and how many of those after the first it takes. */
  function LookupColour(before: Color, args: seq<Arg>): (Color, int) {
    var count := |args| - 2;
    match Slot(args, 1).value
    case 2 => if count < 3 then (before, count)
        else (Rgb8(Slot(args, 2).value, Slot(args, 3).value, Slot(args, 4).value), 3)
    case 5 =>
      if count == 0 || Slot(args, 2).value == MISSING then (before, if count != 0 then 1 else 0)
      else (Indexed8(Slot(args, 2).value), if count != 0 then 1 else 0)
    case _ => (before, 0)
  }

  function UnderlineStyle(a: Arg): nat {
    match a.value
    case 0 => 0
    case 2 => DOUBLE
    case 3 => CURLY
    case _ => SINGLE
  }

  function AttrSet(a: Attrs, n: nat): Attrs {
    match n
    case 1 => a.(bold := true)
    case 3 => a.(italic := true)
    case 5 => a.(blink := true)
    case 7 => a.(reverse := true)
    case 8 => a.(conceal := true)
    case 9 => a.(strike := true)
    case _ => a
  }

  function AttrOn(a: Attrs, args: seq<Arg>): Attrs
    requires args != []
  {
    var n := args[0].value;
    if n == 4 then a.(underline := if args[0].more then UnderlineStyle(Slot(args, 1)) else SINGLE)
    else if 10 <= n <= 19 then a.(font := n - 10)
    else if n == 21 then a.(underline := DOUBLE)
    else AttrSet(a, n)
  }

  function AttrOff(a: Attrs, n: nat): (r: Attrs)
    ensures r.font == a.font && r.baseline == a.baseline && r.small == a.small
            && (r.underline == a.underline || r.underline == 0)
  {
    match n
    case 22 => a.(bold := false)
    case 23 => a.(italic := false)
    case 24 => a.(underline := 0)
    case 25 => a.(blink := false)
    case 27 => a.(reverse := false)
    case 28 => a.(conceal := false)
    case 29 => a.(strike := false)
    case _ => a
  }

  function AttrLine(a: Attrs, n: nat): Attrs {
    match n
    case 73 => a.(small := true, baseline := RAISE)
    case 74 => a.(small := true, baseline := LOWER)
    case 75 => a.(small := false, baseline := NORMAL_LINE)
    case _ => a
  }

  function AttrEffect(a: Attrs, args: seq<Arg>): Attrs
    requires args != []
  {
    var n := args[0].value;
    if n < 22 then AttrOn(a, args) else if n < 30 then AttrOff(a, n) else AttrLine(a, n)
  }

  function FgEffect(p: Ink, args: seq<Arg>, pal: Palette): Color
    requires args != []
  {
    var n := args[0].value;
    if n == 1 && p.fg.Indexed? && !p.fg.defaultFg && p.fg.idx < 8 && pal.boldIsHighbright then Indexed8(p.fg.idx + 8)
    else if 30 <= n <= 37 then Indexed8(n - 30 + (if p.attrs.bold && pal.boldIsHighbright then 8 else 0))
    else if n == 38 then LookupColour(p.fg, args).0
    else if n == 39 then pal.defaultFg
    else if 90 <= n <= 97 then Indexed8(n - 90 + 8)
    else p.fg
  }

  function BgEffect(p: Ink, args: seq<Arg>, pal: Palette): Color
    requires args != []
  {
    var n := args[0].value;
    if 40 <= n <= 47 then Indexed8(n - 40)
    else if n == 48 then LookupColour(p.bg, args).0
    else if n == 49 then pal.defaultBg
    else if 100 <= n <= 107 then Indexed8(n - 100 + 8)
    else p.bg
  }

  /** What the parameter at the head of the arguments does to the pen. */
  function Effect(p: Ink, args: seq<Arg>, pal: Palette): Ink
    requires args != []
  {
    if args[0].value == MISSING || args[0].value == 0 then ResetInk(pal)
    else Ink(AttrEffect(p.attrs, args), FgEffect(p, args, pal), BgEffect(p, args, pal))
  }

  /** The argument a parameter ends with, before any it is joined to by ':'. */
  function LastOf(p: Ink, args: seq<Arg>): nat
    requires args != []
  {
    var n := args[0].value;
    if n == 4 && args[0].more then 1
    else if n == 38 then var k := LookupColour(p.fg, args).1; if 1 + k >= 0 then 1 + k else 0
    else if n == 48 then var k := LookupColour(p.bg, args).1; if 1 + k >= 0 then 1 + k else 0
    else 0
  }

  /** The arguments after position `i`, and after those it is joined to by ':'. */
  function After(args: seq<Arg>, i: nat): (rest: seq<Arg>)
    ensures |rest| < |args| || args == []
    decreases |args| - i
  {
    if i >= |args| then []
    else if args[i].more then After(args, i + 1)
    else args[i + 1..]
  }

  /** The pen after all parameters of one SGR command. */
  function Sgr(p: Ink, args: seq<Arg>, pal: Palette): Ink
    decreases |args|
  {
    if args == [] then p
    else Sgr(Effect(p, args, pal), After(args, LastOf(p, args)), pal)
  }

  // ----- the arguments that describe a pen -----

  function Plain(n: nat): Arg { Arg(n, false) }

  function Joined(n: nat): Arg { Arg(n, true) }

  function When(b: bool, n: nat): (r: seq<Arg>)
    ensures |r| == if b then 1 else 0
  { 
    if b then [Plain(n)] else []
  }

  function UnderlineArgs(u: nat): (r: seq<Arg>)
    ensures |r| <= if u == DOUBLE then 0 else 2
  {
    if u == SINGLE then [Plain(4)] else if u == CURLY then [Joined(4), Plain(3)] else []
  }

  function ColourArgs(c: Color, fg: bool): (r: seq<Arg>)
    ensures |r| <= 5
  {
    if (fg && c.defaultFg) || (!fg && c.defaultBg) then []
    else
      match c
      case Indexed(idx, _, _) =>
        if idx < 8 then [Plain(idx + (if fg then 30 else 40))]
        else if idx < 16 then [Plain(idx - 8 + (if fg then 90 else 100))]
        else [Joined(if fg then 38 else 48), Joined(5), Plain(idx)]
      case Rgb(r, g, b, _, _) => [Joined(if fg then 38 else 48), Joined(2), Joined(r), Joined(g), Plain(b)]
  }

  function SmallArgs(a: Attrs): (r: seq<Arg>)
    ensures |r| <= 1
  {
    if a.small && a.baseline == RAISE then [Plain(73)] else if a.small && a.baseline == LOWER then [Plain(74)] else []
  }

  /** The arguments for the attributes, followed by `rest`. */
  function AttrArgs(a: Attrs, rest: seq<Arg>): (r: seq<Arg>)
    ensures |r| <= 9 + |rest|
  {
    When(a.bold, 1) + (When(a.italic, 3) + (UnderlineArgs(a.underline) + StyleArgs(a, rest)))
  }

  function StyleArgs(a: Attrs, rest: seq<Arg>): (r: seq<Arg>)
    ensures |r| <= (if a.underline == DOUBLE then 6 else 5) + |rest|
  {
    When(a.blink, 5) + (When(a.reverse, 7) + (When(a.conceal, 8) + (When(a.strike, 9) + FontArgs(a, rest))))
  }

  function FontArgs(a: Attrs, rest: seq<Arg>): (r: seq<Arg>)
    ensures |r| <= (if a.underline == DOUBLE then 2 else 1) + |rest|
  {
    When(a.font != 0, 10 + a.font) + (When(a.underline == DOUBLE, 21) + rest)
  }

  function InkArgs(p: Ink): seq<Arg> {
    AttrArgs(p.attrs, ColourArgs(p.fg, true) + (ColourArgs(p.bg, false) + SmallArgs(p.attrs)))
  }

  const GETPEN_ARGS: nat := 20

  /** The list never has more than 20 arguments, and 20 occur. */
  lemma ArgsFit(p: Ink)
    ensures |InkArgs(p)| <= GETPEN_ARGS
    ensures
      var all := Attrs(true, CURLY, true, true, true, true, true, 9, true, LOWER);
      |InkArgs(Ink(all, Rgb(1, 2, 3, false, false), Rgb(4, 5, 6, false, false)))| == GETPEN_ARGS
  {
  }

  // ----- pens that can come about -----

  predicate ByteColour(c: Color) {
    match c
    case Rgb(r, g, b, fg, bg) => r < 256 && g < 256 && b < 256 && !fg && !bg
    case Indexed(idx, fg, bg) => idx < 256 && !fg && !bg
  }

  predicate Defaults(pal: Palette) {
    pal.defaultFg.defaultFg && !pal.defaultFg.defaultBg && pal.defaultBg.defaultBg && !pal.defaultBg.defaultFg
  }

  predicate AttrsInRange(a: Attrs) {
    a.underline <= CURLY && a.font <= 9 && a.baseline <= LOWER && (a.small <==> a.baseline != NORMAL_LINE)
  }

  /** Holds of every pen that SGR commands make out of the reset pen. */
  predicate Reachable(p: Ink, pal: Palette) {
    && AttrsInRange(p.attrs)
    && (p.fg == pal.defaultFg || ByteColour(p.fg)) && (p.bg == pal.defaultBg || ByteColour(p.bg))
  }

  lemma {:induction false} SgrReachable(p: Ink, args: seq<Arg>, pal: Palette)
    requires Reachable(p, pal)
    ensures Reachable(Sgr(p, args, pal), pal)
    decreases |args|
  {
    if args != [] {
      EffectReachable(p, args, pal);
      SgrReachable(Effect(p, args, pal), After(args, LastOf(p, args)), pal);
    }
  }

  lemma EffectReachable(p: Ink, args: seq<Arg>, pal: Palette)
    requires Reachable(p, pal) && args != []
    ensures Reachable(Effect(p, args, pal), pal) && Reachable(ResetInk(pal), pal)
  {
    hide LookupColour, AttrEffect, FgEffect, BgEffect;
    AttrEffectInRange(p.attrs, args);
    ColourEffects(p, args, pal);
  }

  lemma AttrEffectInRange(a: Attrs, args: seq<Arg>)
    requires AttrsInRange(a) && args != []
    ensures AttrsInRange(AttrEffect(a, args))
  {
    hide AttrOn, AttrOff, AttrLine, AttrsInRange;
    OnInRange(a, args);
    OffInRange(a, args[0].value);
    LineInRange(a, args[0].value);
  }

  lemma OffInRange(a: Attrs, n: nat)
    requires AttrsInRange(a)
    ensures AttrsInRange(AttrOff(a, n))
  {
    hide AttrOff;
  }

  lemma LineInRange(a: Attrs, n: nat)
    requires AttrsInRange(a)
    ensures AttrsInRange(AttrLine(a, n))
  {
  }

  lemma OnInRange(a: Attrs, args: seq<Arg>)
    requires AttrsInRange(a) && args != []
    ensures AttrsInRange(AttrOn(a, args))
  {
    hide UnderlineStyle, Slot, AttrSet;
    var n := args[0].value;
    if n == 4 {
      StyleInRange(Slot(args, 1));
    } else if !(10 <= n <= 19) && n != 21 {
      hide AttrsInRange;
      SetInRange(a, n);
    }
  }

  lemma SetInRange(a: Attrs, n: nat)
    requires AttrsInRange(a)
    ensures AttrsInRange(AttrSet(a, n))
  {
  }

  lemma StyleInRange(a: Arg)
    ensures UnderlineStyle(a) <= CURLY
  {
  }

  lemma ColourEffects(p: Ink, args: seq<Arg>, pal: Palette)
    requires args != []
    ensures
      var fg, bg := FgEffect(p, args, pal), BgEffect(p, args, pal);
      (fg == p.fg || fg == pal.defaultFg || ByteColour(fg)) && (bg == p.bg || bg == pal.defaultBg || ByteColour(bg))
  {
    hide LookupColour;
    ColourReachable(p.fg, args);
    ColourReachable(p.bg, args);
  }

  lemma ColourReachable(c: Color, args: seq<Arg>)
    ensures LookupColour(c, args).0 == c || ByteColour(LookupColour(c, args).0)
  {
  }

  // ----- setpen after getpen -----

  /** A parameter of one argument. */
  lemma SgrOne(p: Ink, a: Arg, rest: seq<Arg>, pal: Palette)
    requires !a.more && a.value != 38 && a.value != 48
    ensures Sgr(p, [a] + rest, pal) == Sgr(Effect(p, [a], pal), rest, pal)
  {
    var args := [a] + rest;
    assert After(args, 0) == rest;
  }

  lemma SgrWhen(p: Ink, b: bool, n: nat, rest: seq<Arg>, pal: Palette)
    requires n != 38 && n != 48
    ensures Sgr(p, When(b, n) + rest, pal) == Sgr(if b then Effect(p, [Plain(n)], pal) else p, rest, pal)
  {
    if b { SgrOne(p, Plain(n), rest, pal); } else { assert When(b, n) + rest == rest; }
  }

  lemma SgrUnderline(p: Ink, u: nat, rest: seq<Arg>, pal: Palette)
    ensures
      Sgr(p, UnderlineArgs(u) + rest, pal)
      == Sgr(if u == SINGLE || u == CURLY then p.(attrs := p.attrs.(underline := u)) else p, rest, pal)
  {
    if u == SINGLE {
      SgrOne(p, Plain(4), rest, pal);
    } else if u == CURLY {
      var args := [Joined(4), Plain(3)] + rest;
      assert After(args, 1) == rest;
    } else {
      assert UnderlineArgs(u) + rest == rest;
    }
  }

  /** Codes that only change attributes. */
  lemma AttrCode(p: Ink, n: nat, pal: Palette)
    requires 1 <= n <= 29
    requires !pal.boldIsHighbright || p.fg.defaultFg
    ensures Effect(p, [Plain(n)], pal) == p.(attrs := AttrEffect(p.attrs, [Plain(n)]))
  {
  }

  lemma SgrAttrWhen(p: Ink, b: bool, n: nat, rest: seq<Arg>, pal: Palette)
    requires 1 <= n <= 29
    requires !pal.boldIsHighbright || p.fg.defaultFg
    ensures Sgr(p, When(b, n) + rest, pal) == Sgr(if b then p.(attrs := AttrEffect(p.attrs, [Plain(n)])) else p, rest,
            pal)
  {
    hide Effect, AttrEffect;
    SgrWhen(p, b, n, rest, pal);
    AttrCode(p, n, pal);
  }

  function WithColour(p: Ink, c: Color, fg: bool): Ink { if fg then p.(fg := c) else p.(bg := c) }

  /** The palette is shown brighter for a bold pen. */
  predicate Brightens(bold: bool, c: Color, pal: Palette) {
    pal.boldIsHighbright && bold && c.Indexed? && !c.defaultFg && c.idx < 8
  }

  function Seen(p: Ink, c: Color, fg: bool, pal: Palette): Color {
    if fg && Brightens(p.attrs.bold, c, pal) then Indexed(c.idx + 8, false, false) else c
  }

  lemma SgrColour(p: Ink, c: Color, fg: bool, rest: seq<Arg>, pal: Palette)
    requires ByteColour(c)
    ensures Sgr(p, ColourArgs(c, fg) + rest, pal) == Sgr(WithColour(p, Seen(p, c, fg, pal), fg), rest, pal)
  {
    hide Sgr, Effect;
    var code := if fg then 38 else 48;
    match c
    case Indexed(idx, _, _) =>
      if idx < 16 {
        var n := if idx < 8 then idx + (if fg then 30 else 40) else idx - 8 + (if fg then 90 else 100);
        SgrOne(p, Plain(n), rest, pal);
        PaletteCode(p, idx, fg, pal);
      } else {
        SgrIndexed(p, Joined(code), Joined(5), idx, rest, pal);
      }
    case Rgb(r, g, b, _, _) =>
      SgrRgb(p, Joined(code), Joined(2), Joined(r), Joined(g), b, rest, pal);
  }

  lemma PaletteCode(p: Ink, idx: nat, fg: bool, pal: Palette)
    requires idx < 16
    ensures
      var n := if idx < 8 then idx + (if fg then 30 else 40) else idx - 8 + (if fg then 90 else 100);
      Effect(p, [Plain(n)], pal) == WithColour(p, Seen(p, Indexed(idx, false, false), fg, pal), fg)
  {
  }

  /** `38;5;n` and `48;5;n`, joined by ':' or separate. */
  lemma SgrIndexed(p: Ink, a: Arg, five: Arg, idx: nat, rest: seq<Arg>, pal: Palette)
    requires (a.value == 38 || a.value == 48) && five.value == 5 && idx < 256
    ensures Sgr(p, [a, five, Plain(idx)] + rest, pal)
            == Sgr(WithColour(p, Indexed(idx, false, false), a.value == 38), rest, pal)
  {
    var args := [a, five, Plain(idx)] + rest;
    assert After(args, 2) == rest;
    assert LookupColour(if a.value == 38 then p.fg else p.bg, args) == (Indexed(idx, false, false), 1);
  }

  lemma SgrRgb(p: Ink, a: Arg, two: Arg, r: Arg, g: Arg, b: nat, rest: seq<Arg>, pal: Palette)
    requires (a.value == 38 || a.value == 48) && two.value == 2 && r.value < 256 && g.value < 256 && b < 256
    ensures
      Sgr(p, [a, two, r, g, Plain(b)] + rest, pal)
      == Sgr(WithColour(p, Rgb(r.value, g.value, b, false, false), a.value == 38), rest, pal)
  {
    var args := [a, two, r, g, Plain(b)] + rest;
    assert After(args, 4) == rest;
    assert LookupColour(if a.value == 38 then p.fg else p.bg, args) == (Rgb(r.value, g.value, b, false, false), 3);
  }

  // ----- what the codes are for -----

  /** After code `n` the pen is `q`, whatever follows. */
  ghost predicate Makes(p: Ink, n: nat, q: Ink, pal: Palette) {
    forall rest :: Sgr(p, [Plain(n)] + rest, pal) == Sgr(q, rest, pal)
  }

  lemma OneCode(p: Ink, n: nat, pal: Palette)
    requires n != 38 && n != 48
    ensures Makes(p, n, Effect(p, [Plain(n)], pal), pal)
  {
    hide Sgr, Effect;
    forall rest ensures Sgr(p, [Plain(n)] + rest, pal) == Sgr(Effect(p, [Plain(n)], pal), rest, pal) {
      SgrOne(p, Plain(n), rest, pal);
    }
  }

  /** The attribute codes but that for bold, for every pen; 2, 6, 20 and 26 are not among them. */
  lemma AttributeCodes(p: Ink, pal: Palette)
    ensures Makes(p, 3, p.(attrs := p.attrs.(italic := true)), pal)
    ensures Makes(p, 4, p.(attrs := p.attrs.(underline := SINGLE)), pal)
    ensures Makes(p, 21, p.(attrs := p.attrs.(underline := DOUBLE)), pal)
    ensures Makes(p, 5, p.(attrs := p.attrs.(blink := true)), pal)
    ensures Makes(p, 7, p.(attrs := p.attrs.(reverse := true)), pal)
    ensures Makes(p, 8, p.(attrs := p.attrs.(conceal := true)), pal)
    ensures Makes(p, 9, p.(attrs := p.attrs.(strike := true)), pal)
    ensures Makes(p, 22, p.(attrs := p.attrs.(bold := false)), pal)
    ensures Makes(p, 23, p.(attrs := p.attrs.(italic := false)), pal)
    ensures Makes(p, 24, p.(attrs := p.attrs.(underline := 0)), pal)
    ensures Makes(p, 25, p.(attrs := p.attrs.(blink := false)), pal)
    ensures Makes(p, 27, p.(attrs := p.attrs.(reverse := false)), pal)
    ensures Makes(p, 28, p.(attrs := p.attrs.(conceal := false)), pal)
    ensures Makes(p, 29, p.(attrs := p.attrs.(strike := false)), pal)
    ensures Makes(p, 73, p.(attrs := p.attrs.(small := true, baseline := RAISE)), pal)
    ensures Makes(p, 74, p.(attrs := p.attrs.(small := true, baseline := LOWER)), pal)
    ensures Makes(p, 75, p.(attrs := p.attrs.(small := false, baseline := NORMAL_LINE)), pal)
    ensures forall k :: 0 <= k < 10 ==> Makes(p, 10 + k, p.(attrs := p.attrs.(font := k)), pal)
    ensures Makes(p, 0, ResetInk(pal), pal) && Makes(p, MISSING, ResetInk(pal), pal)
    ensures Makes(p, 2, p, pal) && Makes(p, 6, p, pal) && Makes(p, 20, p, pal) && Makes(p, 26, p, pal)
  {
    hide Makes, Sgr;
    OneCode(p, 3, pal);
    OneCode(p, 4, pal);
    OneCode(p, 21, pal);
    OneCode(p, 5, pal);
    OneCode(p, 7, pal);
    OneCode(p, 8, pal);
    OneCode(p, 9, pal);
    OneCode(p, 22, pal);
    OneCode(p, 23, pal);
    OneCode(p, 24, pal);
    OneCode(p, 25, pal);
    OneCode(p, 27, pal);
    OneCode(p, 28, pal);
    OneCode(p, 29, pal);
    OneCode(p, 73, pal);
    OneCode(p, 74, pal);
    OneCode(p, 75, pal);
    OneCode(p, 0, pal);
    OneCode(p, MISSING, pal);
    OneCode(p, 2, pal);
    OneCode(p, 6, pal);
    OneCode(p, 20, pal);
    OneCode(p, 26, pal);
    forall k | 0 <= k < 10 ensures Makes(p, 10 + k, p.(attrs := p.attrs.(font := k)), pal) {
      OneCode(p, 10 + k, pal);
    }
  }

  /** Bold; where it is shown as bright, it makes one of the first eight palette colours bright. */
  lemma BoldCode(p: Ink, pal: Palette)
    ensures
      var bold := p.(attrs := p.attrs.(bold := true));
      Makes(p, 1, bold.(fg := Seen(bold, p.fg, true, pal)), pal)
  {
    hide Makes;
    OneCode(p, 1, pal);
  }

  /** The colour codes of one number; those of more are in `SgrIndexed` and `SgrRgb`. */
  lemma ColourParameters(p: Ink, k: nat, pal: Palette)
    requires k < 8
    ensures
      var shown := if p.attrs.bold && pal.boldIsHighbright then 8 + k else k;
      Makes(p, 30 + k, p.(fg := Indexed(shown, false, false)), pal)
    ensures Makes(p, 90 + k, p.(fg := Indexed(8 + k, false, false)), pal)
    ensures Makes(p, 40 + k, p.(bg := Indexed(k, false, false)), pal)
    ensures Makes(p, 100 + k, p.(bg := Indexed(8 + k, false, false)), pal)
    ensures Makes(p, 39, p.(fg := pal.defaultFg), pal) && Makes(p, 49, p.(bg := pal.defaultBg), pal)
  {
    hide Makes;
    OneCode(p, 30 + k, pal);
    OneCode(p, 90 + k, pal);
    OneCode(p, 40 + k, pal);
    OneCode(p, 100 + k, pal);
    OneCode(p, 39, pal);
    OneCode(p, 49, pal);
  }

  /** Underline styles. */
  lemma UnderlineStyles(p: Ink, k: nat, rest: seq<Arg>, pal: Palette)
    ensures
      var style := if k == 0 then 0 else if k == 2 then DOUBLE else if k == 3 then CURLY else SINGLE;
      Sgr(p, [Joined(4), Plain(k)] + rest, pal) == Sgr(p.(attrs := p.attrs.(underline := style)), rest, pal)
  {
    var args := [Joined(4), Plain(k)] + rest;
    assert After(args, 1) == rest;
  }

  /** A colour that is cut short, or of a kind that is not known, changes nothing. */
  lemma ShortColours(p: Ink, fg: bool, k: nat, r: nat, g: nat, rest: seq<Arg>, pal: Palette)
    ensures
      var code := Plain(if fg then 38 else 48);
      && Sgr(p, [code], pal) == Sgr(p, [code, Plain(5)], pal) == Sgr(p, [code, Plain(2)], pal) == p
      && Sgr(p, [code, Plain(2), Plain(r)], pal) == Sgr(p, [code, Plain(2), Plain(r), Plain(g)], pal) == p
      && Sgr(p, [code, Plain(5), Arg(MISSING, false)] + rest, pal) == Sgr(p, rest, pal)
      && (k != 2 && k != 5 ==> Sgr(p, [code, Plain(k)] + rest, pal) == Sgr(p, rest, pal))
  {
    var code := Plain(if fg then 38 else 48);
    var none: seq<Arg> := [];
    Unchanged(p, [code], 0, none, pal);
    Unchanged(p, [code, Plain(5)], 0, none, pal);
    Unchanged(p, [code, Plain(2)], 0, none, pal);
    Unchanged(p, [code, Plain(2), Plain(r)], 1, none, pal);
    Unchanged(p, [code, Plain(2), Plain(r), Plain(g)], 2, none, pal);
    Unchanged(p, [code, Plain(5), Arg(MISSING, false)] + rest, 1, rest, pal);
    if k != 2 && k != 5 { Unchanged(p, [code, Plain(k)] + rest, 0, rest, pal); }
  }

  lemma Unchanged(p: Ink, args: seq<Arg>, used: int, rest: seq<Arg>, pal: Palette)
    requires args != [] && (args[0].value == 38 || args[0].value == 48) && used >= -1
    requires var before := if args[0].value == 38 then p.fg else p.bg; LookupColour(before, args) == (before, used)
    requires After(args, 1 + used) == rest
    ensures Sgr(p, args, pal) == Sgr(p, rest, pal)
  {
  }

  lemma ThenCode(p: Ink, n: nat, q: Ink, m: nat, r: Ink, pal: Palette)
    requires Makes(p, n, q, pal) && Makes(q, m, r, pal)
    ensures Sgr(p, [Plain(n), Plain(m)], pal) == r
  {
    var none: seq<Arg> := [];
    assert [Plain(n), Plain(m)] == [Plain(n)] + ([Plain(m)] + none);
    assert Sgr(r, none, pal) == r;
  }

  /** For each attribute, its code and then its off code leave the attribute off and all else as it was. */
  lemma OnThenOff(p: Ink, pal: Palette)
    ensures Sgr(p, [Plain(3), Plain(23)], pal) == p.(attrs := p.attrs.(italic := false))
    ensures Sgr(p, [Plain(4), Plain(24)], pal) == p.(attrs := p.attrs.(underline := 0))
    ensures Sgr(p, [Plain(21), Plain(24)], pal) == p.(attrs := p.attrs.(underline := 0))
    ensures Sgr(p, [Plain(5), Plain(25)], pal) == p.(attrs := p.attrs.(blink := false))
    ensures Sgr(p, [Plain(7), Plain(27)], pal) == p.(attrs := p.attrs.(reverse := false))
    ensures Sgr(p, [Plain(8), Plain(28)], pal) == p.(attrs := p.attrs.(conceal := false))
    ensures Sgr(p, [Plain(9), Plain(29)], pal) == p.(attrs := p.attrs.(strike := false))
    ensures Sgr(p, [Plain(73), Plain(75)], pal) == p.(attrs := p.attrs.(small := false, baseline := NORMAL_LINE))
    ensures Sgr(p, [Plain(74), Plain(75)], pal) == p.(attrs := p.attrs.(small := false, baseline := NORMAL_LINE))
  {
    hide Makes, Sgr;
    AttributeCodes(p, pal);
    Off(p, 3, p.attrs.(italic := true), 23, pal);
    Off(p, 4, p.attrs.(underline := SINGLE), 24, pal);
    Off(p, 21, p.attrs.(underline := DOUBLE), 24, pal);
    Off(p, 5, p.attrs.(blink := true), 25, pal);
    Off(p, 7, p.attrs.(reverse := true), 27, pal);
    Off(p, 8, p.attrs.(conceal := true), 28, pal);
    Off(p, 9, p.attrs.(strike := true), 29, pal);
    Off(p, 73, p.attrs.(small := true, baseline := RAISE), 75, pal);
    Off(p, 74, p.attrs.(small := true, baseline := LOWER), 75, pal);
  }

  /** So do bold and its off code, except that they leave a colour bright that bold made so. */
  lemma BoldOnThenOff(p: Ink, pal: Palette)
    ensures Sgr(p, [Plain(1), Plain(22)], pal)
            == Ink(p.attrs.(bold := false), Seen(p.(attrs := p.attrs.(bold := true)), p.fg, true, pal), p.bg)
  {
    hide Makes, Sgr, Seen;
    var bold := Ink(p.attrs.(bold := true), Seen(p.(attrs := p.attrs.(bold := true)), p.fg, true, pal), p.bg);
    BoldCode(p, pal);
    AttributeCodes(bold, pal);
    ThenCode(p, 1, bold, 22, bold.(attrs := p.attrs.(bold := false)), pal);
  }

  lemma Off(p: Ink, n: nat, on: Attrs, m: nat, pal: Palette)
    requires Makes(p, n, p.(attrs := on), pal) && m in {23, 24, 25, 27, 28, 29, 75}
    ensures Sgr(p, [Plain(n), Plain(m)], pal) == p.(attrs := Cleared(on, m))
  {
    hide Makes, Sgr;
    AttributeCodes(p.(attrs := on), pal);
    ThenCode(p, n, p.(attrs := on), m, p.(attrs := Cleared(on, m)), pal);
  }

  function Cleared(a: Attrs, m: nat): Attrs {
    match m
    case 23 => a.(italic := false)
    case 24 => a.(underline := 0)
    case 25 => a.(blink := false)
    case 27 => a.(reverse := false)
    case 28 => a.(conceal := false)
    case 29 => a.(strike := false)
    case 75 => a.(small := false, baseline := NORMAL_LINE)
    case _ => a
  }

  lemma SgrSmall(p: Ink, a: Attrs, pal: Palette)
    requires (a.small <==> a.baseline != NORMAL_LINE) && a.baseline <= LOWER
    requires !p.attrs.small && p.attrs.baseline == NORMAL_LINE
    ensures Sgr(p, SmallArgs(a), pal) == p.(attrs := p.attrs.(small := a.small, baseline := a.baseline))
  {
    if a.small {
      assert SmallArgs(a) + [] == SmallArgs(a);
      SgrOne(p, Plain(if a.baseline == RAISE then 73 else 74), [], pal);
    }
  }

  lemma SgrFont(p: Ink, a: Attrs, rest: seq<Arg>, pal: Palette)
    requires a.font <= 9 && p.attrs.font == 0 && (!pal.boldIsHighbright || p.fg.defaultFg)
    ensures
      Sgr(p, FontArgs(a, rest), pal)
      == Sgr(p.(attrs :=
          p.attrs.(font := a.font, underline := if a.underline == DOUBLE then DOUBLE else p.attrs.underline)), rest,
          pal)
  {
    hide Sgr, When;
    SgrAttrWhen(p, a.font != 0, 10 + a.font, When(a.underline == DOUBLE, 21) + rest, pal);
    SgrAttrWhen(p.(attrs := p.attrs.(font := a.font)), a.underline == DOUBLE, 21, rest, pal);
  }

  lemma SgrStyle(p: Ink, a: Attrs, rest: seq<Arg>, pal: Palette)
    requires a.font <= 9 && p.attrs.font == 0 && (!pal.boldIsHighbright || p.fg.defaultFg)
    requires !p.attrs.blink && !p.attrs.reverse && !p.attrs.conceal && !p.attrs.strike
    ensures
      Sgr(p, StyleArgs(a, rest), pal)
      == Sgr(p.(attrs := p.attrs.(blink := a.blink, reverse := a.reverse, conceal := a.conceal, strike := a.strike,
          font := a.font,
                                  underline := if a.underline == DOUBLE then DOUBLE else p.attrs.underline)), rest, pal)
  {
    hide Sgr, When, FontArgs;
    var r4 := FontArgs(a, rest);
    var r3 := When(a.strike, 9) + r4;
    var r2 := When(a.conceal, 8) + r3;
    SgrAttrWhen(p, a.blink, 5, When(a.reverse, 7) + r2, pal);
    var b := p.attrs.(blink := a.blink);
    SgrAttrWhen(p.(attrs := b), a.reverse, 7, r2, pal);
    var c := b.(reverse := a.reverse);
    SgrAttrWhen(p.(attrs := c), a.conceal, 8, r3, pal);
    var d := c.(conceal := a.conceal);
    SgrAttrWhen(p.(attrs := d), a.strike, 9, r4, pal);
    SgrFont(p.(attrs := d.(strike := a.strike)), a, rest, pal);
  }

  lemma SgrAttrs(p: Ink, a: Attrs, rest: seq<Arg>, pal: Palette)
    requires p.attrs == PLAIN && a.underline <= CURLY && a.font <= 9 && (!pal.boldIsHighbright || p.fg.defaultFg)
    ensures Sgr(p, AttrArgs(a, rest), pal) == Sgr(p.(attrs := a.(small := false, baseline := NORMAL_LINE)), rest, pal)
  {
    hide Sgr, When, UnderlineArgs, StyleArgs;
    var r3 := StyleArgs(a, rest);
    var r2 := UnderlineArgs(a.underline) + r3;
    SgrAttrWhen(p, a.bold, 1, When(a.italic, 3) + r2, pal);
    var b := PLAIN.(bold := a.bold);
    SgrAttrWhen(p.(attrs := b), a.italic, 3, r2, pal);
    var c := b.(italic := a.italic);
    SgrUnderline(p.(attrs := c), a.underline, r3, pal);
    SgrStyle(p.(attrs := if a.underline == SINGLE || a.underline == CURLY then c.(underline := a.underline) else c), a,
        rest, pal);
  }

  /** Resetting and then applying the arguments that describe a pen restores it, unless bold is shown as
      bright and the pen is bold with one of the first eight palette colours. */
  lemma SetAfterGet(p: Ink, pal: Palette)
    requires Reachable(p, pal) && Defaults(pal)
    ensures Sgr(ResetInk(pal), InkArgs(p), pal) == p <==> !Brightens(p.attrs.bold, p.fg, pal)
  {
    hide Sgr, AttrArgs, ColourArgs, SmallArgs, Effect;
    var r2 := ColourArgs(p.bg, false) + SmallArgs(p.attrs);
    var r1 := ColourArgs(p.fg, true) + r2;
    var p0 := ResetInk(pal).(attrs := p.attrs.(small := false, baseline := NORMAL_LINE));
    SgrAttrs(ResetInk(pal), p.attrs, r1, pal);
    var p1 := p0.(fg := Seen(p0, p.fg, true, pal));
    if p.fg == pal.defaultFg { NoColourArgs(p.fg, true, r2); } else { SgrColour(p0, p.fg, true, r2, pal); }
    var p2 := p1.(bg := p.bg);
    if p.bg == pal.defaultBg { NoColourArgs(p.bg, false, SmallArgs(p.attrs)); }
        else { SgrColour(p1, p.bg, false, SmallArgs(p.attrs), pal); }
    SgrSmall(p2, p.attrs, pal);
  }

  lemma NoColourArgs(c: Color, fg: bool, rest: seq<Arg>)
    requires if fg then c.defaultFg else c.defaultBg
    ensures ColourArgs(c, fg) + rest == rest
  {
  }

  // ----- in place -----

  /** `vterm_state_setpen` and `vterm_state_getpen` on the pen of the state. */
  class Pencil {
    var pen: Ink
    const palette: Palette

    constructor (palette: Palette)
      ensures pen == ResetInk(palette) && this.palette == palette
    {
      this.palette := palette;
      pen := ResetInk(palette);
    }

    /** The colour argument of 38 and 48: what it names, and how many arguments it takes. */
    method Lookup(which: nat, args: seq<Arg>, from: nat, count: int, before: Color) returns (colour: Color, used: int)
      requires 2 <= from < |args| + 2 && count == |args| - from && which == Slot(args, from - 1).value
      ensures (colour, used) == LookupColour(before, args[from - 2..])
    {
      colour := before;
      if which == 2 {
        if count < 3 {
          return colour, count;
        }
        return Rgb8(Slot(args, from).value, Slot(args, from + 1).value, Slot(args, from + 2).value), 3;
      }
      if which == 5 {
        if count == 0 || Slot(args, from).value == MISSING {
          return colour, if count != 0 then 1 else 0;
        }
        return Indexed8(Slot(args, from).value), if count != 0 then 1 else 0;
      }
      return colour, 0;
    }

    method SetColour(args: seq<Arg>, argi: nat) returns (argi': nat)
      requires argi < |args| && (args[argi].value == 38 || args[argi].value == 48)
      modifies this`pen
      ensures pen == Effect(old(pen), args[argi..], palette) && argi' == argi + LastOf(old(pen), args[argi..])
    {
      var isFg := args[argi].value == 38;
      var colour, used := Lookup(Slot(args, argi + 1).value, args, argi + 2, |args| - argi - 2,
          if isFg then pen.fg else pen.bg);
      pen := if isFg then pen.(fg := colour) else pen.(bg := colour);
      argi' := argi + 1 + used;
    }

    method SetBold()
      modifies this`pen
      ensures forall args: seq<Arg> :: args != [] && args[0].value == 1 ==>
                pen == Effect(old(pen), args, palette) && LastOf(old(pen), args) == 0
    {
      var fg := pen.fg;
      pen := pen.(attrs := pen.attrs.(bold := true));
      if !fg.defaultFg && fg.Indexed? && fg.idx < 8 && palette.boldIsHighbright {
        pen := pen.(fg := Indexed8(fg.idx + 8));
      }
    }

    method SetUnderline(args: seq<Arg>, argi: nat) returns (argi': nat)
      requires argi < |args| && args[argi].value == 4
      modifies this`pen
      ensures pen == Effect(old(pen), args[argi..], palette) && argi' == argi + LastOf(old(pen), args[argi..])
    {
      argi' := argi;
      var underline := SINGLE;
      if args[argi].more {
        argi' := argi + 1;
        match Slot(args, argi').value
        case 0 => underline := 0;
        case 1 => underline := SINGLE;
        case 2 => underline := DOUBLE;
        case 3 => underline := CURLY;
        case _ =>
      }
      pen := pen.(attrs := pen.attrs.(underline := underline));
    }

    method SetOn(args: seq<Arg>, argi: nat)
      requires argi < |args| && (4 < args[argi].value < 22 || args[argi].value == 3)
      modifies this`pen
      ensures pen == old(pen).(attrs := AttrOn(old(pen).attrs, args[argi..]))
    {
      var n, a := args[argi].value, pen.attrs;
      match n
      case 3 => pen := pen.(attrs := a.(italic := true));
      case 5 => pen := pen.(attrs := a.(blink := true));
      case 7 => pen := pen.(attrs := a.(reverse := true));
      case 8 => pen := pen.(attrs := a.(conceal := true));
      case 9 => pen := pen.(attrs := a.(strike := true));
      case 21 => pen := pen.(attrs := a.(underline := DOUBLE));
      case _ =>
        if 10 <= n <= 19 {
          pen := pen.(attrs := a.(font := n - 10));
        }
    }

    method SetOff(n: nat)
      modifies this`pen
      ensures pen == old(pen).(attrs := AttrOff(old(pen).attrs, n))
    {
      var a := pen.attrs;
      match n
      case 22 => pen := pen.(attrs := a.(bold := false));
      case 23 => pen := pen.(attrs := a.(italic := false));
      case 24 => pen := pen.(attrs := a.(underline := 0));
      case 25 => pen := pen.(attrs := a.(blink := false));
      case 27 => pen := pen.(attrs := a.(reverse := false));
      case 28 => pen := pen.(attrs := a.(conceal := false));
      case 29 => pen := pen.(attrs := a.(strike := false));
      case _ =>
    }

    method SetAttr(args: seq<Arg>, argi: nat) returns (argi': nat)
      requires argi < |args| && 0 < args[argi].value < 30
      modifies this`pen
      ensures pen == Effect(old(pen), args[argi..], palette) && argi' == argi + LastOf(old(pen), args[argi..])
    {
      hide AttrOn, AttrOff;
      argi' := argi;
      var n := args[argi].value;
      if n == 1 {
        SetBold();
      } else if n == 4 {
        argi' := SetUnderline(args, argi);
      } else if n < 22 {
        if n != 2 {
          SetOn(args, argi);
        } else {
          NoEffect(pen, args[argi..]);
        }
      } else {
        SetOff(n);
      }
    }

    method SetOther(args: seq<Arg>, argi: nat)
      requires argi < |args| && args[argi].value >= 30 && args[argi].value != 38 && args[argi].value != 48
               && args[argi].value != MISSING
      modifies this`pen
      ensures pen == Effect(old(pen), args[argi..], palette) && 0 == LastOf(old(pen), args[argi..])
    {
      var n, a := args[argi].value, pen.attrs;
      if n <= 37 {
        var value := n - 30;
        if pen.attrs.bold && palette.boldIsHighbright {
          value := value + 8;
        }
        pen := pen.(fg := Indexed8(value));
      } else if n == 39 {
        pen := pen.(fg := palette.defaultFg);
      } else if 40 <= n <= 47 {
        pen := pen.(bg := Indexed8(n - 40));
      } else if n == 49 {
        pen := pen.(bg := palette.defaultBg);
      } else if 73 <= n <= 75 {
        pen := pen.(attrs :=
            a.(small := n != 75, baseline := if n == 73 then RAISE else if n == 74 then LOWER else NORMAL_LINE));
      } else if 90 <= n <= 97 {
        pen := pen.(fg := Indexed8(n - 90 + 8));
      } else if 100 <= n <= 107 {
        pen := pen.(bg := Indexed8(n - 100 + 8));
      }
    }

    /** Applies the parameters of one SGR command. */
    method SetPen(args: seq<Arg>)
      modifies this`pen
      ensures pen == Sgr(old(pen), args, palette)
    {
      hide Effect, LastOf;
      var argi := 0;
      assert args[0..] == args;
      while argi < |args|
        invariant Sgr(pen, if argi <= |args| then args[argi..] else [], palette) == Sgr(old(pen), args, palette)
      {
        ghost var before := pen;
        var last := argi;
        var arg := args[argi].value;
        if arg == MISSING || arg == 0 {
          pen := ResetInk(palette);
          ResetEffect(before, args[argi..], palette);
        } else if arg < 30 {
          last := SetAttr(args, argi);
        } else if arg == 38 || arg == 48 {
          last := SetColour(args, argi);
        } else {
          SetOther(args, argi);
        }
        ghost var k := last - argi;
        AfterSuffix(args, argi, k);
        argi := SkipMore(args, last);
      }
    }

    /** Skips a parameter together with the sub-arguments joined to it. */
    method SkipMore(args: seq<Arg>, last: nat) returns (argi: nat)
      ensures argi > last && After(args, last) == if argi <= |args| then args[argi..] else []
    {
      argi := last + 1;
      while Slot(args, argi - 1).more
        invariant argi > last && After(args, last) == After(args, argi - 1)
        decreases |args| - argi
      {
        argi := argi + 1;
      }
    }

    method Put(args: array<Arg>, argi: nat, a: Arg) returns (argi': nat)
      requires argi < args.Length
      modifies args
      ensures argi' == argi + 1 && args[..argi'] == old(args[..argi]) + [a]
    {
      args[argi] := a;
      argi' := argi + 1;
    }

    method PutWhen(args: array<Arg>, argi: nat, b: bool, n: nat) returns (argi': nat)
      requires argi < args.Length
      modifies args
      ensures argi <= argi' <= argi + 1 && args[..argi'] == old(args[..argi]) + When(b, n)
    {
      argi' := argi;
      if b {
        argi' := Put(args, argi', Plain(n));
      }
    }

    method PutStyle(args: array<Arg>, argi: nat) returns (argi': nat)
      requires argi + 6 <= args.Length
      modifies args
      ensures argi <= argi' <= argi + (if pen.attrs.underline == DOUBLE then 6 else 5)
      ensures args[..argi'] == old(args[..argi]) + StyleArgs(pen.attrs, [])
    {
      hide When;
      ghost var s0, a := args[..argi], pen.attrs;
      argi' := PutWhen(args, argi, pen.attrs.blink, 5);
      argi' := PutWhen(args, argi', pen.attrs.reverse, 7);
      argi' := PutWhen(args, argi', pen.attrs.conceal, 8);
      argi' := PutWhen(args, argi', pen.attrs.strike, 9);
      argi' := PutWhen(args, argi', pen.attrs.font != 0, 10 + pen.attrs.font);
      if pen.attrs.underline == DOUBLE {
        argi' := PutWhen(args, argi', true, 21);
      } else {
        NoWhen(args[..argi'], 21);
      }
      Grouped(s0, When(a.blink, 5), When(a.reverse, 7), When(a.conceal, 8), When(a.strike, 9),
          When(a.font != 0, 10 + a.font), When(a.underline == DOUBLE, 21));
    }

    method PutAttrs(args: array<Arg>) returns (argi: nat)
      requires args.Length == GETPEN_ARGS
      modifies args
      ensures argi <= 9 && args[..argi] == AttrArgs(pen.attrs, [])
    {
      hide When, StyleArgs;
      ghost var a := pen.attrs;
      assert args[..0] == [];
      argi := PutWhen(args, 0, pen.attrs.bold, 1);
      argi := PutWhen(args, argi, pen.attrs.italic, 3);
      ghost var s := args[..argi];
      if pen.attrs.underline == SINGLE {
        argi := Put(args, argi, Plain(4));
      }
      if pen.attrs.underline == CURLY {
        argi := Put(args, argi, Joined(4));
        argi := Put(args, argi, Plain(3));
      }
      assert args[..argi] == s + UnderlineArgs(a.underline);
      argi := PutStyle(args, argi);
      assert When(a.bold, 1) + When(a.italic, 3) + UnderlineArgs(a.underline) + StyleArgs(a, []) == AttrArgs(a, []);
    }

    method PutColour(args: array<Arg>, argi: nat, c: Color, fg: bool) returns (argi': nat)
      requires argi + 5 <= args.Length
      modifies args
      ensures argi <= argi' <= argi + 5 && args[..argi'] == old(args[..argi]) + ColourArgs(c, fg)
    {
      argi' := argi;
      if (fg && c.defaultFg) || (!fg && c.defaultBg) {
        return;
      }
      match c
      case Indexed(idx, _, _) =>
        if idx < 8 {
          argi' := Put(args, argi', Plain(idx + (if fg then 30 else 40)));
        } else if idx < 16 {
          argi' := Put(args, argi', Plain(idx - 8 + (if fg then 90 else 100)));
        } else {
          argi' := Put(args, argi', Joined(if fg then 38 else 48));
          argi' := Put(args, argi', Joined(5));
          argi' := Put(args, argi', Plain(idx));
        }
      case Rgb(red, green, blue, _, _) =>
        argi' := Put(args, argi', Joined(if fg then 38 else 48));
        argi' := Put(args, argi', Joined(2));
        argi' := Put(args, argi', Joined(red));
        argi' := Put(args, argi', Joined(green));
        argi' := Put(args, argi', Plain(blue));
    }

    /** Lists the arguments that describe the pen: never more than there is room for. */
    method GetPen(args: array<Arg>) returns (argi: nat)
      requires args.Length == GETPEN_ARGS
      modifies args
      ensures argi <= args.Length && args[..argi] == InkArgs(pen)
    {
      hide ColourArgs, AttrArgs;
      ghost var p := pen;
      argi := PutAttrs(args);
      argi := PutColour(args, argi, pen.fg, true);
      argi := PutColour(args, argi, pen.bg, false);
      ghost var s := args[..argi];
      if pen.attrs.small {
        if pen.attrs.baseline == RAISE {
          argi := Put(args, argi, Plain(73));
        } else if pen.attrs.baseline == LOWER {
          argi := Put(args, argi, Plain(74));
        }
      }
      assert args[..argi] == s + SmallArgs(p.attrs);
      AttrArgsThen(p.attrs, ColourArgs(p.fg, true) + (ColourArgs(p.bg, false) + SmallArgs(p.attrs)));
      assert AttrArgs(p.attrs, []) + ColourArgs(p.fg, true) + ColourArgs(p.bg, false) + SmallArgs(p.attrs)
             == InkArgs(p);
    }
  }

  lemma NoWhen(s: seq<Arg>, n: nat)
    ensures s + When(false, n) == s
  {
  }

  lemma Grouped(s: seq<Arg>, a: seq<Arg>, b: seq<Arg>, c: seq<Arg>, d: seq<Arg>, e: seq<Arg>, f: seq<Arg>)
    ensures s + a + b + c + d + e + f == s + (a + (b + (c + (d + (e + (f + []))))))
  {
    assert f + [] == f;
    assert c + d + e + f == c + (d + (e + f));
    assert a + b + (c + d + e + f) == a + (b + (c + (d + (e + f))));
    assert s + a + b + c + d + e + f == s + (a + b + (c + d + e + f));
  }

  lemma AttrArgsThen(a: Attrs, rest: seq<Arg>)
    ensures AttrArgs(a, rest) == AttrArgs(a, []) + rest
  {
    hide When, UnderlineArgs;
    StyleArgsThen(a, rest);
    assert When(a.bold, 1) + (When(a.italic, 3) + (UnderlineArgs(a.underline) + (StyleArgs(a, []) + rest)))
        == (When(a.bold, 1) + (When(a.italic, 3) + (UnderlineArgs(a.underline) + StyleArgs(a, [])))) + rest;
  }

  lemma Assoc(a: seq<Arg>, b: seq<Arg>, c: seq<Arg>)
    ensures a + (b + c) == (a + b) + c
  {
  }

  lemma FontArgsThen(a: Attrs, rest: seq<Arg>)
    ensures FontArgs(a, rest) == FontArgs(a, []) + rest
  {
    hide When;
    var e, f := When(a.font != 0, 10 + a.font), When(a.underline == DOUBLE, 21);
    assert f + [] == f;
    Assoc(e, f, rest);
  }

  lemma StyleArgsThen(a: Attrs, rest: seq<Arg>)
    ensures StyleArgs(a, rest) == StyleArgs(a, []) + rest
  {
    hide When, FontArgs;
    FontArgsThen(a, rest);
    var r4 := FontArgs(a, []);
    var r3 := When(a.strike, 9) + r4;
    var r2 := When(a.conceal, 8) + r3;
    var r1 := When(a.reverse, 7) + r2;
    Assoc(When(a.strike, 9), r4, rest);
    Assoc(When(a.conceal, 8), r3, rest);
    Assoc(When(a.reverse, 7), r2, rest);
    Assoc(When(a.blink, 5), r1, rest);
  }

  lemma NoEffect(p: Ink, args: seq<Arg>)
    requires args != [] && args[0].value == 2
    ensures AttrOn(p.attrs, args) == p.attrs
  {
  }

  lemma ResetEffect(p: Ink, args: seq<Arg>, pal: Palette)
    requires args != [] && (args[0].value == MISSING || args[0].value == 0)
    ensures Effect(p, args, pal) == ResetInk(pal) && LastOf(p, args) == 0
  {
  }

  lemma {:induction false} AfterSuffix(args: seq<Arg>, i: nat, k: nat)
    requires i <= |args|
    ensures After(args[i..], k) == After(args, i + k)
    decreases |args| - k
  {
    if i + k < |args| && args[i + k].more { AfterSuffix(args, i, k + 1); }
  }
}
