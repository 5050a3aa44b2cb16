/** The escape-sequence parser of the terminal, byte by byte: which state a byte leads to and what it means
    for the string being collected, if any. */
module ParserRules {
  import opened Wrappers

  type Byte = b: int | 0 <= b < 256

  const INTERMED_MAX: nat := 16
  const CSI_LEADER_MAX: nat := 16
  const CSI_ARGS_MAX: nat := 16

  const NUL: Byte := 0x00
  const BEL: Byte := 0x07
  const CAN: Byte := 0x18
  const SUB: Byte := 0x1a
  const ESC: Byte := 0x1b
  const DEL: Byte := 0x7f
  const ST: Byte := 0x9c

  /** In the order of the source: from OscCommand on, a string is being read. The command part of a DCS string
      comes before that. */
  datatype State = Normal | CsiLeader | CsiArgs | CsiIntermed | DcsCommand | OscCommand | Osc | Dcs | Apc | Pm | Sos

  predicate IsCommand(s: State) { s == OscCommand || s == DcsCommand }

  predicate IsContent(s: State) { s == Osc || s == Dcs || s == Apc || s == Pm || s == Sos }

  predicate IsString(s: State) { s == OscCommand || IsContent(s) }

  /** An argument of a CSI command; `more` marks one followed by ':'. */
  datatype Arg = Arg(value: nat, more: bool)

  /** The value of an argument left out. */
  const MISSING: nat := 0x7fff_ffff

  datatype Event =
    | Text(c: Byte)
    | Control(c: Byte)
    | Escape(bytes: seq<Byte>)
    | Csi(leader: seq<Byte>, args: seq<Arg>, intermed: seq<Byte>, command: Byte)
    | OscString(number: int, data: seq<Byte>)
    | DcsString(prefix: seq<Byte>, data: seq<Byte>)
    | ApcString(data: seq<Byte>)
    | PmString(data: seq<Byte>)
    | SosString(data: seq<Byte>)

  /** The parser's fields, apart from those that handle string fragments. */
  datatype Regs = Regs(
    state: State,
    inEsc: bool,
    intermed: seq<Byte>,
    leader: seq<Byte>,
    args: seq<Arg>,
    osc: int,
    dcs: seq<Byte>)

  /** What a byte does beyond changing the registers. */
  datatype Act =
    | Out(events: seq<Event>)       // events; a string being read goes on
    | Cancel(events: seq<Event>)    // events; a string being read is given up
    | Split(events: seq<Event>)     // the byte is no part of the string, which goes on after it
    | Enter                         // a string begins with its command
    | EnterBegin                    // a string begins, its content with the next byte
    | Begin                         // the content begins with the next byte
    | BeginAt                       // the content begins with this byte
    | BeginEnd                      // the content is empty and the string complete
    | Add                           // the byte is content
    | End                           // the string is complete

  function Completed(r: Regs, kind: State, data: seq<Byte>): Event
    requires IsContent(kind)
  {
    match kind
    case Osc => OscString(r.osc, data)
    case Dcs => DcsString(r.dcs, data)
    case Apc => ApcString(data)
    case Pm => PmString(data)
    case Sos => SosString(data)
  }

  function Limited(s: seq<Byte>, c: Byte, limit: nat): seq<Byte> { if |s| < limit then s + [c] else s }

  predicate IsIntermed(c: int) { 0x20 <= c <= 0x2f }

  // ----- the states -----

  function CsiFinalByte(r: Regs, c: Byte): (Regs, Act) {
    if IsIntermed(c) then (r.(intermed := Limited(r.intermed, c, INTERMED_MAX - 1)), Out([]))
    else (r.(state := Normal), Out(if 0x40 <= c <= 0x7e then [Csi(r.leader, r.args, r.intermed, c)] else []))
  }

  function AddDigit(a: Arg, c: Byte): Arg
    requires 0x30 <= c <= 0x39
  {
    a.(value := (if a.value == MISSING then 0 else a.value) * 10 + (c - 0x30))
  }

  function CsiArgsByte(r: Regs, c: Byte): (Regs, Act)
    requires r.args != []
  {
    var last := |r.args| - 1;
    if 0x30 <= c <= 0x39 then (r.(args := r.args[..last] + [AddDigit(r.args[last], c)]), Out([]))
    else if c == 0x3a then (r.(args := r.args[..last] + [r.args[last].(more := true), Arg(MISSING, false)]), Out([]))
    else if c == 0x3b then (r.(args := r.args + [Arg(MISSING, false)]), Out([]))
    else CsiFinalByte(r.(intermed := [], state := CsiIntermed), c)
  }

  function OscCommandByte(r: Regs, c: Byte, c1: bool): (Regs, Act) {
    if 0x30 <= c <= 0x39 then (r.(osc := (if r.osc == -1 then 0 else r.osc * 10) + (c - 0x30)), Out([]))
    else if c == 0x3b then (r.(state := Osc), Begin)
    else if c == BEL || (c1 && c == ST) then (r.(state := Normal), BeginEnd)
    else (r.(state := Osc), BeginAt)
  }

  function DcsCommandByte(r: Regs, c: Byte): (Regs, Act) {
    var r' := r.(dcs := Limited(r.dcs, c, CSI_LEADER_MAX));
    if 0x40 <= c <= 0x7e then (r'.(state := Dcs), Begin) else (r', Out([]))
  }

  /** A byte after ESC that is no ESC-letter form of a C1 control. */
  function EscapeByte(r: Regs, c: Byte): (Regs, Act) {
    if IsIntermed(c) then (r.(intermed := Limited(r.intermed, c, INTERMED_MAX - 1)), Cancel([]))
    else if 0x30 <= c < 0x7f then (r.(inEsc := false), Cancel([Escape(r.intermed + [c])]))
    else (r, Cancel([]))
  }

  function C1Byte(r: Regs, c: Byte): (Regs, Act) {
    if c == 0x90 then (r.(state := DcsCommand, dcs := []), Enter)
    else if c == 0x98 then (r.(state := Sos), EnterBegin)
    else if c == 0x9b then (r.(state := CsiLeader, leader := []), Out([]))
    else if c == 0x9d then (r.(state := OscCommand, osc := -1), Enter)
    else if c == 0x9e then (r.(state := Pm), EnterBegin)
    else if c == 0x9f then (r.(state := Apc), EnterBegin)
    else (r, Out([Control(c)]))
  }

  /** The switch on the state; `c1` says that `c` stands for a C1 control. */
  function Dispatch(r: Regs, c: Byte, c1: bool): (Regs, Act)
    requires r.args != []
  {
    match r.state
    case CsiLeader =>
      if 0x3c <= c <= 0x3f then (r.(leader := Limited(r.leader, c, CSI_LEADER_MAX - 1)), Out([]))
      else CsiArgsByte(r.(args := [Arg(MISSING, false)], state := CsiArgs), c)
    case CsiArgs => CsiArgsByte(r, c)
    case CsiIntermed => CsiFinalByte(r, c)
    case OscCommand => OscCommandByte(r, c, c1)
    case DcsCommand => DcsCommandByte(r, c)
    case Normal => if c1 then C1Byte(r, c) else (r, Out([Text(c)]))
    case _ => if c == BEL || (c1 && c == ST) then (r.(state := Normal), End) else (r, Add)
  }

  /** ESC and a letter stand for a C1 control outside strings; inside, only ESC \ does. */
  predicate Hoists(r: Regs, c: Byte) {
    r.intermed == [] && 0x40 <= c < 0x60 && (!IsString(r.state) || c == 0x5c)
  }

  function AfterEsc(r: Regs, c: Byte): (Regs, Act)
    requires r.args != []
  {
    if Hoists(r, c) then Dispatch(r.(inEsc := false), c + 0x40, true) else EscapeByte(r.(state := Normal), c)
  }

  /** What one byte does, in UTF-8 mode. */
  function React(r: Regs, c: Byte, emitNul: bool): (Regs, Act)
    requires r.args != []
  {
    var shown := if emitNul then [Control(c)] else [];
    if c == NUL || c == DEL then (r, if IsString(r.state) then Split(shown) else Out(shown))
    else if c == CAN || c == SUB then (r.(inEsc := false, state := Normal), Cancel(shown))
    else if c == ESC then (r.(intermed := [], inEsc := true, state := if IsString(r.state) then r.state else Normal),
        Out([]))
    else if c < 0x20 && !(c == BEL && IsString(r.state)) then
      if r.state == Sos then (r, Add)
      else (r, if IsString(r.state) then Split([Control(c)]) else Out([Control(c)]))
    else if r.inEsc then AfterEsc(r, c)
    else Dispatch(r, c, false)
  }

  /** The byte opens an argument for which the array has no room. */
  predicate Overflows(r: Regs, c: Byte) {
    r.state == CsiArgs && !r.inEsc && (c == 0x3a || c == 0x3b) && |r.args| >= CSI_ARGS_MAX
  }

  /** Controls that are delivered in the middle of a string. */
  predicate Interrupts(c: Byte) { c == NUL || c == DEL || (c < 0x20 && c != BEL && c != CAN && c != SUB && c != ESC) }

  // ----- the reference: one byte at a time, strings collected whole -----

  datatype Machine = Machine(regs: Regs, body: seq<Byte>, log: seq<Event>)

  /** Only the content of a string being read is remembered. */
  function Body(r: Regs, body: seq<Byte>): seq<Byte> { if IsContent(r.state) then body else [] }

  function Advance(m: Machine, c: Byte, r: Regs, act: Act): Machine {
    match act
    case Out(es) => Machine(r, Body(r, m.body), m.log + es)
    case Cancel(es) => Machine(r, Body(r, m.body), m.log + es)
    case Split(es) => Machine(r, Body(r, m.body), m.log + es)
    case BeginAt => Machine(r, [c], m.log)
    case BeginEnd => Machine(r, [], m.log + [Completed(r, Osc, [])])
    case Add => Machine(r, m.body + [c], m.log)
    case End => Machine(r, [], m.log + (if IsContent(m.regs.state) then [Completed(r, m.regs.state, m.body)] else []))
    case _ => Machine(r, [], m.log)
  }

  function Step(m: Machine, c: Byte, emitNul: bool): Machine
    requires m.regs.args != []
  {
    var (r, act) := React(m.regs, c, emitNul);
    Advance(m, c, r, act)
  }

  /** How acts and states go together. */
  predicate Fitting(r: Regs, c: Byte, r': Regs, act: Act) {
    && r'.args != []
    && (IsCommand(r'.state) && act != Enter ==> IsCommand(r.state))
    && match act
       case Out(_) => IsContent(r'.state) == IsContent(r.state)
           && (IsContent(r.state) ==> r'.state == r.state && c == ESC && r'.inEsc)
       case Cancel(_) => r'.state == Normal
       case Split(_) => r' == r && IsString(r.state) && Interrupts(c)
       case Enter => IsCommand(r'.state)
       case EnterBegin => IsContent(r'.state) && !r'.inEsc
       case Begin => IsCommand(r.state) && IsContent(r'.state) && !r'.inEsc
       case BeginAt => IsCommand(r.state) && IsContent(r'.state) && !r'.inEsc
       case BeginEnd => IsCommand(r.state) && r'.state == Normal
       case Add => IsContent(r.state) && r' == r && (r.inEsc ==> Interrupts(c))
       case End => IsContent(r.state) && r' == r.(state := Normal, inEsc := false)
  }

  lemma ReactFits(r: Regs, c: Byte, emitNul: bool)
    requires r.args != []
    ensures var (r', act) := React(r, c, emitNul); Fitting(r, c, r', act)
  {
  }

  function Run(m: Machine, bytes: seq<Byte>, emitNul: bool): (m': Machine)
    requires m.regs.args != []
    ensures m'.regs.args != []
    decreases |bytes|
  {
    if bytes == [] then m
    else
      var before := Run(m, bytes[..|bytes| - 1], emitNul);
      ReactFits(before.regs, bytes[|bytes| - 1], emitNul);
      Step(before, bytes[|bytes| - 1], emitNul)
  }

  lemma {:induction false} RunThen(m: Machine, a: seq<Byte>, b: seq<Byte>, emitNul: bool)
    requires m.regs.args != []
    ensures Run(m, a + b, emitNul) == Run(Run(m, a, emitNul), b, emitNul)
    decreases |b|
  {
    if b == [] {
      assert a + b == a;
    } else {
      var last := |b| - 1;
      assert (a + b)[..|a + b| - 1] == a + b[..last];
      RunThen(m, a, b[..last], emitNul);
    }
  }

  // ----- inputs whose meaning does not depend on how they are split -----

  /** A byte that means the same wherever the input was split before it: after an ESC in the content of a string no
      interrupting control and no second ESC; no interrupting control in the command part of OSC; no argument too
      many. */
  predicate CleanByte(r: Regs, c: Byte) {
    && (IsContent(r.state) && r.inEsc ==> !Interrupts(c) && c != ESC)
    && (r.state == OscCommand ==> !Interrupts(c))
    && !Overflows(r, c)
  }

  predicate Clean(m: Machine, bytes: seq<Byte>, emitNul: bool)
    requires m.regs.args != []
    decreases |bytes|
  {
    bytes == [] || (Clean(m, bytes[..|bytes| - 1], emitNul)
        && CleanByte(Run(m, bytes[..|bytes| - 1], emitNul).regs, bytes[|bytes| - 1]))
  }

  lemma {:induction false} CleanThen(m: Machine, a: seq<Byte>, b: seq<Byte>, emitNul: bool)
    requires m.regs.args != [] && Clean(m, a + b, emitNul)
    ensures Clean(m, a, emitNul) && Clean(Run(m, a, emitNul), b, emitNul)
    decreases |b|
  {
    if b == [] {
      assert a + b == a;
    } else {
      var last := |b| - 1;
      assert (a + b)[..|a + b| - 1] == a + b[..last];
      CleanThen(m, a, b[..last], emitNul);
      RunThen(m, a, b[..last], emitNul);
    }
  }
}
