/** The parser's loop over the bytes of a chunk, in place. */
module ParserLoop {
  import opened Wrappers
  import opened ParserRules
  import opened Parser

  class InputParser {
    var state: State
    var inEsc: bool
    var intermed: seq<Byte>
    var leader: seq<Byte>
    var args: seq<Arg>
    var oscCommand: int
    var dcsCommand: seq<Byte>
    var stringInitial: bool
    var emitNul: bool

    // Who receives the parser's callbacks: fragments are joined, everything else is logged.
    var acc: seq<Byte>
    var log: seq<Event>

    function Fields(): Regs
      reads this
    {
      Regs(state, inEsc, intermed, leader, args, oscCommand, dcsCommand)
    }

    /** The parser in the middle of a chunk, with its local `stringStart`. */
    function View(start: Option<int>): Frame
      reads this
    {
      Frame(Fields(), stringInitial, acc, log, start, true)
    }

    constructor (emitNul: bool)
      ensures View(None) == Frame(Regs(Normal, false, [], [], [Arg(MISSING, false)], -1, []), true, [], [], None, true)
      ensures this.emitNul == emitNul && Coherent(View(None))
    {
      state, inEsc, intermed, leader, args, oscCommand, dcsCommand := Normal, false, [], [], [Arg(MISSING, false)], -1,
          [];
      stringInitial, acc, log := true, [], [];
      this.emitNul := emitNul;
    }

    method DoControl(c: Byte)
      modifies this`log
      ensures log == old(log) + [Control(c)]
    {
      log := log + [Control(c)];
    }

    /** Hands a fragment to the receiver, which joins it to the ones before. */
    method StringFragment(str: seq<Byte>, final: bool)
      modifies this`stringInitial, this`acc, this`log
      ensures forall start: Option<int> :: View(start) == Fragment(old(View(start)), state, str, final)
    {
      if IsContent(state) {
        acc := if stringInitial then str else acc + str;
        if final {
          log := log + [Completed(Fields(), state, acc)];
        }
      }
      stringInitial := false;
    }

    /** Offers the rest of the chunk as text; the receiver takes some of the run of text bytes at its start. */
    method TextCallback(bytes: seq<Byte>, pos: nat) returns (eaten: nat)
      requires pos < |bytes| && bytes[pos] >= 0x20 && bytes[pos] != DEL
      modifies this`log
      ensures 1 <= eaten <= |bytes| - pos
      ensures forall i :: pos <= i < pos + eaten ==> bytes[i] >= 0x20 && bytes[i] != DEL
      ensures log == old(log) + Texts(bytes[pos..pos + eaten])
    {
      eaten :| 1 <= eaten <= |bytes| - pos && forall i :: pos <= i < pos + eaten ==>
            bytes[i] >= 0x20 && bytes[i] != DEL by {
        assert 1 <= 1 <= |bytes| - pos && forall i :: pos <= i < pos + 1 ==> bytes[i] >= 0x20 && bytes[i] != DEL;
      }
      log := log + Texts(bytes[pos..pos + eaten]);
    }

    // ----- the cases of the switch -----

    /** These cases only change the registers and report commands. */
    ghost predicate Reacted(out: (Regs, Act), before: seq<Event>)
      reads this
    {
      out.1.Out? && Fields() == out.0 && log == before + out.1.events
    }

    method CsiFinal(c: Byte)
      modifies this`state, this`intermed, this`log
      ensures Reacted(CsiFinalByte(old(Fields()), c), old(log))
    {
      assert log == log + [];
      if IsIntermed(c) {
        if |intermed| < INTERMED_MAX - 1 {
          intermed := intermed + [c];
        }
        return;
      }
      if 0x40 <= c <= 0x7e {
        log := log + [Csi(leader, args, intermed, c)];
      }
      state := Normal;
    }

    method CsiArg(c: Byte)
      requires args != []
      modifies this`state, this`intermed, this`args, this`log
      ensures Reacted(CsiArgsByte(old(Fields()), c), old(log))
    {
      assert log == log + [];
      var argi := |args| - 1;
      if 0x30 <= c <= 0x39 {
        if args[argi].value == MISSING {
          args := args[..argi] + [args[argi].(value := 0)];
        }
        args := args[..argi] + [args[argi].(value := args[argi].value * 10 + (c - 0x30))];
        return;
      }
      if c == 0x3a {
        args := args[..argi] + [args[argi].(more := true)];
      }
      if c == 0x3a || c == 0x3b {
        args := args + [Arg(MISSING, false)];
        return;
      }
      intermed := [];
      state := CsiIntermed;
      CsiFinal(c);
    }

    method CsiLead(c: Byte, ghost c1: bool)
      requires state == CsiLeader && args != []
      modifies this`state, this`intermed, this`args, this`leader, this`log
      ensures Reacted(Dispatch(old(Fields()), c, c1), old(log))
    {
      assert log == log + [];
      if 0x3c <= c <= 0x3f {
        if |leader| < CSI_LEADER_MAX - 1 {
          leader := leader + [c];
        }
        return;
      }
      args := [Arg(MISSING, false)];
      state := CsiArgs;
      CsiArg(c);
    }

    /** Bytes of a string's content: BEL or ST completes it. */
    method StringByte(c: Byte, c1: bool, str: seq<Byte>, start: Option<int>) returns (start': Option<int>)
      requires IsContent(state)
      modifies this`state, this`stringInitial, this`acc, this`log
      ensures
        var f, done := old(View(start)), c == BEL || (c1 && c == ST);
        View(start') == if done then Fragment(f, old(state), str, true).(start := None,
            regs := f.regs.(state := Normal)) else f
    {
      start' := start;
      if c == BEL || (c1 && c == ST) {
        StringFragment(str, true);
        state := Normal;
        start' := None;
      }
    }

    method OscCommandTurn(c: Byte, c1: bool, pos: nat, start: Option<int>, ghost cut: seq<Byte>, ghost str: seq<Byte>)
      returns (start': Option<int>)
      requires state == OscCommand
      modifies this`state, this`oscCommand, this`stringInitial, this`acc, this`log
      ensures
        var (r, act) := OscCommandByte(old(Fields()), c, c1);
        View(start') == ApplyTo(old(View(start)), OscCommand, cut, str, pos, r, act)
    {
      assert log == log + [];
      start' := start;
      if 0x30 <= c <= 0x39 {
        oscCommand := (if oscCommand == -1 then 0 else oscCommand * 10) + (c - 0x30);
        return;
      }
      if c == 0x3b {
        state := Osc;
        return Some(pos + 1);
      }
      state := Osc;
      start' := StringByte(c, c1, [], Some(pos));
    }

    method DcsCommandTurn(c: Byte, pos: nat, start: Option<int>, ghost cut: seq<Byte>, ghost str: seq<Byte>)
      returns (start': Option<int>)
      requires state == DcsCommand
      modifies this`state, this`dcsCommand
      ensures
        var (r, act) := DcsCommandByte(old(Fields()), c);
        View(start') == ApplyTo(old(View(start)), DcsCommand, cut, str, pos, r, act)
    {
      assert log == log + [];
      start' := start;
      if |dcsCommand| < CSI_LEADER_MAX {
        dcsCommand := dcsCommand + [c];
      }
      if 0x40 <= c <= 0x7e {
        start' := Some(pos + 1);
        state := Dcs;
      }
    }

    method C1Turn(c: Byte, pos: nat, start: Option<int>, ghost cut: seq<Byte>, ghost str: seq<Byte>)
      returns (start': Option<int>)
      modifies this`state, this`dcsCommand, this`oscCommand, this`leader, this`stringInitial, this`log
      ensures
        var (r, act) := C1Byte(old(Fields()), c);
        View(start') == ApplyTo(old(View(start)), Normal, cut, str, pos, r, act)
    {
      assert log == log + [];
      start' := start;
      match c
      case 0x90 =>
        stringInitial := true;
        dcsCommand := [];
        state := DcsCommand;
        start' := None;
      case 0x98 =>
        stringInitial := true;
        state := Sos;
        start' := Some(pos + 1);
      case 0x9b =>
        leader := [];
        state := CsiLeader;
      case 0x9d =>
        oscCommand := -1;
        stringInitial := true;
        state := OscCommand;
        start' := None;
      case 0x9e =>
        stringInitial := true;
        state := Pm;
        start' := Some(pos + 1);
      case 0x9f =>
        stringInitial := true;
        state := Apc;
        start' := Some(pos + 1);
      case _ =>
        DoControl(c);
    }

    /** After an ESC that does not stand for a C1 control: an escape sequence. */
    method EscapeTurn(c: Byte)
      modifies this`state, this`inEsc, this`intermed, this`log
      ensures
        var (r, act) := EscapeByte(old(Fields()).(state := Normal), c);
        act.Cancel? && Fields() == r && log == old(log) + act.events
    {
      assert log == log + [];
      state := Normal;
      if IsIntermed(c) {
        if |intermed| < INTERMED_MAX - 1 {
          intermed := intermed + [c];
        }
      } else if 0x30 <= c < 0x7f {
        log := log + [Escape(intermed + [c])];
        inEsc := false;
      }
    }

    /** The switch on the state, for everything but text. */
    method Switch(c: Byte, c1: bool, pos: nat, str: seq<Byte>, start: Option<int>, ghost cut: seq<Byte>)
      returns (start': Option<int>)
      requires args != [] && (state == Normal ==> c1)
      modifies this`state, this`intermed, this`args, this`leader, this`oscCommand, this`dcsCommand, this`stringInitial,
               this`acc, this`log
      ensures
        var (r, act) := Dispatch(old(Fields()), c, c1);
        View(start') == ApplyTo(old(View(start)), old(state), cut, str, pos, r, act)
    {
      start' := start;
      match state
      case CsiLeader => CsiLead(c, c1);
      case CsiArgs => CsiArg(c);
      case CsiIntermed => CsiFinal(c);
      case OscCommand => start' := OscCommandTurn(c, c1, pos, start, cut, str);
      case DcsCommand => start' := DcsCommandTurn(c, pos, start, cut, str);
      case Normal => start' := C1Turn(c, pos, start, cut, str);
      case _ => start' := StringByte(c, c1, str, start);
    }

    // ----- bytes handled before the switch -----

    method NulTurn(c: Byte, pos: nat, cut: seq<Byte>, start: Option<int>, ghost str: seq<Byte>)
      returns (start': Option<int>)
      modifies this`stringInitial, this`acc, this`log
      ensures
        var shown := if emitNul then [Control(c)] else [];
        View(start') == ApplyTo(old(View(start)), state, cut, str, pos, Fields(),
            if IsString(state) then Split(shown) else Out(shown))
    {
      assert forall l: seq<Event> :: l == l + [];
      start' := start;
      if IsString(state) {
        StringFragment(cut, false);
        start' := Some(pos + 1);
      }
      if emitNul {
        DoControl(c);
      }
    }

    method CancelTurn(c: Byte, pos: nat, start: Option<int>, ghost cut: seq<Byte>, ghost str: seq<Byte>)
      returns (start': Option<int>)
      modifies this`state, this`inEsc, this`log
      ensures
        View(start') == ApplyTo(old(View(start)), old(state), cut, str, pos,
            old(Fields()).(inEsc := false, state := Normal),
                                Cancel(if emitNul then [Control(c)] else []))
    {
      assert log == log + [];
      inEsc := false;
      state := Normal;
      start' := None;
      if emitNul {
        DoControl(c);
      }
    }

    method EscTurn(ghost pos: nat, ghost start: Option<int>, ghost cut: seq<Byte>, ghost str: seq<Byte>)
      modifies this`state, this`inEsc, this`intermed
      ensures
        View(start) == ApplyTo(old(View(start)), old(state), cut, str, pos,
                               old(Fields()).(intermed := [], inEsc := true,
                                   state := if IsString(old(state)) then old(state) else Normal), Out([]))
    {
      assert log == log + [];
      intermed := [];
      if !IsString(state) {
        state := Normal;
      }
      inEsc := true;
    }

    method ControlTurn(c: Byte, pos: nat, cut: seq<Byte>, start: Option<int>, ghost str: seq<Byte>)
      returns (start': Option<int>)
      modifies this`stringInitial, this`acc, this`log
      ensures
        View(start') == ApplyTo(old(View(start)), state, cut, str, pos, Fields(),
                                if state == Sos then Add else if IsString(state) then Split([Control(c)])
                                    else Out([Control(c)]))
    {
      start' := start;
      if state == Sos {
        return;
      }
      if IsString(state) {
        StringFragment(cut, false);
      }
      DoControl(c);
      if IsString(state) {
        start' := Some(pos + 1);
      }
    }

    /** The byte after an ESC. */
    method InEscTurn(bytes: seq<Byte>, pos: nat, start: Option<int>) returns (start': Option<int>)
      requires args != [] && pos < |bytes| && inEsc && (start.Some? ==> 0 <= start.value <= pos)
      modifies this`state, this`inEsc, this`intermed, this`args, this`leader, this`oscCommand, this`dcsCommand,
               this`stringInitial, this`acc, this`log
      ensures
        var f, out := old(View(start)), AfterEsc(old(Fields()), bytes[pos]);
        View(start') == ApplyTo(f, f.regs.state, Slice(bytes, start, pos), Slice(bytes, start, EndOf(f, pos)), pos,
            out.0, out.1)
    {
      hide Dispatch, EscapeByte, ApplyTo, Slice;
      var c := bytes[pos];
      ghost var f, cut, str := View(start), Slice(bytes, start, pos), Slice(bytes, start, EndOf(View(start), pos));
      var stringLen := if start.Some? then pos - start.value else 0;
      if intermed == [] && 0x40 <= c < 0x60 && (!IsString(state) || c == 0x5c) {
        if stringLen > 0 {
          stringLen := stringLen - 1;
        }
        inEsc := false;
        var content := Slice(bytes, start, if start.Some? then start.value + stringLen else pos);
        start' := Switch(c + 0x40, true, pos, content, start, cut);
        RegsReplaced(f, f.regs.(inEsc := false), f.regs.state, cut, str, pos,
            Dispatch(f.regs.(inEsc := false), c + 0x40, true));
      } else {
        EscapeTurn(c);
        start' := None;
        Cancelled(f, f.regs.state, cut, str, pos, EscapeByte(f.regs.(state := Normal), c));
      }
    }

    /** One byte that is not text. */
    method Turn(bytes: seq<Byte>, pos: nat, start: Option<int>) returns (start': Option<int>)
      requires args != [] && pos < |bytes| && !IsText(Fields(), bytes[pos])
      requires start.Some? ==> 0 <= start.value <= pos
      modifies this`state, this`inEsc, this`intermed, this`args, this`leader, this`oscCommand, this`dcsCommand,
               this`stringInitial, this`acc, this`log
      ensures View(start') == ByteStep(old(View(start)), bytes, pos, emitNul).(ok := true)
    {
      hide Dispatch, AfterEsc, EscapeByte, ApplyTo, Slice;
      var c := bytes[pos];
      start' := start;
      var cut := Slice(bytes, start, pos);
      ghost var f := View(start);
      ghost var str := Slice(bytes, start, EndOf(f, pos));
      if c == NUL || c == DEL {
        start' := NulTurn(c, pos, cut, start, str);
        return;
      }
      if c == CAN || c == SUB {
        start' := CancelTurn(c, pos, start, cut, str);
        return;
      } else if c == ESC {
        EscTurn(pos, start, cut, str);
        return;
      } else if c == BEL && IsString(state) {
      } else if c < 0x20 {
        start' := ControlTurn(c, pos, cut, start, str);
        return;
      }
      if inEsc {
        start' := InEscTurn(bytes, pos, start);
      } else {
        start' := Switch(c, false, pos, cut, start, cut);
      }
    }

    // ----- a chunk -----

    /** Takes a run of text, or one other byte. */
    method ReadSome(bytes: seq<Byte>, pos: nat, start: Option<int>, ghost f: Frame)
      returns (pos': nat, start': Option<int>)
      requires args != [] && pos < |bytes| && f.regs.args != []
      requires View(start) == Scan(f, bytes, pos, emitNul).(ok := true) && (start.Some? ==> 0 <= start.value <= pos)
      modifies this`state, this`inEsc, this`intermed, this`args, this`leader, this`oscCommand, this`dcsCommand,
               this`stringInitial, this`acc, this`log
      ensures pos < pos' <= |bytes| && args != []
      ensures View(start') == Scan(f, bytes, pos', emitNul).(ok := true) && (start'.Some? ==> 0 <= start'.value <= pos')
    {
      hide ByteStep, Scan;
      if IsText(Fields(), bytes[pos]) {
        var eaten := TextCallback(bytes, pos);
        TextRun(f, bytes, pos, eaten, emitNul);
        pos', start' := pos + eaten, start;
      } else {
        StartsBefore(View(start), bytes, pos, emitNul);
        ScanNext(f, bytes, pos, emitNul);
        start' := Turn(bytes, pos, start);
        pos' := pos + 1;
      }
    }

    /** Reads one chunk. */
    method Write(bytes: seq<Byte>)
      requires args != [] && ArgsFit(Fields(), bytes, emitNul) && !EndsBelowZero(Fields(), bytes, emitNul)
      modifies this`state, this`inEsc, this`intermed, this`args, this`leader, this`oscCommand, this`dcsCommand,
               this`stringInitial, this`acc, this`log
      ensures View(None) == Chunk(old(View(None)), bytes, emitNul)
    {
      hide ByteStep, Slice, Scan, EndChunk, Fragment, ArgsFit, EndsBelowZero;
      OkExactlyWhen(View(None), bytes, emitNul);
      var pos := 0;
      var stringStart := if IsContent(state) then Some(0) else None;
      ghost var f := BeginChunk(View(None));
      ScanStart(f, bytes, emitNul);
      while pos < |bytes|
        invariant pos <= |bytes| && args != [] && View(stringStart) == Scan(f, bytes, pos, emitNul).(ok := true)
        invariant stringStart.Some? ==> 0 <= stringStart.value <= pos
      {
        pos, stringStart := ReadSome(bytes, pos, stringStart, f);
      }
      EndsChunk(Scan(f, bytes, |bytes|, emitNul), bytes);
      if stringStart.Some? {
        var stringEnd := if inEsc then pos - 1 else pos;
        StringFragment(Slice(bytes, stringStart, stringEnd), false);
      }
    }

    /** Reads chunks one after the other. */
    method WriteAll(chunks: seq<seq<Byte>>)
      requires Coherent(View(None)) && (forall i :: 0 <= i < |chunks| ==> chunks[i] != [])
      requires Clean(Between(View(None)), Joined(chunks), emitNul)
      modifies this`state, this`inEsc, this`intermed, this`args, this`leader, this`oscCommand, this`dcsCommand,
               this`stringInitial, this`acc, this`log
      ensures Coherent(View(None)) && Between(View(None)) == Run(old(Between(View(None))), Joined(chunks), emitNul)
    {
      hide Coherent, Clean, Run, Between, Chunk, React;
      ghost var f := View(None);
      CoherentArgs(f);
      for i := 0 to |chunks|
        invariant f.regs.args != [] && f.start.None? && View(None) == Chunks(f, chunks[..i], emitNul)
                  && Coherent(View(None))
      {
        assert chunks[..i + 1][..i] == chunks[..i];
        JoinedPrefix(chunks, i + 1);
        CleanPrefix(Between(f), Joined(chunks[..i + 1]), Joined(chunks), emitNul);
        SimulateChunks(f, chunks[..i + 1], emitNul);
        CoherentOk(Chunks(f, chunks[..i + 1], emitNul));
        CoherentArgs(View(None));
        OkExactlyWhen(View(None), chunks[i], emitNul);
        Write(chunks[i]);
      }
      assert chunks[..|chunks|] == chunks;
      SimulateChunks(f, chunks, emitNul);
    }
  }

  function Texts(s: seq<Byte>): (r: seq<Event>)
    ensures |r| == |s|
  {
    seq(|s|, i requires 0 <= i < |s| => Text(s[i]))
  }

  predicate IsText(r: Regs, c: Byte) { r.state == Normal && !r.inEsc && c >= 0x20 && c != DEL }

  lemma RegsReplaced(f: Frame, regs: Regs, kind: State, cut: seq<Byte>, str: seq<Byte>, pos: int, out: (Regs, Act))
    ensures ApplyTo(f.(regs := regs), kind, cut, str, pos, out.0, out.1)
            == ApplyTo(f, kind, cut, str, pos, out.0, out.1)
  {
  }

  lemma Cancelled(f: Frame, kind: State, cut: seq<Byte>, str: seq<Byte>, pos: int, out: (Regs, Act))
    requires out.1.Cancel?
    ensures ApplyTo(f, kind, cut, str, pos, out.0, out.1)
            == f.(regs := out.0, log := f.log + out.1.events, start := None)
  {
  }

  // ----- the loop against the function -----

  lemma OkIrrelevant(f: Frame, bytes: seq<Byte>, pos: nat, emitNul: bool)
    requires f.regs.args != [] && pos < |bytes|
    ensures ByteStep(f.(ok := true), bytes, pos, emitNul).(ok := true) == ByteStep(f, bytes, pos, emitNul).(ok := true)
  {
    hide React;
  }

  lemma StartsBefore(f: Frame, bytes: seq<Byte>, pos: nat, emitNul: bool)
    requires f.regs.args != [] && pos < |bytes| && (f.start.Some? ==> 0 <= f.start.value <= pos)
    ensures var g := ByteStep(f, bytes, pos, emitNul); g.start.Some? ==> 0 <= g.start.value <= pos + 1
  {
    hide React;
  }

  lemma TextByte(f: Frame, bytes: seq<Byte>, pos: nat, emitNul: bool)
    requires pos < |bytes| && f.regs.args != [] && IsText(f.regs, bytes[pos])
    ensures ByteStep(f, bytes, pos, emitNul) == f.(log := f.log + [Text(bytes[pos])])
  {
  }

  /** A run of text bytes only adds text, whatever part of it is taken at once. */
  lemma {:induction false} TextRun(f: Frame, bytes: seq<Byte>, pos: nat, n: nat, emitNul: bool)
    requires f.regs.args != [] && pos + n <= |bytes|
    requires forall i :: pos <= i < pos + n ==> IsText(Scan(f, bytes, pos, emitNul).regs, bytes[i])
    ensures
      var g := Scan(f, bytes, pos, emitNul);
      Scan(f, bytes, pos + n, emitNul) == g.(log := g.log + Texts(bytes[pos..pos + n]))
  {
    hide ByteStep;
    var g := Scan(f, bytes, pos, emitNul);
    if n == 0 {
      assert g.log + Texts(bytes[pos..pos]) == g.log;
    } else {
      TextRun(f, bytes, pos, n - 1, emitNul);
      TextByte(Scan(f, bytes, pos + n - 1, emitNul), bytes, pos + n - 1, emitNul);
      assert g.log + Texts(bytes[pos..pos + n - 1]) + [Text(bytes[pos + n - 1])] == g.log + Texts(bytes[pos..pos + n]);
    }
  }

  lemma ScanStart(f: Frame, bytes: seq<Byte>, emitNul: bool)
    requires f.regs.args != []
    ensures Scan(f, bytes, 0, emitNul) == f
  {
  }

  lemma ScanNext(f: Frame, bytes: seq<Byte>, pos: nat, emitNul: bool)
    requires f.regs.args != [] && pos < |bytes|
    ensures
      var g := Scan(f, bytes, pos, emitNul);
      Scan(f, bytes, pos + 1, emitNul).(ok := true) == ByteStep(g.(ok := true), bytes, pos, emitNul).(ok := true)
  {
    hide ByteStep;
    OkIrrelevant(Scan(f, bytes, pos, emitNul), bytes, pos, emitNul);
  }

  lemma EndsChunk(g: Frame, bytes: seq<Byte>)
    requires EndChunk(g, bytes).ok
    ensures g.ok
    ensures
      EndChunk(g, bytes) ==
      if g.start.None? then g
      else Fragment(g, g.regs.state, Slice(bytes, g.start, if g.regs.inEsc then |bytes| - 1 else |bytes|),
          false).(start := None)
  {
  }

  lemma {:induction false} JoinedPrefix(chunks: seq<seq<Byte>>, n: nat)
    requires n <= |chunks|
    ensures Joined(chunks[..n]) <= Joined(chunks)
    decreases |chunks|
  {
    if n == |chunks| {
      assert chunks[..n] == chunks;
    } else {
      var rest := chunks[..|chunks| - 1];
      JoinedPrefix(rest, n);
      assert rest[..n] == chunks[..n];
      assert Joined(rest) <= Joined(chunks);
    }
  }

  lemma CleanPrefix(m: Machine, a: seq<Byte>, b: seq<Byte>, emitNul: bool)
    requires m.regs.args != [] && a <= b && Clean(m, b, emitNul)
    ensures Clean(m, a, emitNul)
  {
    assert b == a + b[|a|..];
    CleanThen(m, a, b[|a|..], emitNul);
  }

  lemma CoherentOk(f: Frame)
    ensures Coherent(f) ==> f.ok
  {
  }
}
