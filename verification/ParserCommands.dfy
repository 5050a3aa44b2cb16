/** What the bytes of whole commands mean: every event written as bytes is read back as that event and no other,
    from any state in which no string is being read. */
module ParserCommands {
  import opened ParserRules
  import Decimal
  import P = Parser

  const COLON: Byte := 0x3a
  const SEMICOLON: Byte := 0x3b
  const BACKSLASH: Byte := 0x5c

  // ----- reading in parts -----

  lemma RunOne(m: Machine, s: seq<Byte>, c: Byte, emitNul: bool)
    requires m.regs.args != []
    ensures Run(m, s + [c], emitNul) == Step(Run(m, s, emitNul), c, emitNul)
    ensures Clean(m, s + [c], emitNul) <==> Clean(m, s, emitNul) && CleanByte(Run(m, s, emitNul).regs, c)
  {
    assert (s + [c])[..|s + [c]| - 1] == s;
  }

  lemma RunNothing(m: Machine, emitNul: bool)
    requires m.regs.args != []
    ensures Run(m, [], emitNul) == m && Clean(m, [], emitNul)
  {
  }

  lemma RunByte(m: Machine, c: Byte, emitNul: bool)
    requires m.regs.args != []
    ensures Run(m, [c], emitNul) == Step(m, c, emitNul) && Step(m, c, emitNul).regs.args != []
    ensures Clean(m, [c], emitNul) <==> CleanByte(m.regs, c)
  {
    var none: seq<Byte> := [];
    RunNothing(m, emitNul);
    RunOne(m, none, c, emitNul);
    assert none + [c] == [c];
  }

  lemma {:induction false} RunBoth(m: Machine, a: seq<Byte>, b: seq<Byte>, emitNul: bool)
    requires m.regs.args != []
    ensures Run(m, a + b, emitNul) == Run(Run(m, a, emitNul), b, emitNul)
    ensures Clean(m, a, emitNul) && Clean(Run(m, a, emitNul), b, emitNul) ==> Clean(m, a + b, emitNul)
    decreases |b|
  {
    hide CleanByte;
    if b == [] {
      assert a + b == a;
      RunNothing(Run(m, a, emitNul), emitNul);
    } else {
      var last := |b| - 1;
      assert a + b == a + b[..last] + [b[last]] && b == b[..last] + [b[last]];
      RunBoth(m, a, b[..last], emitNul);
      RunOne(m, a + b[..last], b[last], emitNul);
      RunOne(Run(m, a, emitNul), b[..last], b[last], emitNul);
    }
  }

  /** `bytes` lead from `m` to `r`, and mean the same however they are split. */
  ghost predicate Leads(m: Machine, bytes: seq<Byte>, emitNul: bool, r: Machine)
    requires m.regs.args != []
  {
    Run(m, bytes, emitNul) == r && Clean(m, bytes, emitNul)
  }

  lemma LeadsOn(m: Machine, a: seq<Byte>, m': Machine, b: seq<Byte>, r: Machine, emitNul: bool)
    requires m.regs.args != [] && m'.regs.args != [] && Leads(m, a, emitNul, m') && Leads(m', b, emitNul, r)
    ensures Leads(m, a + b, emitNul, r)
  {
    RunBoth(m, a, b, emitNul);
  }

  lemma LeadsByte(m: Machine, c: Byte, emitNul: bool)
    requires m.regs.args != [] && CleanByte(m.regs, c)
    ensures Leads(m, [c], emitNul, Step(m, c, emitNul)) && Step(m, c, emitNul).regs.args != []
  {
    RunByte(m, c, emitNul);
  }

  // ----- numbers -----

  function Digits(n: nat): (r: seq<Byte>)
    ensures |r| > 0 && forall i :: 0 <= i < |r| ==> 0x30 <= r[i] <= 0x39
  {
    var s := Decimal.Print(n);
    seq(|s|, i requires 0 <= i < |s| => s[i] as int)
  }

  lemma DigitsStep(n: nat)
    ensures Digits(n) == if n < 10 then [0x30 + n] else Digits(n / 10) + [0x30 + n % 10]
  {
    var c := Decimal.DigitChar(n % 10);
    assert c as int == 0x30 + n % 10;
  }

  // ----- CSI -----

  function ArgBytes(a: Arg): seq<Byte> { if a.value == MISSING then [] else Digits(a.value) }

  /** The arguments with a ':' after each that has more, and a ';' after the others but the last. */
  function ArgsBytes(args: seq<Arg>): seq<Byte>
    requires args != []
  {
    var n := |args| - 1;
    if n == 0 then ArgBytes(args[0])
    else ArgsBytes(args[..n]) + [if args[n - 1].more then COLON else SEMICOLON] + ArgBytes(args[n])
  }

  function CsiBytes(leader: seq<Byte>, args: seq<Arg>, intermed: seq<Byte>, command: Byte): seq<Byte>
    requires args != []
  {
    [ESC, 0x5b] + leader + ArgsBytes(args) + (intermed + [command])
  }

  /** An argument list that can be written: no value above that of a missing one. */
  predicate Writable(args: seq<Arg>) {
    args != [] && !args[|args| - 1].more && forall i :: 0 <= i < |args| ==> args[i].value <= MISSING
  }

  /** What is kept of bytes for which there is limited room. */
  function Kept(s: seq<Byte>, limit: nat): (r: seq<Byte>)
    ensures |s| <= limit ==> r == s
  {
    if |s| <= limit then s else s[..limit]
  }

  lemma KeptOne(s: seq<Byte>, c: Byte, limit: nat)
    ensures Limited(Kept(s, limit), c, limit) == Kept(s + [c], limit)
  {
  }

  const NONE: Arg := Arg(MISSING, false)

  /** Reading the arguments of a CSI command, the last of which has no digit yet. */
  predicate AtArg(m: Machine) {
    && m.regs.state == CsiArgs && !m.regs.inEsc && m.body == []
    && m.regs.args != [] && m.regs.args[|m.regs.args| - 1] == NONE
  }

  function WithLast(m: Machine, n: nat): Machine
    requires m.regs.args != []
  {
    m.(regs := m.regs.(args := m.regs.args[..|m.regs.args| - 1] + [Arg(n, false)]))
  }

  lemma DigitStep(m: Machine, c: Byte, emitNul: bool)
    requires m.regs.state == CsiArgs && !m.regs.inEsc && m.body == [] && m.regs.args != [] && 0x30 <= c <= 0x39
    requires !m.regs.args[|m.regs.args| - 1].more
    ensures
      var v := m.regs.args[|m.regs.args| - 1].value;
      Step(m, c, emitNul) == WithLast(m, (if v == MISSING then 0 else v) * 10 + (c - 0x30)) && CleanByte(m.regs, c)
  {
    assert m.log + [] == m.log;
  }

  /** The digits of a number give an argument of that value. */
  lemma {:induction false} RunDigits(m: Machine, n: nat, emitNul: bool)
    requires AtArg(m) && n < MISSING
    ensures Leads(m, Digits(n), emitNul, WithLast(m, n))
  {
    hide Run, Step, React, Digits, Clean, CleanByte;
    DigitsStep(n);
    var none: seq<Byte> := [];
    RunNothing(m, emitNul);
    if n < 10 {
      RunOne(m, none, 0x30 + n, emitNul);
      assert none + [0x30 + n] == [0x30 + n];
      DigitStep(m, 0x30 + n, emitNul);
    } else {
      RunDigits(m, n / 10, emitNul);
      RunOne(m, Digits(n / 10), 0x30 + n % 10, emitNul);
      DigitStep(WithLast(m, n / 10), 0x30 + n % 10, emitNul);
    }
  }

  lemma RunArg(m: Machine, a: Arg, emitNul: bool)
    requires AtArg(m) && a.value <= MISSING
    ensures Leads(m, ArgBytes(a), emitNul, WithLast(m, a.value))
  {
    if a.value == MISSING {
      RunNothing(m, emitNul);
      assert m.regs.args[..|m.regs.args| - 1] + [NONE] == m.regs.args;
    } else {
      RunDigits(m, a.value, emitNul);
    }
  }

  /** The list as read so far: nothing follows the last yet. */
  function Ended(args: seq<Arg>): (r: seq<Arg>)
    requires args != []
    ensures |r| == |args| && (!args[|args| - 1].more ==> r == args)
  {
    var n := |args| - 1;
    args[..n] + [args[n].(more := false)]
  }

  function WithArgs(m: Machine, args: seq<Arg>): Machine { m.(regs := m.regs.(args := args)) }

  /** The byte between two arguments. */
  lemma SeparatorStep(m: Machine, args: seq<Arg>, emitNul: bool)
    requires m.regs.state == CsiArgs && !m.regs.inEsc && m.body == [] && args != [] && m.regs.args == Ended(args)
    ensures
      var c := if args[|args| - 1].more then COLON else SEMICOLON;
      Step(m, c, emitNul) == WithArgs(m, args + [NONE]) && (|args| < CSI_ARGS_MAX ==> CleanByte(m.regs, c))
  {
    assert m.log + [] == m.log;
    var n := |args| - 1;
    assert args == args[..n] + [args[n]];
  }

  lemma {:induction false} RunArgs(m: Machine, args: seq<Arg>, emitNul: bool)
    requires AtArg(m) && m.regs.args == [NONE] && args != [] && forall i :: 0 <= i < |args| ==> args[i].value <= MISSING
    ensures Run(m, ArgsBytes(args), emitNul) == WithArgs(m, Ended(args))
    ensures |args| <= CSI_ARGS_MAX ==> Clean(m, ArgsBytes(args), emitNul)
    decreases |args|
  {
    hide Run, Step, React, ArgBytes, Clean, CleanByte;
    var n := |args| - 1;
    if n == 0 {
      RunArg(m, args[0], emitNul);
      assert m.regs.args[..0] + [Arg(args[0].value, false)] == Ended(args);
    } else {
      RunArgs(m, args[..n], emitNul);
      NextArg(m, args[..n], args[n], emitNul);
      assert args[..n] + [args[n]] == args;
    }
  }

  lemma NextArg(m: Machine, before: seq<Arg>, a: Arg, emitNul: bool)
    requires AtArg(m) && before != [] && a.value <= MISSING
    requires Run(m, ArgsBytes(before), emitNul) == WithArgs(m, Ended(before))
    requires |before| <= CSI_ARGS_MAX ==> Clean(m, ArgsBytes(before), emitNul)
    ensures Run(m, ArgsBytes(before + [a]), emitNul) == WithArgs(m, Ended(before + [a]))
    ensures |before| < CSI_ARGS_MAX ==> Clean(m, ArgsBytes(before + [a]), emitNul)
  {
    hide Run, Step, React, ArgBytes, Clean, CleanByte;
    var n, args := |before|, before + [a];
    var c := if before[n - 1].more then COLON else SEMICOLON;
    var b := WithArgs(m, before + [NONE]);
    SeparatorStep(WithArgs(m, Ended(before)), before, emitNul);
    RunOne(m, ArgsBytes(before), c, emitNul);
    RunArg(b, a, emitNul);
    RunBoth(m, ArgsBytes(before) + [c], ArgBytes(a), emitNul);
    assert args[..n] == before && args[n - 1] == before[n - 1];
    assert b.regs.args[..n] + [Arg(a.value, false)] == Ended(args);
  }

  /** Bytes of a CSI command between its arguments and its end, or its end. */
  predicate Ending(c: Byte) { IsIntermed(c) || 0x40 <= c <= 0x7e }

  predicate AllLeaders(s: seq<Byte>) { forall i :: 0 <= i < |s| ==> 0x3c <= s[i] <= 0x3f }

  predicate AllIntermeds(s: seq<Byte>) { forall i :: 0 <= i < |s| ==> IsIntermed(s[i]) }

  /** After ESC [ */
  function AtLeader(m: Machine, leader: seq<Byte>): Machine {
    Machine(m.regs.(state := CsiLeader, inEsc := false, intermed := [], leader := leader), [], m.log)
  }

  lemma RunIntroducer(m: Machine, emitNul: bool)
    requires !IsString(m.regs.state) && m.regs.args != []
    ensures Leads(m, [ESC, 0x5b], emitNul, AtLeader(m, []))
  {
    EscLetter(m, 0x5b, emitNul);
    assert m.log + [] == m.log;
  }

  lemma LeaderStep(m: Machine, l: seq<Byte>, c: Byte, emitNul: bool)
    requires m.regs.args != [] && 0x3c <= c <= 0x3f
    ensures Step(AtLeader(m, l), c, emitNul) == AtLeader(m, Limited(l, c, CSI_LEADER_MAX - 1))
    ensures CleanByte(AtLeader(m, l).regs, c)
  {
    assert m.log + [] == m.log;
  }

  lemma {:induction false} RunLeader(m: Machine, s: seq<Byte>, emitNul: bool)
    requires m.regs.args != [] && AllLeaders(s)
    ensures Leads(AtLeader(m, []), s, emitNul, AtLeader(m, Kept(s, CSI_LEADER_MAX - 1)))
  {
    if s == [] {
      RunNothing(AtLeader(m, []), emitNul);
    } else {
      hide Run, Clean, Step, CleanByte, Limited;
      var n := |s| - 1;
      RunLeader(m, s[..n], emitNul);
      assert s == s[..n] + [s[n]];
      RunOne(AtLeader(m, []), s[..n], s[n], emitNul);
      KeptOne(s[..n], s[n], CSI_LEADER_MAX - 1);
      LeaderStep(m, Kept(s[..n], CSI_LEADER_MAX - 1), s[n], emitNul);
    }
  }

  /** A byte after the leader is read as one of the arguments, and one after the arguments as one of the end. */
  lemma LeaderFalls(m: Machine, c: Byte, emitNul: bool)
    requires m.regs.state == CsiLeader && !m.regs.inEsc && m.regs.args != [] && m.body == []
    requires 0x20 <= c < 0x7f && !(0x3c <= c <= 0x3f)
    ensures
      var a := m.(regs := m.regs.(state := CsiArgs, args := [NONE]));
      Step(m, c, emitNul) == Step(a, c, emitNul) && CleanByte(m.regs, c) && CleanByte(a.regs, c)
  {
  }

  lemma ArgsFall(m: Machine, c: Byte, emitNul: bool)
    requires m.regs.state == CsiArgs && !m.regs.inEsc && m.regs.args != [] && m.body == [] && Ending(c)
    ensures
      var a := m.(regs := m.regs.(state := CsiIntermed, intermed := []));
      Step(m, c, emitNul) == Step(a, c, emitNul) && CleanByte(m.regs, c) && CleanByte(a.regs, c)
  {
  }

  lemma SameFrom(m: Machine, a: Machine, c: Byte, rest: seq<Byte>, emitNul: bool)
    requires m.regs.args != [] && a.regs.args != [] && Step(m, c, emitNul) == Step(a, c, emitNul)
    requires CleanByte(m.regs, c) && CleanByte(a.regs, c)
    ensures Run(m, [c] + rest, emitNul) == Run(a, [c] + rest, emitNul)
    ensures Clean(m, [c] + rest, emitNul) <==> Clean(a, [c] + rest, emitNul)
  {
    hide Step, CleanByte, Run, Clean;
    RunByte(m, c, emitNul);
    RunByte(a, c, emitNul);
    RunBoth(m, [c], rest, emitNul);
    RunBoth(a, [c], rest, emitNul);
    if Clean(m, [c] + rest, emitNul) { CleanThen(m, [c], rest, emitNul); }
    if Clean(a, [c] + rest, emitNul) { CleanThen(a, [c], rest, emitNul); }
  }

  function AtEnd(m: Machine, intermed: seq<Byte>): Machine {
    m.(regs := m.regs.(state := CsiIntermed, intermed := intermed))
  }

  lemma EndStep(m: Machine, i: seq<Byte>, c: Byte, emitNul: bool)
    requires m.regs.args != [] && !m.regs.inEsc && m.body == [] && IsIntermed(c)
    ensures Step(AtEnd(m, i), c, emitNul) == AtEnd(m, Limited(i, c, INTERMED_MAX - 1))
    ensures CleanByte(AtEnd(m, i).regs, c)
  {
    assert m.log + [] == m.log;
  }

  lemma {:induction false} RunIntermeds(m: Machine, s: seq<Byte>, emitNul: bool)
    requires m.regs.args != [] && !m.regs.inEsc && m.body == [] && AllIntermeds(s)
    ensures Leads(AtEnd(m, []), s, emitNul, AtEnd(m, Kept(s, INTERMED_MAX - 1)))
  {
    if s == [] {
      RunNothing(AtEnd(m, []), emitNul);
    } else {
      hide Run, Clean, Step, CleanByte, Limited;
      var n := |s| - 1;
      RunIntermeds(m, s[..n], emitNul);
      assert s == s[..n] + [s[n]];
      RunOne(AtEnd(m, []), s[..n], s[n], emitNul);
      KeptOne(s[..n], s[n], INTERMED_MAX - 1);
      EndStep(m, Kept(s[..n], INTERMED_MAX - 1), s[n], emitNul);
    }
  }

  function AfterCsi(m: Machine, leader: seq<Byte>, args: seq<Arg>, intermed: seq<Byte>, command: Byte): Machine {
    Machine(m.regs.(state := Normal, inEsc := false, leader := leader, args := args, intermed := intermed), [],
            m.log + [Csi(leader, args, intermed, command)])
  }

  lemma RunEnd(m: Machine, intermed: seq<Byte>, command: Byte, emitNul: bool)
    requires m.regs.state == CsiArgs && !m.regs.inEsc && m.regs.args != [] && m.body == []
    requires AllIntermeds(intermed) && 0x40 <= command <= 0x7e
    ensures
      Leads(m, intermed + [command], emitNul,
          AfterCsi(m, m.regs.leader, m.regs.args, Kept(intermed, INTERMED_MAX - 1), command))
  {
    hide Run, Clean, Step, React, CleanByte;
    var bytes, i := intermed + [command], Kept(intermed, INTERMED_MAX - 1);
    ArgsFall(m, bytes[0], emitNul);
    assert bytes == [bytes[0]] + bytes[1..];
    SameFrom(m, AtEnd(m, []), bytes[0], bytes[1..], emitNul);
    RunIntermeds(m, intermed, emitNul);
    RunOne(AtEnd(m, []), intermed, command, emitNul);
    CommandStep(m, i, command, emitNul);
  }

  lemma CommandStep(m: Machine, i: seq<Byte>, command: Byte, emitNul: bool)
    requires m.regs.args != [] && !m.regs.inEsc && m.body == [] && 0x40 <= command <= 0x7e
    ensures Step(AtEnd(m, i), command, emitNul) == AfterCsi(m, m.regs.leader, m.regs.args, i, command)
    ensures CleanByte(AtEnd(m, i).regs, command)
  {
  }

  /** A CSI command: leader bytes, arguments, intermediates and the final byte give exactly that command, from any state
      in which no string is being read; leader and intermediates beyond the limit are dropped. */
  lemma RunCsi(m: Machine, leader: seq<Byte>, args: seq<Arg>, intermed: seq<Byte>, command: Byte, emitNul: bool)
    requires !IsString(m.regs.state) && m.regs.args != [] && Writable(args)
    requires AllLeaders(leader) && AllIntermeds(intermed) && 0x40 <= command <= 0x7e
    ensures Run(m, CsiBytes(leader, args, intermed, command), emitNul) ==
            AfterCsi(m, Kept(leader, CSI_LEADER_MAX - 1), args, Kept(intermed, INTERMED_MAX - 1), command)
    ensures |args| <= CSI_ARGS_MAX ==> Clean(m, CsiBytes(leader, args, intermed, command), emitNul)
  {
    hide Run, Clean, Step, React, CleanByte, ArgsBytes;
    var l := Kept(leader, CSI_LEADER_MAX - 1);
    var a := AtLeader(m, l);
    var b := a.(regs := a.regs.(state := CsiArgs, args := [NONE]));
    var begin, end := ArgsBytes(args), intermed + [command];
    RunIntroducer(m, emitNul);
    RunLeader(m, leader, emitNul);
    LeadsOn(m, [ESC, 0x5b], AtLeader(m, []), leader, a, emitNul);
    RunArgs(b, args, emitNul);
    RunEnd(WithArgs(b, args), intermed, command, emitNul);
    RunBoth(b, begin, end, emitNul);
    FirstByte(args, end);
    var rest := begin + end;
    LeaderFalls(a, rest[0], emitNul);
    assert rest == [rest[0]] + rest[1..];
    SameFrom(a, b, rest[0], rest[1..], emitNul);
    RunBoth(m, [ESC, 0x5b] + leader, rest, emitNul);
    assert CsiBytes(leader, args, intermed, command) == [ESC, 0x5b] + leader + rest;
  }

  lemma {:induction false} FirstByte(args: seq<Arg>, end: seq<Byte>)
    requires args != [] && end != [] && Ending(end[0])
    ensures var s := ArgsBytes(args) + end; 0x20 <= s[0] < 0x7f && !(0x3c <= s[0] <= 0x3f)
    decreases |args|
  {
    var n := |args| - 1;
    if n > 0 {
      var c := if args[n - 1].more then COLON else SEMICOLON;
      if ArgsBytes(args[..n]) == [] {
        assert (ArgsBytes(args) + end)[0] == c;
      } else {
        FirstByte(args[..n], end);
        assert (ArgsBytes(args) + end)[0] == ArgsBytes(args[..n])[0];
      }
    }
  }

  // ----- ESC -----

  /** ESC and a letter: what the C1 control it stands for does. */
  lemma EscLetter(m: Machine, c: Byte, emitNul: bool)
    requires !IsString(m.regs.state) && m.regs.args != [] && 0x40 <= c < 0x60
    ensures
      var r := m.regs.(state := Normal, inEsc := false, intermed := []);
      var (r', act) := C1Byte(r, c + 0x40);
      Leads(m, [ESC, c], emitNul, Advance(m.(body := []), c, r', act))
  {
    var a := m.(regs := m.regs.(state := Normal, inEsc := true, intermed := []), body := []);
    assert m.log + [] == m.log;
    RunByte(m, ESC, emitNul);
    assert Step(m, ESC, emitNul) == a;
    RunOne(m, [ESC], c, emitNul);
    assert [ESC] + [c] == [ESC, c];
  }

  function InEscape(m: Machine, intermed: seq<Byte>): Machine {
    m.(regs := m.regs.(state := Normal, inEsc := true, intermed := intermed), body := [])
  }

  lemma IntermedStep(m: Machine, i: seq<Byte>, c: Byte, emitNul: bool)
    requires m.regs.args != [] && IsIntermed(c)
    ensures Step(InEscape(m, i), c, emitNul) == InEscape(m, Limited(i, c, INTERMED_MAX - 1))
    ensures CleanByte(InEscape(m, i).regs, c)
  {
    assert m.log + [] == m.log;
  }

  lemma EscStep(m: Machine, emitNul: bool)
    requires !IsString(m.regs.state) && m.regs.args != []
    ensures Step(m, ESC, emitNul) == InEscape(m, []) && CleanByte(m.regs, ESC)
  {
    assert m.log + [] == m.log;
  }

  lemma {:induction false} RunEscape(m: Machine, s: seq<Byte>, emitNul: bool)
    requires !IsString(m.regs.state) && m.regs.args != [] && AllIntermeds(s)
    ensures Leads(m, [ESC] + s, emitNul, InEscape(m, Kept(s, INTERMED_MAX - 1)))
  {
    hide Run, Clean, Step, CleanByte;
    if s == [] {
      EscStep(m, emitNul);
      RunByte(m, ESC, emitNul);
      assert [ESC] + s == [ESC];
    } else {
      var n := |s| - 1;
      RunEscape(m, s[..n], emitNul);
      assert [ESC] + s == [ESC] + s[..n] + [s[n]] && s == s[..n] + [s[n]];
      RunOne(m, [ESC] + s[..n], s[n], emitNul);
      KeptOne(s[..n], s[n], INTERMED_MAX - 1);
      IntermedStep(m, Kept(s[..n], INTERMED_MAX - 1), s[n], emitNul);
    }
  }

  /** An escape sequence: intermediates and a final byte that do not stand for a C1 control. */
  lemma RunEsc(m: Machine, intermed: seq<Byte>, final: Byte, emitNul: bool)
    requires !IsString(m.regs.state) && m.regs.args != [] && AllIntermeds(intermed)
    requires 0x30 <= final < 0x7f && (intermed != [] || !(0x40 <= final < 0x60))
    ensures
      var i := Kept(intermed, INTERMED_MAX - 1);
      Leads(m, [ESC] + intermed + [final], emitNul,
          Machine(m.regs.(state := Normal, inEsc := false, intermed := i), [], m.log + [Escape(i + [final])]))
  {
    hide Run, Clean;
    RunEscape(m, intermed, emitNul);
    RunOne(m, [ESC] + intermed, final, emitNul);
  }

  // ----- strings -----

  /** A byte that is content of a string; SOS takes most controls too. */
  predicate IsData(kind: State, c: Byte) {
    c != NUL && c != DEL && c != CAN && c != SUB && c != ESC && c != BEL && (c >= 0x20 || kind == Sos)
  }

  predicate AllData(kind: State, s: seq<Byte>) { forall i :: 0 <= i < |s| ==> IsData(kind, s[i]) }

  /** A string ends with BEL or with ESC \. */
  predicate IsTerminator(t: seq<Byte>) { t == [BEL] || t == [ESC, BACKSLASH] }

  /** In the content of a string. */
  predicate AtContent(m: Machine) { IsContent(m.regs.state) && !m.regs.inEsc && m.regs.args != [] }

  lemma ContentStep(m: Machine, c: Byte, emitNul: bool)
    requires AtContent(m) && IsData(m.regs.state, c)
    ensures Step(m, c, emitNul) == m.(body := m.body + [c]) && CleanByte(m.regs, c)
  {
  }

  lemma {:induction false} RunContent(m: Machine, s: seq<Byte>, emitNul: bool)
    requires AtContent(m) && AllData(m.regs.state, s)
    ensures Leads(m, s, emitNul, m.(body := m.body + s))
  {
    if s == [] {
      RunNothing(m, emitNul);
      assert m.body + s == m.body;
    } else {
      hide Run, Clean, Step, CleanByte, IsData;
      var n := |s| - 1;
      RunContent(m, s[..n], emitNul);
      assert s == s[..n] + [s[n]];
      RunOne(m, s[..n], s[n], emitNul);
      ContentStep(m.(body := m.body + s[..n]), s[n], emitNul);
      assert m.body + s[..n] + [s[n]] == m.body + s;
    }
  }

  /** The machine after a string; ESC \ clears the intermediates of escape sequences. */
  function AfterString(m: Machine, event: Event, t: seq<Byte>): Machine {
    Machine(m.regs.(state := Normal, inEsc := false, intermed := if t == [BEL] then m.regs.intermed else []), [],
            m.log + [event])
  }

  lemma RunTerminator(m: Machine, t: seq<Byte>, emitNul: bool)
    requires AtContent(m) && IsTerminator(t)
    ensures Leads(m, t, emitNul, AfterString(m, Completed(m.regs, m.regs.state, m.body), t))
  {
    if t == [BEL] {
      RunByte(m, BEL, emitNul);
    } else {
      RunByte(m, ESC, emitNul);
      assert m.log + [] == m.log;
      assert Step(m, ESC, emitNul) == m.(regs := m.regs.(inEsc := true, intermed := []));
      RunOne(m, [ESC], BACKSLASH, emitNul);
      assert [ESC] + [BACKSLASH] == t;
    }
  }

  /** Content and terminator. */
  lemma RunString(m: Machine, data: seq<Byte>, t: seq<Byte>, emitNul: bool)
    requires AtContent(m) && m.body == [] && AllData(m.regs.state, data) && IsTerminator(t)
    ensures Leads(m, data + t, emitNul, AfterString(m, Completed(m.regs, m.regs.state, data), t))
  {
    hide Run, Clean, Leads;
    RunContent(m, data, emitNul);
    assert m.body + data == data;
    RunTerminator(m.(body := data), t, emitNul);
    LeadsOn(m, data, m.(body := data), t, AfterString(m, Completed(m.regs, m.regs.state, data), t), emitNul);
  }

  /** Where a string without command begins. */
  function Opening(kind: State): Byte
    requires kind == Apc || kind == Pm || kind == Sos
  {
    if kind == Apc then 0x5f else if kind == Pm then 0x5e else 0x58
  }

  function Opened(m: Machine, state: State): Machine {
    Machine(m.regs.(state := state, inEsc := false, intermed := []), [], m.log)
  }

  /** APC, PM and SOS: exactly one string with exactly that content. */
  lemma RunPlainString(m: Machine, kind: State, data: seq<Byte>, t: seq<Byte>, emitNul: bool)
    requires !IsString(m.regs.state) && m.regs.args != [] && (kind == Apc || kind == Pm || kind == Sos)
    requires AllData(kind, data) && IsTerminator(t)
    ensures
      Leads(m, [ESC, Opening(kind)] + (data + t), emitNul,
          AfterString(Opened(m, kind), Completed(m.regs, kind, data), t))
  {
    EscLetter(m, Opening(kind), emitNul);
    var a := Opened(m, kind);
    assert Leads(m, [ESC, Opening(kind)], emitNul, a);
    hide Run, Clean, Leads;
    RunString(a, data, t, emitNul);
    LeadsOn(m, [ESC, Opening(kind)], a, data + t, AfterString(a, Completed(a.regs, kind, data), t), emitNul);
  }

  // ----- OSC -----

  /** The number of an OSC string as bytes; -1 stands for none. */
  function NumberBytes(number: int): seq<Byte>
    requires number >= -1
  {
    if number == -1 then [] else Digits(number)
  }

  /** In the command part of an OSC string. */
  function AtOsc(m: Machine, number: int): Machine {
    Machine(m.regs.(state := OscCommand, inEsc := false, intermed := [], osc := number), [], m.log)
  }

  lemma OscDigit(m: Machine, number: int, c: Byte, emitNul: bool)
    requires m.regs.args != [] && number >= -1 && 0x30 <= c <= 0x39
    ensures Step(AtOsc(m, number), c, emitNul) == AtOsc(m, (if number == -1 then 0 else number * 10) + (c - 0x30))
    ensures CleanByte(AtOsc(m, number).regs, c)
  {
    assert m.log + [] == m.log;
  }

  lemma {:induction false} RunNumber(m: Machine, n: nat, emitNul: bool)
    requires m.regs.args != []
    ensures Leads(AtOsc(m, -1), Digits(n), emitNul, AtOsc(m, n))
  {
    hide Run, Step, React, Digits, Clean, CleanByte;
    DigitsStep(n);
    var a, none: seq<Byte> := AtOsc(m, -1), [];
    RunNothing(a, emitNul);
    if n < 10 {
      RunOne(a, none, 0x30 + n, emitNul);
      assert none + [0x30 + n] == [0x30 + n];
      OscDigit(m, -1, 0x30 + n, emitNul);
    } else {
      RunNumber(m, n / 10, emitNul);
      RunOne(a, Digits(n / 10), 0x30 + n % 10, emitNul);
      OscDigit(m, n / 10, 0x30 + n % 10, emitNul);
    }
  }

  lemma RunOscStart(m: Machine, number: int, emitNul: bool)
    requires !IsString(m.regs.state) && m.regs.args != [] && number >= -1
    ensures Leads(m, [ESC, 0x5d] + NumberBytes(number), emitNul, AtOsc(m, number))
  {
    EscLetter(m, 0x5d, emitNul);
    assert Leads(m, [ESC, 0x5d], emitNul, AtOsc(m, -1));
    hide Run, Clean;
    if number == -1 {
      assert [ESC, 0x5d] + NumberBytes(number) == [ESC, 0x5d];
    } else {
      RunNumber(m, number, emitNul);
      LeadsOn(m, [ESC, 0x5d], AtOsc(m, -1), Digits(number), AtOsc(m, number), emitNul);
    }
  }

  function AtOscContent(m: Machine, number: int, body: seq<Byte>): Machine {
    Machine(m.regs.(state := Osc, inEsc := false, intermed := [], osc := number), body, m.log)
  }

  lemma OscBegins(m: Machine, number: int, c: Byte, emitNul: bool)
    requires m.regs.args != [] && (c == SEMICOLON || (IsData(Osc, c) && !(0x30 <= c <= 0x39)))
    ensures
      Leads(AtOsc(m, number), [c], emitNul, AtOscContent(m, number, if c == SEMICOLON then [] else [c]))
  {
    RunByte(AtOsc(m, number), c, emitNul);
  }

  /** OSC with a number, a ';' and any content. */
  lemma RunOsc(m: Machine, number: int, data: seq<Byte>, t: seq<Byte>, emitNul: bool)
    requires !IsString(m.regs.state) && m.regs.args != [] && number >= -1 && AllData(Osc, data) && IsTerminator(t)
    ensures
      Leads(m, [ESC, 0x5d] + NumberBytes(number) + [SEMICOLON] + (data + t), emitNul,
          AfterString(AtOsc(m, number), OscString(number, data), t))
  {
    hide Run, Clean, Leads, NumberBytes;
    var head := [ESC, 0x5d] + NumberBytes(number);
    var a := AtOscContent(m, number, []);
    RunOscStart(m, number, emitNul);
    OscBegins(m, number, SEMICOLON, emitNul);
    LeadsOn(m, head, AtOsc(m, number), [SEMICOLON], a, emitNul);
    RunString(a, data, t, emitNul);
    LeadsOn(m, head + [SEMICOLON], a, data + t, AfterString(a, OscString(number, data), t), emitNul);
  }

  /** OSC without ';': the first byte that is no digit begins the content. */
  lemma RunBareOsc(m: Machine, number: int, data: seq<Byte>, t: seq<Byte>, emitNul: bool)
    requires !IsString(m.regs.state) && m.regs.args != [] && number >= -1 && AllData(Osc, data) && IsTerminator(t)
    requires data != [] && data[0] != SEMICOLON && !(0x30 <= data[0] <= 0x39)
    ensures
      Leads(m, [ESC, 0x5d] + NumberBytes(number) + (data + t), emitNul,
          AfterString(AtOsc(m, number), OscString(number, data), t))
  {
    hide Run, Clean, Leads, NumberBytes;
    var head := [ESC, 0x5d] + NumberBytes(number);
    var a := AtOscContent(m, number, [data[0]]);
    RunOscStart(m, number, emitNul);
    OscBegins(m, number, data[0], emitNul);
    LeadsOn(m, head, AtOsc(m, number), [data[0]], a, emitNul);
    RunContent(a, data[1..], emitNul);
    assert [data[0]] + data[1..] == data;
    var b := AtOscContent(m, number, data);
    LeadsOn(m, head + [data[0]], a, data[1..], b, emitNul);
    RunTerminator(b, t, emitNul);
    LeadsOn(m, head + [data[0]] + data[1..], b, t, AfterString(b, OscString(number, data), t), emitNul);
    assert head + [data[0]] + data[1..] + t == head + (data + t);
  }

  lemma OscEnds(m: Machine, number: int, t: seq<Byte>, emitNul: bool)
    requires m.regs.args != [] && IsTerminator(t)
    ensures Leads(AtOsc(m, number), t, emitNul, AfterString(AtOsc(m, number), OscString(number, []), t))
  {
    var a := AtOsc(m, number);
    if t == [BEL] {
      RunByte(a, BEL, emitNul);
    } else {
      var b := a.(regs := a.regs.(inEsc := true));
      RunByte(a, ESC, emitNul);
      assert m.log + [] == m.log;
      assert Step(a, ESC, emitNul) == b;
      RunByte(b, BACKSLASH, emitNul);
      RunBoth(a, [ESC], [BACKSLASH], emitNul);
      assert [ESC] + [BACKSLASH] == t;
    }
  }

  /** OSC that ends with its number. */
  lemma RunEmptyOsc(m: Machine, number: int, t: seq<Byte>, emitNul: bool)
    requires !IsString(m.regs.state) && m.regs.args != [] && number >= -1 && IsTerminator(t)
    ensures
      Leads(m, [ESC, 0x5d] + NumberBytes(number) + t, emitNul, AfterString(AtOsc(m, number), OscString(number, []), t))
  {
    hide Run, Clean, Leads, NumberBytes;
    var a := AtOsc(m, number);
    RunOscStart(m, number, emitNul);
    OscEnds(m, number, t, emitNul);
    LeadsOn(m, [ESC, 0x5d] + NumberBytes(number), a, t, AfterString(a, OscString(number, []), t), emitNul);
  }

  // ----- DCS -----

  /** A byte of the command of a DCS string before its final one. */
  predicate IsDcsPart(c: Byte) { c >= 0x20 && c != DEL && !(0x40 <= c <= 0x7e) }

  function AtDcs(m: Machine, prefix: seq<Byte>, state: State): Machine {
    Machine(m.regs.(state := state, inEsc := false, intermed := [], dcs := prefix), [], m.log)
  }

  lemma DcsStep(m: Machine, p: seq<Byte>, c: Byte, emitNul: bool)
    requires m.regs.args != [] && IsDcsPart(c)
    ensures Step(AtDcs(m, p, DcsCommand), c, emitNul) == AtDcs(m, Limited(p, c, CSI_LEADER_MAX), DcsCommand)
    ensures CleanByte(AtDcs(m, p, DcsCommand).regs, c)
  {
    assert m.log + [] == m.log;
  }

  lemma {:induction false} RunDcsCommand(m: Machine, s: seq<Byte>, emitNul: bool)
    requires m.regs.args != [] && forall i :: 0 <= i < |s| ==> IsDcsPart(s[i])
    ensures Leads(AtDcs(m, [], DcsCommand), s, emitNul, AtDcs(m, Kept(s, CSI_LEADER_MAX), DcsCommand))
  {
    if s == [] {
      RunNothing(AtDcs(m, [], DcsCommand), emitNul);
    } else {
      hide Run, Clean, Step, CleanByte, Limited;
      var n := |s| - 1;
      RunDcsCommand(m, s[..n], emitNul);
      assert s == s[..n] + [s[n]];
      RunOne(AtDcs(m, [], DcsCommand), s[..n], s[n], emitNul);
      KeptOne(s[..n], s[n], CSI_LEADER_MAX);
      DcsStep(m, Kept(s[..n], CSI_LEADER_MAX), s[n], emitNul);
    }
  }

  lemma DcsBegins(m: Machine, s: seq<Byte>, final: Byte, emitNul: bool)
    requires m.regs.args != [] && 0x40 <= final <= 0x7e
    ensures
      Leads(AtDcs(m, Kept(s, CSI_LEADER_MAX), DcsCommand), [final], emitNul,
          AtDcs(m, Kept(s + [final], CSI_LEADER_MAX), Dcs))
  {
    RunByte(AtDcs(m, Kept(s, CSI_LEADER_MAX), DcsCommand), final, emitNul);
    KeptOne(s, final, CSI_LEADER_MAX);
  }

  /** DCS with a command and any content. */
  lemma RunDcs(m: Machine, s: seq<Byte>, final: Byte, data: seq<Byte>, t: seq<Byte>, emitNul: bool)
    requires !IsString(m.regs.state) && m.regs.args != [] && (forall i :: 0 <= i < |s| ==> IsDcsPart(s[i]))
    requires 0x40 <= final <= 0x7e && AllData(Dcs, data) && IsTerminator(t)
    ensures
      var prefix := Kept(s + [final], CSI_LEADER_MAX);
      Leads(m, [ESC, 0x50] + s + [final] + (data + t), emitNul,
          AfterString(AtDcs(m, prefix, Dcs), DcsString(prefix, data), t))
  {
    EscLetter(m, 0x50, emitNul);
    var a, prefix := AtDcs(m, [], DcsCommand), Kept(s + [final], CSI_LEADER_MAX);
    assert Leads(m, [ESC, 0x50], emitNul, a);
    hide Run, Clean, Leads;
    RunDcsCommand(m, s, emitNul);
    var b, c := AtDcs(m, Kept(s, CSI_LEADER_MAX), DcsCommand), AtDcs(m, prefix, Dcs);
    LeadsOn(m, [ESC, 0x50], a, s, b, emitNul);
    DcsBegins(m, s, final, emitNul);
    LeadsOn(m, [ESC, 0x50] + s, b, [final], c, emitNul);
    RunString(c, data, t, emitNul);
    LeadsOn(m, [ESC, 0x50] + s + [final], c, data + t, AfterString(c, DcsString(prefix, data), t), emitNul);
  }

  // ----- controls -----

  /** CAN and SUB end whatever is being read, without an event but, if NUL is shown, themselves. */
  lemma Cancels(m: Machine, c: Byte, emitNul: bool)
    requires m.regs.args != [] && (c == CAN || c == SUB)
    ensures
      var r := Step(m, c, emitNul);
      && Ready(r.regs) && r.body == [] && r.log == m.log + (if emitNul then [Control(c)] else [])
      && CleanByte(m.regs, c)
  {
  }

  /** Other controls, and NUL and DEL if they are shown, are delivered at once and what is being read goes on; BEL
      ends a string and SOS has C0 as content. */
  lemma Delivered(m: Machine, c: Byte, emitNul: bool)
    requires m.regs.args != [] && (IsContent(m.regs.state) || m.body == [])
    requires c == NUL || c == DEL || (c < 0x20 && c != CAN && c != SUB && c != ESC && m.regs.state != Sos
                                      && !(c == BEL && IsString(m.regs.state)))
    ensures
      Step(m, c, emitNul) == m.(log := m.log + if (c != NUL && c != DEL) || emitNul then [Control(c)] else [])
  {
  }

  /** ESC and a byte other than \ in the content of a string give the string up: no event but that of the escape
      sequence that begins there, if the byte ends one. */
  lemma GivesUp(m: Machine, c: Byte, emitNul: bool)
    requires AtContent(m) && 0x20 <= c && c != DEL && c != BACKSLASH
    ensures
      var r := Run(m, [ESC, c], emitNul);
      && r.regs.state == Normal && r.body == []
      && (0x30 <= c < 0x7f ==> !r.regs.inEsc && r.log == m.log + [Escape([c])])
      && (!(0x30 <= c < 0x7f) ==> r.regs.inEsc && r.log == m.log)
  {
    var a := m.(regs := m.regs.(inEsc := true, intermed := []));
    RunByte(m, ESC, emitNul);
    assert m.log + [] == m.log;
    assert Step(m, ESC, emitNul) == a;
    RunOne(m, [ESC], c, emitNul);
    var none: seq<Byte> := [];
    assert [ESC] + [c] == [ESC, c] && none + [c] == [c];
  }

  // ----- events -----

  /** Between commands. */
  predicate Ready(r: Regs) { r.state == Normal && !r.inEsc && r.args != [] }

  /** The C1 controls that are delivered as such: those that begin no string or CSI command. */
  predicate IsPlainC1(c: Byte) {
    0x80 <= c < 0xa0 && c != 0x90 && c != 0x98 && c != 0x9b && c != 0x9d && c != 0x9e && c != 0x9f
  }

  /** The events that can be written: their parts fit, and hold only what can stand there. */
  predicate CanWrite(e: Event) {
    match e
    case Text(c) => c >= 0x20 && c != DEL
    case Control(c) => (c < 0x20 && c != NUL && c != ESC && c != CAN && c != SUB) || IsPlainC1(c)
    case Escape(bytes) =>
      bytes != [] && |bytes| <= INTERMED_MAX && AllIntermeds(bytes[..|bytes| - 1])
      && 0x30 <= bytes[|bytes| - 1] < 0x7f && (|bytes| > 1 || !(0x40 <= bytes[0] < 0x60))
    case Csi(leader, args, intermed, command) =>
      AllLeaders(leader) && |leader| < CSI_LEADER_MAX && Writable(args) && |args| <= CSI_ARGS_MAX
      && AllIntermeds(intermed) && |intermed| < INTERMED_MAX && 0x40 <= command <= 0x7e
    case OscString(number, data) => number >= -1 && AllData(Osc, data)
    case DcsString(prefix, data) =>
      0 < |prefix| <= CSI_LEADER_MAX && 0x40 <= prefix[|prefix| - 1] <= 0x7e && AllData(Dcs, data)
      && forall i :: 0 <= i < |prefix| - 1 ==> IsDcsPart(prefix[i])
    case ApcString(data) => AllData(Apc, data)
    case PmString(data) => AllData(Pm, data)
    case SosString(data) => AllData(Sos, data)
  }

  function Written(e: Event): seq<Byte>
    requires CanWrite(e)
  {
    var t := [ESC, BACKSLASH];
    match e
    case Text(c) => [c]
    case Control(c) => if c < 0x20 then [c] else [ESC, c - 0x40]
    case Escape(bytes) => [ESC] + bytes
    case Csi(leader, args, intermed, command) => CsiBytes(leader, args, intermed, command)
    case OscString(number, data) => [ESC, 0x5d] + NumberBytes(number) + [SEMICOLON] + (data + t)
    case DcsString(prefix, data) => [ESC, 0x50] + prefix + (data + t)
    case ApcString(data) => [ESC, Opening(Apc)] + (data + t)
    case PmString(data) => [ESC, Opening(Pm)] + (data + t)
    case SosString(data) => [ESC, Opening(Sos)] + (data + t)
  }

  /** `bytes` read between commands give exactly event `e`, and mean the same however they are split. */
  ghost predicate Gives(m: Machine, bytes: seq<Byte>, emitNul: bool, e: Event)
    requires m.regs.args != []
  {
    var r := Run(m, bytes, emitNul);
    Ready(r.regs) && r.log == m.log + [e] && Clean(m, bytes, emitNul)
  }

  lemma TextOrControl(m: Machine, e: Event, emitNul: bool)
    requires Ready(m.regs) && CanWrite(e) && (e.Text? || e.Control?)
    ensures Gives(m, Written(e), emitNul, e)
  {
    match e
    case Text(c) => RunByte(m, c, emitNul);
    case Control(c) => if c < 0x20 { RunByte(m, c, emitNul); } else { EscLetter(m, c - 0x40, emitNul); }
  }

  lemma EscapeWritten(m: Machine, bytes: seq<Byte>, emitNul: bool)
    requires Ready(m.regs) && CanWrite(Escape(bytes))
    ensures Gives(m, [ESC] + bytes, emitNul, Escape(bytes))
  {
    hide Run, Clean;
    var n := |bytes| - 1;
    RunEsc(m, bytes[..n], bytes[n], emitNul);
    assert bytes[..n] + [bytes[n]] == bytes && [ESC] + bytes[..n] + [bytes[n]] == [ESC] + bytes;
  }

  lemma CsiWritten(m: Machine, leader: seq<Byte>, args: seq<Arg>, intermed: seq<Byte>, command: Byte, emitNul: bool)
    requires Ready(m.regs) && CanWrite(Csi(leader, args, intermed, command))
    ensures Gives(m, CsiBytes(leader, args, intermed, command), emitNul, Csi(leader, args, intermed, command))
  {
    hide Run, Clean, CsiBytes;
    RunCsi(m, leader, args, intermed, command, emitNul);
  }

  lemma StringWritten(m: Machine, e: Event, emitNul: bool)
    requires Ready(m.regs) && CanWrite(e)
    requires e.OscString? || e.DcsString? || e.ApcString? || e.PmString? || e.SosString?
    ensures Gives(m, Written(e), emitNul, e)
  {
    hide Run, Clean, NumberBytes, AllData;
    var t := [ESC, BACKSLASH];
    match e
    case OscString(number, data) => RunOsc(m, number, data, t, emitNul);
    case DcsString(prefix, data) =>
      var n := |prefix| - 1;
      RunDcs(m, prefix[..n], prefix[n], data, t, emitNul);
      assert prefix[..n] + [prefix[n]] == prefix && [ESC, 0x50] + prefix[..n] + [prefix[n]] == [ESC, 0x50] + prefix;
    case ApcString(data) => RunPlainString(m, Apc, data, t, emitNul);
    case PmString(data) => RunPlainString(m, Pm, data, t, emitNul);
    case SosString(data) => RunPlainString(m, Sos, data, t, emitNul);
  }

  /** Every event written is read back as that event. */
  lemma WriteRead(m: Machine, e: Event, emitNul: bool)
    requires Ready(m.regs) && CanWrite(e)
    ensures Gives(m, Written(e), emitNul, e)
  {
    hide Run, Clean, CsiBytes, Writable, Gives;
    match e
    case Escape(bytes) => EscapeWritten(m, bytes, emitNul);
    case Csi(leader, args, intermed, command) => CsiWritten(m, leader, args, intermed, command, emitNul);
    case Text(_) => TextOrControl(m, e, emitNul);
    case Control(_) => TextOrControl(m, e, emitNul);
    case _ => StringWritten(m, e, emitNul);
  }

  function AllWritten(es: seq<Event>): seq<Byte>
    requires forall i :: 0 <= i < |es| ==> CanWrite(es[i])
  {
    if es == [] then [] else AllWritten(es[..|es| - 1]) + Written(es[|es| - 1])
  }

  /** Any list of events written one after the other is read back as that list. */
  lemma {:induction false} WriteReadAll(m: Machine, es: seq<Event>, emitNul: bool)
    requires Ready(m.regs) && forall i :: 0 <= i < |es| ==> CanWrite(es[i])
    ensures
      var r := Run(m, AllWritten(es), emitNul);
      Ready(r.regs) && r.log == m.log + es && Clean(m, AllWritten(es), emitNul)
    decreases |es|
  {
    hide Run, Clean, CanWrite, Written;
    if es == [] {
      RunNothing(m, emitNul);
      assert m.log + es == m.log;
    } else {
      var n := |es| - 1;
      WriteReadAll(m, es[..n], emitNul);
      WriteRead(Run(m, AllWritten(es[..n]), emitNul), es[n], emitNul);
      RunBoth(m, AllWritten(es[..n]), Written(es[n]), emitNul);
      assert m.log + es[..n] + [es[n]] == m.log + es;
    }
  }

  /** And so however the bytes are split into chunks. */
  lemma EventsInChunks(f: P.Frame, es: seq<Event>, chunks: seq<seq<Byte>>, emitNul: bool)
    requires P.Coherent(f) && f.start.None? && Ready(f.regs) && forall i :: 0 <= i < |es| ==> CanWrite(es[i])
    requires P.Joined(chunks) == AllWritten(es) && forall i :: 0 <= i < |chunks| ==> chunks[i] != []
    ensures P.Chunks(f, chunks, emitNul).log == f.log + es && Ready(P.Chunks(f, chunks, emitNul).regs)
  {
    hide Run, Clean, CanWrite, AllWritten;
    WriteReadAll(P.Between(f), es, emitNul);
    P.SimulateChunks(f, chunks, emitNul);
  }
}
