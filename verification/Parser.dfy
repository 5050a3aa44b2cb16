/** The parser as it reads a chunk: strings are handed on in fragments that point into the chunk, and
    whoever receives them joins them. Split anywhere, a clean input means the same. */
module Parser {
  import opened Wrappers
  import opened ParserRules

  // ----- fragments -----

  /** The parser and the receiver of its fragments, at some position of a chunk. `start` is where the
      content not yet handed on begins; `ok` that no argument array overflowed and no length went below zero. */
  datatype Frame = Frame(
    regs: Regs,
    initial: bool,
    acc: seq<Byte>,
    log: seq<Event>,
    start: Option<int>,
    ok: bool)

  /** Hands on a fragment of the string in state `kind`; the receiver starts afresh on an initial fragment
      and reports a string when the final one arrives. */
  function Fragment(f: Frame, kind: State, str: seq<Byte>, final: bool): Frame {
    var acc := if !IsContent(kind) then f.acc else if f.initial then str else f.acc + str;
    f.(initial := false, acc := acc,
       log := if final && IsContent(kind) then f.log + [Completed(f.regs, kind, acc)] else f.log)
  }

  function Slice(chunk: seq<Byte>, start: Option<int>, end: int): seq<Byte> {
    if start.Some? && 0 <= start.value <= end <= |chunk| then chunk[start.value..end] else []
  }

  /** What an act does: `cut` is the content up to this byte, `str` the same without an ESC just read. */
  function ApplyTo(f: Frame, kind: State, cut: seq<Byte>, str: seq<Byte>, pos: int, r: Regs, act: Act): Frame {
    var g := f.(regs := r);
    match act
    case Out(es) => g.(log := g.log + es)
    case Cancel(es) => g.(log := g.log + es, start := None)
    case Split(es) =>
      var h := Fragment(g, kind, cut, false);
      h.(log := h.log + es, start := Some(pos + 1))
    case Enter => g.(initial := true, start := None)
    case EnterBegin => g.(initial := true, start := Some(pos + 1))
    case Begin => g.(start := Some(pos + 1))
    case BeginAt => g.(start := Some(pos))
    case BeginEnd => Fragment(g, Osc, [], true).(start := None)
    case Add => g
    case End => Fragment(g, kind, str, true).(start := None)
  }

  function Apply(f: Frame, chunk: seq<Byte>, pos: int, r: Regs, act: Act): Frame {
    ApplyTo(f, f.regs.state, Slice(chunk, f.start, pos), Slice(chunk, f.start, EndOf(f, pos)), pos, r, act)
  }

  /** One turn of the loop over the bytes of a chunk. */
  function ByteStep(f: Frame, chunk: seq<Byte>, pos: nat, emitNul: bool): (g: Frame)
    requires f.regs.args != [] && pos < |chunk|
    ensures g.regs.args != []
  {
    ReactFits(f.regs, chunk[pos], emitNul);
    var (r, act) := React(f.regs, chunk[pos], emitNul);
    Apply(f, chunk, pos, r, act).(ok := f.ok && !Overflows(f.regs, chunk[pos]))
  }

  /** Where the content before `pos` ends: an ESC that has just been read is no part of it. */
  function EndOf(f: Frame, pos: int): int {
    if f.regs.inEsc && f.start.Some? && f.start.value < pos then pos - 1 else pos
  }

  function BeginChunk(f: Frame): Frame { f.(start := if IsContent(f.regs.state) then Some(0) else None) }

  /** At the end of a chunk the content so far is handed on. */
  function EndChunk(f: Frame, chunk: seq<Byte>): Frame {
    if f.start.None? then f
    else
      var end := if f.regs.inEsc then |chunk| - 1 else |chunk|;
      if end < f.start.value then f.(ok := false, start := None)
      else Fragment(f, f.regs.state, Slice(chunk, f.start, end), false).(start := None)
  }

  function Scan(f: Frame, chunk: seq<Byte>, n: nat, emitNul: bool): (g: Frame)
    requires f.regs.args != [] && n <= |chunk|
    ensures g.regs.args != []
  {
    if n == 0 then f
    else
      var before := Scan(f, chunk, n - 1, emitNul);
      ByteStep(before, chunk, n - 1, emitNul)
  }

  /** What writing one chunk does. */
  function Chunk(f: Frame, chunk: seq<Byte>, emitNul: bool): (g: Frame)
    requires f.regs.args != []
    ensures g.regs.args != [] && g.start.None?
  {
    EndChunk(Scan(BeginChunk(f), chunk, |chunk|, emitNul), chunk)
  }

  function Chunks(f: Frame, chunks: seq<seq<Byte>>, emitNul: bool): (g: Frame)
    requires f.regs.args != [] && f.start.None?
    ensures g.regs.args != [] && g.start.None?
    decreases |chunks|
  {
    if chunks == [] then f
    else Chunk(Chunks(f, chunks[..|chunks| - 1], emitNul), chunks[|chunks| - 1], emitNul)
  }

  function Joined(chunks: seq<seq<Byte>>): seq<Byte>
    decreases |chunks|
  {
    if chunks == [] then [] else Joined(chunks[..|chunks| - 1]) + chunks[|chunks| - 1]
  }

  // ----- the chunked parser against the reference -----

  /** The content of the string being read that the receiver has. */
  function Held(f: Frame): seq<Byte> { if f.initial then [] else f.acc }

  function At(f: Frame, chunk: seq<Byte>, pos: int): Machine {
    Machine(f.regs, Body(f.regs, Held(f) + Slice(chunk, f.start, EndOf(f, pos))), f.log)
  }

  function Between(f: Frame): Machine { Machine(f.regs, Body(f.regs, Held(f)), f.log) }

  predicate Coherent(f: Frame) { f.regs.args != [] && f.ok && (IsCommand(f.regs.state) ==> f.initial) }

  /** What holds in the middle of a chunk. */
  predicate Within(f: Frame, chunk: seq<Byte>, pos: nat) {
    && Coherent(f) && pos <= |chunk|
    && (f.start.Some? <==> IsContent(f.regs.state))
    && (f.start.Some? ==> 0 <= f.start.value <= pos)
    && (f.start.Some? && f.regs.inEsc ==> f.start.value < pos || pos == 0)
  }

  lemma SimulateAct(f: Frame, chunk: seq<Byte>, pos: nat, r: Regs, act: Act)
    requires pos < |chunk| && Within(f, chunk, pos) && Fitting(f.regs, chunk[pos], r, act)
    requires IsContent(f.regs.state) && f.regs.inEsc ==> !Interrupts(chunk[pos]) && chunk[pos] != ESC
    requires f.regs.state == OscCommand ==> !Interrupts(chunk[pos])
    ensures
      var g := Apply(f, chunk, pos, r, act);
      Within(g, chunk, pos + 1) && At(g, chunk, pos + 1) == Advance(At(f, chunk, pos), chunk[pos], r, act)
  {
    var g := Apply(f, chunk, pos, r, act);
    match act
    case Out(_) =>
    case Cancel(_) =>
    case Split(_) =>
    case Enter =>
    case EnterBegin =>
    case Begin =>
    case BeginAt =>
    case BeginEnd =>
    case Add =>
      assert chunk[f.start.value..pos + 1] == chunk[f.start.value..pos] + [chunk[pos]];
    case End =>
      var str := Slice(chunk, f.start, EndOf(f, pos));
      assert Held(f) + str == if f.initial then str else f.acc + str;
  }

  lemma SimulateByte(f: Frame, chunk: seq<Byte>, pos: nat, emitNul: bool)
    requires pos < |chunk| && Within(f, chunk, pos) && CleanByte(f.regs, chunk[pos])
    ensures
      var g := ByteStep(f, chunk, pos, emitNul);
      Within(g, chunk, pos + 1) && At(g, chunk, pos + 1) == Step(At(f, chunk, pos), chunk[pos], emitNul)
  {
    hide React, Apply, Fitting, Advance, Slice;
    ReactFits(f.regs, chunk[pos], emitNul);
    var (r, act) := React(f.regs, chunk[pos], emitNul);
    SimulateAct(f, chunk, pos, r, act);
  }

  lemma {:induction false} SimulateScan(f: Frame, chunk: seq<Byte>, n: nat, emitNul: bool)
    requires n <= |chunk| && Coherent(f) && Clean(Between(f), chunk[..n], emitNul)
    ensures
      var g := Scan(BeginChunk(f), chunk, n, emitNul);
      Within(g, chunk, n) && At(g, chunk, n) == Run(Between(f), chunk[..n], emitNul)
  {
    hide React, ByteStep, Step, CleanByte;
    if n == 0 {
      assert Held(f) + [] == Held(f);
    } else {
      assert chunk[..n][..n - 1] == chunk[..n - 1];
      SimulateScan(f, chunk, n - 1, emitNul);
      SimulateByte(Scan(BeginChunk(f), chunk, n - 1, emitNul), chunk, n - 1, emitNul);
    }
  }

  /** A non-empty chunk of a clean input does what its bytes do one at a time. */
  lemma SimulateChunk(f: Frame, chunk: seq<Byte>, emitNul: bool)
    requires chunk != [] && Coherent(f) && Clean(Between(f), chunk, emitNul)
    ensures
      var g := Chunk(f, chunk, emitNul);
      Coherent(g) && Between(g) == Run(Between(f), chunk, emitNul)
  {
    assert chunk[..|chunk|] == chunk;
    SimulateScan(f, chunk, |chunk|, emitNul);
    HandOn(Scan(BeginChunk(f), chunk, |chunk|, emitNul), chunk);
  }

  lemma HandOn(f: Frame, chunk: seq<Byte>)
    requires chunk != [] && Within(f, chunk, |chunk|)
    ensures Coherent(EndChunk(f, chunk)) && Between(EndChunk(f, chunk)) == At(f, chunk, |chunk|)
  {
    var str := Slice(chunk, f.start, EndOf(f, |chunk|));
    assert Held(f) + str == if f.initial then str else f.acc + str;
  }

  lemma {:induction false} SimulateChunks(f: Frame, chunks: seq<seq<Byte>>, emitNul: bool)
    requires Coherent(f) && f.start.None? && (forall i :: 0 <= i < |chunks| ==> chunks[i] != [])
    requires Clean(Between(f), Joined(chunks), emitNul)
    ensures
      var g := Chunks(f, chunks, emitNul);
      Coherent(g) && Between(g) == Run(Between(f), Joined(chunks), emitNul)
    decreases |chunks|
  {
    hide Chunk, Between, Coherent, Clean, Run;
    assert f.regs.args != [] && Between(f).regs.args != [] by { CoherentArgs(f); }
    if chunks == [] {
      RunNone(Between(f), emitNul);
    } else {
      var last := |chunks| - 1;
      var before := Joined(chunks[..last]);
      CleanThen(Between(f), before, chunks[last], emitNul);
      RunThen(Between(f), before, chunks[last], emitNul);
      SimulateChunks(f, chunks[..last], emitNul);
      SimulateChunk(Chunks(f, chunks[..last], emitNul), chunks[last], emitNul);
    }
  }

  lemma CoherentArgs(f: Frame)
    ensures Coherent(f) ==> f.regs.args != [] && Between(f).regs.args != []
  {
  }

  lemma RunNone(m: Machine, emitNul: bool)
    requires m.regs.args != []
    ensures Run(m, [], emitNul) == m
  {
  }

  /** Chunk independence: however a clean input is split into non-empty chunks, the same commands, strings
      and text come out, and the parser is left with the same registers. */
  lemma ChunkIndependent(f: Frame, a: seq<seq<Byte>>, b: seq<seq<Byte>>, emitNul: bool)
    requires Coherent(f) && f.start.None? && Joined(a) == Joined(b)
    requires (forall i :: 0 <= i < |a| ==> a[i] != []) && (forall i :: 0 <= i < |b| ==> b[i] != [])
    requires Clean(Between(f), Joined(a), emitNul)
    ensures Chunks(f, a, emitNul).log == Chunks(f, b, emitNul).log == Run(Between(f), Joined(a), emitNul).log
    ensures Chunks(f, a, emitNul).regs == Chunks(f, b, emitNul).regs
  {
    SimulateChunks(f, a, emitNul);
    SimulateChunks(f, b, emitNul);
  }

  // ----- chunks whose lengths and arguments stay in bounds -----

  /** The registers after some bytes; they do not depend on how these are split. */
  function RegsAfter(r: Regs, bytes: seq<Byte>, emitNul: bool): (e: Regs)
    requires r.args != []
    ensures e.args != []
    decreases |bytes|
  {
    if bytes == [] then r
    else
      var before := RegsAfter(r, bytes[..|bytes| - 1], emitNul);
      ReactFits(before, bytes[|bytes| - 1], emitNul);
      React(before, bytes[|bytes| - 1], emitNul).0
  }

  /** No argument too many. */
  predicate ArgsFit(r: Regs, bytes: seq<Byte>, emitNul: bool)
    requires r.args != []
    decreases |bytes|
  {
    bytes == [] || (ArgsFit(r, bytes[..|bytes| - 1], emitNul)
                    && !Overflows(RegsAfter(r, bytes[..|bytes| - 1], emitNul), bytes[|bytes| - 1]))
  }

  /** The last byte was a control that interrupts the string being read, in state `e`; SOS takes C0 as content. */
  predicate EndsInterrupted(e: Regs, bytes: seq<Byte>) {
    && bytes != [] && IsString(e.state) && Interrupts(bytes[|bytes| - 1])
    && (e.state == Sos ==> bytes[|bytes| - 1] == NUL || bytes[|bytes| - 1] == DEL)
  }

  /** The length of the content left at the end of the chunk is below zero: an ESC is taken off it that is no part
      of it, because a control came after the ESC, or because the chunk is empty. */
  predicate EndsBelowZero(r: Regs, bytes: seq<Byte>, emitNul: bool)
    requires r.args != []
  {
    var e := RegsAfter(r, bytes, emitNul);
    e.inEsc && (EndsInterrupted(e, bytes) || (bytes == [] && IsContent(e.state)))
  }

  /** Where the content not yet handed on begins, in the middle of a chunk. */
  predicate StartPlaced(f: Frame, bytes: seq<Byte>) {
    && (f.start.Some? ==> IsString(f.regs.state) && 0 <= f.start.value <= |bytes|)
    && (IsContent(f.regs.state) ==> f.start.Some?)
    && (f.regs.inEsc && f.start.Some? ==>
          (f.start.value == |bytes| <==> EndsInterrupted(f.regs, bytes) || (bytes == [] && IsContent(f.regs.state))))
    && (EndsInterrupted(f.regs, bytes) ==> f.start.Some?)
  }

  lemma EscOrInterrupt(r: Regs, c: Byte, emitNul: bool)
    requires r.args != []
    ensures
      var (r', act) := React(r, c, emitNul);
      && (r'.inEsc && IsString(r'.state) ==> c == ESC || Interrupts(c))
      && (IsString(r'.state) && Interrupts(c) ==> act.Split? || (act.Add? && r'.state == Sos && c != NUL && c != DEL))
      && (act.Split? && r'.state == Sos ==> c == NUL || c == DEL)
      && (act.Out? ==> r'.state == r.state || (!IsString(r.state) && !IsString(r'.state)))
  {
  }

  lemma ActPlaced(f: Frame, chunk: seq<Byte>, pos: nat, r: Regs, act: Act)
    requires pos < |chunk| && StartPlaced(f, chunk[..pos]) && Fitting(f.regs, chunk[pos], r, act)
    requires r.inEsc && IsString(r.state) ==> chunk[pos] == ESC || Interrupts(chunk[pos])
    requires IsString(r.state) && Interrupts(chunk[pos]) ==>
               act.Split? || (act.Add? && r.state == Sos && chunk[pos] != NUL && chunk[pos] != DEL)
    requires act.Split? && r.state == Sos ==> chunk[pos] == NUL || chunk[pos] == DEL
    requires act.Out? ==> r.state == f.regs.state || (!IsString(f.regs.state) && !IsString(r.state))
    ensures StartPlaced(Apply(f, chunk, pos, r, act), chunk[..pos + 1])
  {
    assert chunk[..pos + 1][pos] == chunk[pos];
    var g := Apply(f, chunk, pos, r, act);
    match act
    case Out(_) =>
    case Cancel(_) =>
    case Split(_) =>
    case Enter =>
    case EnterBegin =>
    case Begin =>
    case BeginAt =>
    case BeginEnd =>
    case Add =>
    case End =>
  }

  lemma StepPlaced(f: Frame, chunk: seq<Byte>, pos: nat, emitNul: bool)
    requires pos < |chunk| && f.regs.args != [] && StartPlaced(f, chunk[..pos])
    ensures StartPlaced(ByteStep(f, chunk, pos, emitNul), chunk[..pos + 1])
  {
    hide React, Apply, Fitting, Interrupts, Overflows, IsString;
    ReactFits(f.regs, chunk[pos], emitNul);
    EscOrInterrupt(f.regs, chunk[pos], emitNul);
    var (r, act) := React(f.regs, chunk[pos], emitNul);
    ActPlaced(f, chunk, pos, r, act);
    OkPlaced(Apply(f, chunk, pos, r, act), f.ok && !Overflows(f.regs, chunk[pos]), chunk[..pos + 1]);
  }

  lemma OkPlaced(f: Frame, ok: bool, bytes: seq<Byte>)
    ensures StartPlaced(f.(ok := ok), bytes) == StartPlaced(f, bytes)
  {
  }

  lemma {:induction false} ScanPlaced(f: Frame, chunk: seq<Byte>, n: nat, emitNul: bool)
    requires f.regs.args != [] && n <= |chunk|
    ensures
      var g := Scan(BeginChunk(f), chunk, n, emitNul);
      && StartPlaced(g, chunk[..n]) && g.regs == RegsAfter(f.regs, chunk[..n], emitNul)
      && (g.ok <==> f.ok && ArgsFit(f.regs, chunk[..n], emitNul))
  {
    if n > 0 {
      hide React, Apply, StartPlaced, Overflows;
      assert chunk[..n][..n - 1] == chunk[..n - 1] && chunk[..n][n - 1] == chunk[n - 1];
      ScanPlaced(f, chunk, n - 1, emitNul);
      StepPlaced(Scan(BeginChunk(f), chunk, n - 1, emitNul), chunk, n - 1, emitNul);
      StepRegs(Scan(BeginChunk(f), chunk, n - 1, emitNul), chunk, n - 1, emitNul);
    }
  }

  lemma StepRegs(f: Frame, chunk: seq<Byte>, pos: nat, emitNul: bool)
    requires pos < |chunk| && f.regs.args != []
    ensures ByteStep(f, chunk, pos, emitNul).regs == React(f.regs, chunk[pos], emitNul).0
    ensures ByteStep(f, chunk, pos, emitNul).ok == (f.ok && !Overflows(f.regs, chunk[pos]))
  {
    hide React;
  }

  /** Exactly which chunks keep within bounds, from the bytes and the registers. */
  lemma OkExactlyWhen(f: Frame, chunk: seq<Byte>, emitNul: bool)
    requires f.regs.args != [] && f.start.None?
    ensures Chunk(f, chunk, emitNul).ok <==>
            f.ok && ArgsFit(f.regs, chunk, emitNul) && !EndsBelowZero(f.regs, chunk, emitNul)
  {
    hide Scan, RegsAfter, ArgsFit;
    assert chunk[..|chunk|] == chunk;
    ScanPlaced(f, chunk, |chunk|, emitNul);
  }

  /** It does go below zero: in the content of a string other than SOS, an ESC and a control that interrupts, at the
      end of a chunk. */
  lemma BelowZeroHappens(f: Frame, x: Byte, emitNul: bool)
    requires f.regs.args != [] && f.start.None? && IsContent(f.regs.state) && f.regs.state != Sos && Interrupts(x)
    ensures !Chunk(f, [ESC, x], emitNul).ok
  {
    var none: seq<Byte>, one: seq<Byte>, both: seq<Byte> := [], [ESC], [ESC, x];
    assert both[..1] == one && one[..0] == none;
    assert RegsAfter(f.regs, one, emitNul) == f.regs.(intermed := [], inEsc := true);
    OkExactlyWhen(f, both, emitNul);
  }

  // ----- where splitting shows -----

  lemma ScanThree(f: Frame, chunk: seq<Byte>, emitNul: bool)
    requires f.regs.args != [] && |chunk| == 3
    ensures Scan(f, chunk, 3, emitNul) == ByteStep(ByteStep(ByteStep(f, chunk, 0, emitNul), chunk, 1, emitNul), chunk,
            2, emitNul)
  {
    hide ByteStep;
    assert Scan(f, chunk, 1, emitNul) == ByteStep(f, chunk, 0, emitNul);
    assert Scan(f, chunk, 2, emitNul) == ByteStep(ByteStep(f, chunk, 0, emitNul), chunk, 1, emitNul);
  }

  lemma ScanTwo(f: Frame, chunk: seq<Byte>, emitNul: bool)
    requires f.regs.args != [] && |chunk| == 2
    ensures Scan(f, chunk, 2, emitNul) == ByteStep(ByteStep(f, chunk, 0, emitNul), chunk, 1, emitNul)
  {
    hide ByteStep;
    assert Scan(f, chunk, 1, emitNul) == ByteStep(f, chunk, 0, emitNul);
  }

  ghost predicate Reports(f: Frame, regs: Regs, kind: State, data: seq<Byte>)
    requires IsContent(kind)
  {
    f.log != [] && f.log[|f.log| - 1] == Completed(regs, kind, data)
  }

  predicate InContent(f: Frame) { f.regs.args != [] && IsContent(f.regs.state) && f.start.Some? }

  lemma EscStep(f: Frame, chunk: seq<Byte>, pos: nat, emitNul: bool)
    requires pos < |chunk| && InContent(f) && chunk[pos] == ESC
    ensures
      var g := ByteStep(f, chunk, pos, emitNul);
      g.regs == f.regs.(intermed := [], inEsc := true) && g.start == f.start && g.initial == f.initial && g.acc == f.acc
  {
  }

  /** An interrupting control in a string: content up to it is handed on, except for a C0 control in SOS. */
  lemma InterruptStep(f: Frame, chunk: seq<Byte>, pos: nat, emitNul: bool)
    requires pos < |chunk| && InContent(f) && Interrupts(chunk[pos])
    ensures
      var g, kept := ByteStep(f, chunk, pos, emitNul), f.regs.state == Sos && chunk[pos] != NUL && chunk[pos] != DEL;
      && g.regs == f.regs
      && (kept ==> g.start == f.start && g.initial == f.initial && g.acc == f.acc)
      && (!kept ==> g.start == Some(pos + 1) && Held(g) == Held(f) + Slice(chunk, f.start, pos))
  {
    assert Held(f) + Slice(chunk, f.start, pos) == if f.initial then Slice(chunk, f.start, pos)
           else f.acc + Slice(chunk, f.start, pos);
  }

  lemma FinishStep(f: Frame, chunk: seq<Byte>, pos: nat, emitNul: bool)
    requires pos < |chunk| && InContent(f) && f.regs.inEsc && f.regs.intermed == [] && chunk[pos] == 0x5c
    ensures
      var g := ByteStep(f, chunk, pos, emitNul);
      g.regs.state == Normal && g.start.None?
          && Reports(g, f.regs, f.regs.state, Held(f) + Slice(chunk, f.start, EndOf(f, pos)))
  {
    var str := Slice(chunk, f.start, EndOf(f, pos));
    assert Held(f) + str == if f.initial then str else f.acc + str;
  }

  /** In the content of any string, an ESC, any byte that Clean forbids there, and the rest of the
      terminator: read in one chunk the ESC becomes content, split after the ESC it does not. */
  lemma EscThenInterrupt(f: Frame, x: Byte, emitNul: bool)
    requires f.regs.args != [] && f.start.None? && IsContent(f.regs.state) && !f.regs.inEsc
    requires Interrupts(x) || x == ESC
    ensures Reports(Chunk(f, [ESC, x, 0x5c], emitNul), f.regs, f.regs.state, Held(f) + [ESC])
    ensures Reports(Chunks(f, [[ESC], [x, 0x5c]], emitNul), f.regs, f.regs.state, Held(f))
  {
    EscWhole(f, x, emitNul);
    EscSplit(f, x, emitNul);
  }

  lemma EscWhole(f: Frame, x: Byte, emitNul: bool)
    requires f.regs.args != [] && f.start.None? && IsContent(f.regs.state) && !f.regs.inEsc
    requires Interrupts(x) || x == ESC
    ensures Reports(Chunk(f, [ESC, x, 0x5c], emitNul), f.regs, f.regs.state, Held(f) + [ESC])
  {
    hide ByteStep;
    var chunk: seq<Byte> := [ESC, x, 0x5c];
    var a := BeginChunk(f);
    ScanThree(a, chunk, emitNul);
    EscStep(a, chunk, 0, emitNul);
    var b := ByteStep(a, chunk, 0, emitNul);
    if x == ESC { EscStep(b, chunk, 1, emitNul); } else { InterruptStep(b, chunk, 1, emitNul); }
    var c := ByteStep(b, chunk, 1, emitNul);
    FinishStep(c, chunk, 2, emitNul);
    assert chunk[0..1] == [ESC] && Held(f) + [ESC] + [] == Held(f) + [ESC];
  }

  lemma TwoChunks(f: Frame, a: seq<Byte>, b: seq<Byte>, emitNul: bool)
    requires f.regs.args != [] && f.start.None?
    ensures Chunks(f, [a, b], emitNul) == Chunk(Chunk(f, a, emitNul), b, emitNul)
  {
    hide Chunk;
    var both, one := [a, b], [a];
    assert both[..|both| - 1] == one && one[..|one| - 1] == [];
    assert Chunks(f, one, emitNul) == Chunk(f, a, emitNul);
  }

  /** A chunk of nothing but an ESC in a string. */
  lemma EscChunk(f: Frame, emitNul: bool)
    requires f.regs.args != [] && f.start.None? && IsContent(f.regs.state)
    ensures
      var g := Chunk(f, [ESC], emitNul);
      g.regs == f.regs.(intermed := [], inEsc := true) && g.start.None? && Held(g) == Held(f)
  {
    hide ByteStep;
    var chunk: seq<Byte> := [ESC];
    EscStep(BeginChunk(f), chunk, 0, emitNul);
    assert Scan(BeginChunk(f), chunk, 1, emitNul) == ByteStep(BeginChunk(f), chunk, 0, emitNul);
    assert Held(f) + [] == Held(f);
  }

  lemma EscSplit(f: Frame, x: Byte, emitNul: bool)
    requires f.regs.args != [] && f.start.None? && IsContent(f.regs.state) && !f.regs.inEsc
    requires Interrupts(x) || x == ESC
    ensures Reports(Chunks(f, [[ESC], [x, 0x5c]], emitNul), f.regs, f.regs.state, Held(f))
  {
    var chunk: seq<Byte> := [x, 0x5c];
    TwoChunks(f, [ESC], chunk, emitNul);
    EscChunk(f, emitNul);
    FinishSplit(Chunk(f, [ESC], emitNul), x, emitNul);
  }

  lemma FinishSplit(b: Frame, x: Byte, emitNul: bool)
    requires b.regs.args != [] && b.start.None? && IsContent(b.regs.state) && b.regs.inEsc && b.regs.intermed == []
    requires Interrupts(x) || x == ESC
    ensures Reports(Chunk(b, [x, 0x5c], emitNul), b.regs, b.regs.state, Held(b))
  {
    hide ByteStep;
    var chunk: seq<Byte> := [x, 0x5c];
    var a := BeginChunk(b);
    ScanTwo(a, chunk, emitNul);
    assert Held(b) + [] == Held(b);
    if x == ESC { EscStep(a, chunk, 0, emitNul); } else { InterruptStep(a, chunk, 0, emitNul); }
    FinishStep(ByteStep(a, chunk, 0, emitNul), chunk, 1, emitNul);
  }

  /** In the content of a string, an ESC and the byte after it mean the same in one chunk and in two exactly when
      that byte is no interrupting control and no second ESC. */
  lemma EscExactlyWhen(f: Frame, x: Byte, emitNul: bool)
    requires Coherent(f) && f.start.None? && IsContent(f.regs.state) && !f.regs.inEsc
    ensures Chunk(f, [ESC, x, 0x5c], emitNul).log == Chunks(f, [[ESC], [x, 0x5c]], emitNul).log <==>
              !(Interrupts(x) || x == ESC)
  {
    if Interrupts(x) || x == ESC {
      hide Chunk, Chunks;
      EscThenInterrupt(f, x, emitNul);
      assert Held(f) + [ESC] != Held(f);
    } else {
      hide Chunk, Chunks, Clean;
      EscClean(Between(f), x, emitNul);
      var a: seq<Byte>, b: seq<Byte> := [ESC], [x, 0x5c];
      JoinedTwo(a, b);
      assert a + b == [ESC, x, 0x5c];
      SimulateChunk(f, [ESC, x, 0x5c], emitNul);
      SimulateChunks(f, [a, b], emitNul);
    }
  }

  lemma JoinedTwo(a: seq<Byte>, b: seq<Byte>)
    ensures Joined([a, b]) == a + b
  {
    var none: seq<seq<Byte>> := [];
    assert [a, b][..1] == [a] && [a][..0] == none;
    assert Joined([a]) == [] + a == a;
  }

  lemma EscClean(m: Machine, x: Byte, emitNul: bool)
    requires m.regs.args != [] && IsContent(m.regs.state) && !m.regs.inEsc && !Interrupts(x) && x != ESC
    ensures Clean(m, [ESC, x, 0x5c], emitNul)
  {
    var none: seq<Byte>, one: seq<Byte>, two: seq<Byte>, three: seq<Byte> := [], [ESC], [ESC, x], [ESC, x, 0x5c];
    assert one[..0] == none && two[..1] == one && three[..2] == two;
    RunNone(m, emitNul);
    assert Run(m, one, emitNul) == Step(m, ESC, emitNul);
    assert Run(m, two, emitNul) == Step(Step(m, ESC, emitNul), x, emitNul);
    NormalAfter(Step(m, ESC, emitNul).regs, x, emitNul);
    assert Clean(m, none, emitNul) && Clean(m, one, emitNul) && Clean(m, two, emitNul);
  }

  lemma NormalAfter(r: Regs, x: Byte, emitNul: bool)
    requires r.args != [] && IsContent(r.state) && r.inEsc && !Interrupts(x) && x != ESC
    ensures React(r, x, emitNul).0.state == Normal
  {
  }

  // ----- the command part of an OSC string -----

  predicate InCommand(f: Frame) { f.regs.args != [] && f.regs.state == OscCommand && !f.regs.inEsc }

  /** A byte with which the content begins: no digit, no ';', and no control. */
  predicate Opens(d: Byte) { d >= 0x20 && d != DEL && !(0x30 <= d <= 0x39) && d != 0x3b }

  /** What is reported of a control that is not content. */
  function Shown(x: Byte, emitNul: bool): seq<Event> {
    if x == NUL || x == DEL || x == CAN then (if emitNul then [Control(x)] else []) else [Control(x)]
  }

  lemma CommandControl(f: Frame, chunk: seq<Byte>, pos: nat, emitNul: bool)
    requires pos < |chunk| && InCommand(f) && Interrupts(chunk[pos])
    ensures
      var g := ByteStep(f, chunk, pos, emitNul);
      g.regs == f.regs && !g.initial && g.acc == f.acc && g.log == f.log + Shown(chunk[pos], emitNul)
  {
  }

  lemma CommandByte(f: Frame, chunk: seq<Byte>, pos: nat, emitNul: bool)
    requires pos < |chunk| && InCommand(f) && Opens(chunk[pos])
    ensures
      var g := ByteStep(f, chunk, pos, emitNul);
      && g.regs == f.regs.(state := Osc) && g.start == Some(pos)
      && g.initial == f.initial && g.acc == f.acc && g.log == f.log
  {
  }

  lemma BelStep(f: Frame, chunk: seq<Byte>, pos: nat, emitNul: bool)
    requires pos < |chunk| && InContent(f) && !f.regs.inEsc && chunk[pos] == BEL
    ensures
      var g := ByteStep(f, chunk, pos, emitNul);
      g.start.None? && g.log == f.log + [Completed(f.regs, f.regs.state, Held(f) + Slice(chunk, f.start, pos))]
  {
    var str := Slice(chunk, f.start, pos);
    assert Held(f) + str == if f.initial then str else f.acc + str;
  }

  /** Three bytes from the command part on: a control, the byte that opens the content, BEL. */
  lemma InterruptedString(f: Frame, chunk: seq<Byte>, pos: nat, emitNul: bool)
    requires pos + 3 == |chunk| && InCommand(f) && Interrupts(chunk[pos]) && Opens(chunk[pos + 1])
             && chunk[pos + 2] == BEL
    ensures
      var g := ByteStep(ByteStep(ByteStep(f, chunk, pos, emitNul), chunk, pos + 1, emitNul), chunk, pos + 2, emitNul);
      g.start.None? && g.log == f.log + Shown(chunk[pos], emitNul) + [OscString(f.regs.osc, f.acc + [chunk[pos + 1]])]
  {
    hide ByteStep, Interrupts;
    CommandControl(f, chunk, pos, emitNul);
    var b := ByteStep(f, chunk, pos, emitNul);
    CommandByte(b, chunk, pos + 1, emitNul);
    var c := ByteStep(b, chunk, pos + 1, emitNul);
    assert Slice(chunk, c.start, pos + 2) == [chunk[pos + 1]];
    BelStep(c, chunk, pos + 2, emitNul);
  }

  /** A control in the command part of an OSC string: the receiver is never told that the string begins, and
      joins it to what it held of an earlier one that was given up. */
  lemma CommandInterrupted(f: Frame, x: Byte, d: Byte, emitNul: bool)
    requires InCommand(f) && f.start.None? && Interrupts(x) && Opens(d)
    ensures Chunk(f, [x, d, BEL], emitNul).log == f.log + Shown(x, emitNul) + [OscString(f.regs.osc, f.acc + [d])]
  {
    hide ByteStep;
    var chunk: seq<Byte> := [x, d, BEL];
    ScanThree(BeginChunk(f), chunk, emitNul);
    InterruptedString(BeginChunk(f), chunk, 0, emitNul);
  }

  lemma RunNext(m: Machine, s: seq<Byte>, c: Byte, emitNul: bool)
    requires m.regs.args != []
    ensures Run(m, s + [c], emitNul) == Step(Run(m, s, emitNul), c, emitNul)
  {
    assert (s + [c])[..|s + [c]| - 1] == s;
  }

  predicate AtCommand(m: Machine) { m.regs.args != [] && m.regs.state == OscCommand && !m.regs.inEsc }

  lemma StepControl(m: Machine, x: Byte, emitNul: bool)
    requires AtCommand(m) && Interrupts(x)
    ensures Step(m, x, emitNul).regs == m.regs && Step(m, x, emitNul).log == m.log + Shown(x, emitNul)
  {
  }

  lemma StepCommandByte(m: Machine, d: Byte, emitNul: bool)
    requires AtCommand(m) && Opens(d)
    ensures Step(m, d, emitNul) == Machine(m.regs.(state := Osc), [d], m.log)
  {
  }

  lemma StepBel(m: Machine, emitNul: bool)
    requires m.regs.args != [] && IsContent(m.regs.state) && !m.regs.inEsc
    ensures Step(m, BEL, emitNul).log == m.log + [Completed(m.regs, m.regs.state, m.body)]
  {
  }

  /** The reference reads the same bytes as a string of its own. */
  lemma CommandInterruptedReference(m: Machine, x: Byte, d: Byte, emitNul: bool)
    requires AtCommand(m) && Interrupts(x) && Opens(d)
    ensures Run(m, [x, d, BEL], emitNul).log == m.log + Shown(x, emitNul) + [OscString(m.regs.osc, [d])]
  {
    hide Step, Run;
    var none: seq<Byte> := [];
    RunNone(m, emitNul);
    RunNext(m, none, x, emitNul);
    RunNext(m, none + [x], d, emitNul);
    RunNext(m, none + [x] + [d], BEL, emitNul);
    assert none + [x] + [d] + [BEL] == [x, d, BEL];
    StepControl(m, x, emitNul);
    var b := Step(m, x, emitNul);
    StepCommandByte(b, d, emitNul);
    StepBel(Step(b, d, emitNul), emitNul);
  }

  lemma SameData(n: int, a: seq<Byte>, b: seq<Byte>, d: Byte, l: seq<Event>)
    ensures l + [OscString(n, a + [d])] == l + [OscString(n, b + [d])] <==> a == b
  {
    if a + [d] == b + [d] {
      assert |a| == |b| && (a + [d])[..|a|] == a && (b + [d])[..|b|] == b;
    }
    var x, y := OscString(n, a + [d]), OscString(n, b + [d]);
    assert (l + [x])[|l|] == x && (l + [y])[|l|] == y;
  }

  /** What the receiver held matters whenever there is any: the string stands alone exactly if it held nothing. */
  lemma HeldMattersExactlyWhen(f: Frame, x: Byte, d: Byte, emitNul: bool)
    requires InCommand(f) && f.start.None? && Interrupts(x) && Opens(d)
    ensures Chunk(f, [x, d, BEL], emitNul).log == Run(Between(f), [x, d, BEL], emitNul).log <==> f.acc == []
  {
    CommandInterrupted(f, x, d, emitNul);
    CommandInterruptedReference(Between(f), x, d, emitNul);
    hide Chunk, Run, Interrupts, Opens, Shown;
    SameData(f.regs.osc, f.acc, [], d, f.log + Shown(x, emitNul));
    assert [] + [d] == [d];
  }

  // ----- a string given up -----

  lemma ContentStep(f: Frame, chunk: seq<Byte>, pos: nat, emitNul: bool)
    requires pos < |chunk| && InContent(f) && !f.regs.inEsc && chunk[pos] >= 0x20 && chunk[pos] != DEL
    ensures
      var g := ByteStep(f, chunk, pos, emitNul);
      g.regs == f.regs && g.start == f.start && g.initial == f.initial && g.acc == f.acc && g.log == f.log
  {
  }

  lemma CancelStep(f: Frame, chunk: seq<Byte>, pos: nat, emitNul: bool)
    requires pos < |chunk| && f.regs.args != [] && chunk[pos] == CAN
    ensures
      var g := ByteStep(f, chunk, pos, emitNul);
      && g.regs == f.regs.(inEsc := false, state := Normal) && g.start.None? && g.acc == f.acc
      && g.log == f.log + Shown(CAN, emitNul)
  {
  }

  function NewOsc(r: Regs): Regs { r.(intermed := [], inEsc := false, state := OscCommand, osc := -1) }

  lemma OpenStep(f: Frame, chunk: seq<Byte>, pos: nat, emitNul: bool)
    requires pos + 1 < |chunk| && f.regs.args != [] && f.regs.state == Normal
    requires chunk[pos] == ESC && chunk[pos + 1] == 0x5d
    ensures
      var g := ByteStep(ByteStep(f, chunk, pos, emitNul), chunk, pos + 1, emitNul);
      InCommand(g) && g.regs == NewOsc(f.regs) && g.acc == f.acc && g.log == f.log
  {
  }

  lemma ScanOne(f: Frame, chunk: seq<Byte>, n: nat, emitNul: bool)
    requires f.regs.args != [] && n < |chunk|
    ensures Scan(f, chunk, n + 1, emitNul) == ByteStep(Scan(f, chunk, n, emitNul), chunk, n, emitNul)
  {
  }

  /** Gives up the string being read and sends an OSC string, with a control before its content. */
  function GiveUp(x: Byte, d: Byte): seq<Byte> { [CAN, ESC, 0x5d, x, d, BEL] }

  lemma GivenUp(a: Frame, chunk: seq<Byte>, n: nat, x: Byte, d: Byte, emitNul: bool)
    requires a.regs.args != [] && n + 6 == |chunk| && chunk[n..] == GiveUp(x, d)
    requires Interrupts(x) && Opens(d)
    ensures
      var s, g := Scan(a, chunk, n, emitNul), Scan(a, chunk, |chunk|, emitNul);
      g.start.None? && g.log == s.log + Shown(CAN, emitNul) + Shown(x, emitNul) + [OscString(-1, s.acc + [d])]
  {
    SixBytes(chunk, n, x, d);
    var s := Scan(a, chunk, n, emitNul);
    hide *;
    assert |chunk| == n + 6;
    ScanOne(a, chunk, n, emitNul);
    ScanOne(a, chunk, n + 1, emitNul);
    ScanOne(a, chunk, n + 2, emitNul);
    ScanOne(a, chunk, n + 3, emitNul);
    ScanOne(a, chunk, n + 4, emitNul);
    ScanOne(a, chunk, n + 5, emitNul);
    CancelStep(s, chunk, n, emitNul);
    OpenStep(Scan(a, chunk, n + 1, emitNul), chunk, n + 1, emitNul);
    InterruptedString(Scan(a, chunk, n + 3, emitNul), chunk, n + 3, emitNul);
  }

  lemma SixBytes(chunk: seq<Byte>, n: nat, x: Byte, d: Byte)
    requires n + 6 == |chunk| && chunk[n..] == GiveUp(x, d)
    ensures chunk[n] == CAN && chunk[n + 1] == ESC && chunk[n + 2] == 0x5d && chunk[n + 3] == x && chunk[n + 4] == d
    ensures chunk[n + 5] == BEL
  {
    forall k | 0 <= k < 6 ensures chunk[n + k] == GiveUp(x, d)[k] { assert chunk[n..][k] == chunk[n + k]; }
    assert chunk[n + 0] == CAN;
  }

  /** The same bytes mean different things: what the receiver holds of the string given up depends on where the
      input was split. They mean the same exactly if it happens to hold the piece already. */
  lemma CommandDependsOnSplit(f: Frame, y: Byte, x: Byte, d: Byte, emitNul: bool)
    requires f.regs.args != [] && f.start.None? && IsContent(f.regs.state) && !f.regs.inEsc && y >= 0x20 && y != DEL
    requires Interrupts(x) && Opens(d)
    ensures
      var log := f.log + Shown(CAN, emitNul) + Shown(x, emitNul);
      var whole, split := Chunk(f, [y] + GiveUp(x, d), emitNul), Chunks(f, [[y], GiveUp(x, d)], emitNul);
      && whole.log == log + [OscString(-1, f.acc + [d])]
      && split.log == log + [OscString(-1, Held(f) + [y] + [d])]
      && (whole.log == split.log <==> f.initial && f.acc == [y])
  {
    GivenUpWhole(f, y, x, d, emitNul);
    GivenUpSplit(f, y, x, d, emitNul);
    SameData(-1, f.acc, Held(f) + [y], d, f.log + Shown(CAN, emitNul) + Shown(x, emitNul));
    hide Chunk, Chunks, GiveUp, Interrupts, Opens, Shown;
    if f.acc == Held(f) + [y] { assert |f.acc| == |Held(f)| + 1; }
    assert [] + [y] == [y];
  }

  lemma LastSix(x: Byte, d: Byte)
    ensures |GiveUp(x, d)| == 6
  {
  }

  lemma GivenUpWhole(f: Frame, y: Byte, x: Byte, d: Byte, emitNul: bool)
    requires f.regs.args != [] && f.start.None? && IsContent(f.regs.state) && !f.regs.inEsc && y >= 0x20 && y != DEL
    requires Interrupts(x) && Opens(d)
    ensures
      Chunk(f, [y] + GiveUp(x, d), emitNul).log
      == f.log + Shown(CAN, emitNul) + Shown(x, emitNul) + [OscString(-1, f.acc + [d])]
  {
    LastSix(x, d);
    hide ByteStep, GiveUp, Interrupts, Shown, Opens;
    var whole := [y] + GiveUp(x, d);
    assert whole[1..] == GiveUp(x, d);
    ScanOne(BeginChunk(f), whole, 0, emitNul);
    ContentStep(BeginChunk(f), whole, 0, emitNul);
    hide Scan;
    GivenUp(BeginChunk(f), whole, 1, x, d, emitNul);
  }

  lemma ContentChunk(f: Frame, y: Byte, emitNul: bool)
    requires f.regs.args != [] && f.start.None? && IsContent(f.regs.state) && !f.regs.inEsc && y >= 0x20 && y != DEL
    ensures var g := Chunk(f, [y], emitNul); g.acc == Held(f) + [y] && g.log == f.log && g.regs == f.regs
  {
    hide ByteStep;
    var one: seq<Byte> := [y];
    ScanOne(BeginChunk(f), one, 0, emitNul);
    ContentStep(BeginChunk(f), one, 0, emitNul);
    assert one[0..1] == one && [] + one == one;
  }

  lemma GivenUpSplit(f: Frame, y: Byte, x: Byte, d: Byte, emitNul: bool)
    requires f.regs.args != [] && f.start.None? && IsContent(f.regs.state) && !f.regs.inEsc && y >= 0x20 && y != DEL
    requires Interrupts(x) && Opens(d)
    ensures
      Chunks(f, [[y], GiveUp(x, d)], emitNul).log
      == f.log + Shown(CAN, emitNul) + Shown(x, emitNul) + [OscString(-1, Held(f) + [y] + [d])]
  {
    LastSix(x, d);
    TwoChunks(f, [y], GiveUp(x, d), emitNul);
    ContentChunk(f, y, emitNul);
    hide ByteStep, GiveUp, Interrupts, Shown, Opens;
    var g := Chunk(f, [y], emitNul);
    assert GiveUp(x, d)[0..] == GiveUp(x, d);
    assert Scan(BeginChunk(g), GiveUp(x, d), 0, emitNul) == BeginChunk(g);
    GivenUp(BeginChunk(g), GiveUp(x, d), 0, x, d, emitNul);
  }
}
