/** Output of a process read in chunks and handed on in units: lines, or Server-Sent Events. */
module Streams {
  import opened Wrappers

  // ----- whole-stream meaning -----

  /** The text before the first newline and the text after it. */
  function CutLine(s: string): (r: Option<(string, string)>)
    ensures r.Some? ==> s == r.value.0 + "\n" + r.value.1 && '\n' !in r.value.0 && |r.value.1| < |s|
    ensures r.None? <==> '\n' !in s
  {
    if s == "" then None
    else if s[0] == '\n' then
      assert s == "" + "\n" + s[1..];
      Some(("", s[1..]))
    else
      assert s == [s[0]] + s[1..];
      match CutLine(s[1..])
      case None => None
      case Some((a, b)) =>
        assert [s[0]] + (a + "\n" + b) == [s[0]] + a + "\n" + b;
        Some(([s[0]] + a, b))
  }

  /** The lines of a stream; what follows the last newline is a line unless it is empty. */
  function Lines(s: string): seq<string>
    decreases |s|
  {
    match CutLine(s)
    case Some((line, rest)) => [line] + Lines(rest)
    case None => if s == "" then [] else [s]
  }

  function Concat(chunks: seq<string>): string
    decreases |chunks|
  {
    if chunks == [] then "" else Concat(chunks[..|chunks| - 1]) + chunks[|chunks| - 1]
  }

  /** The lines in front of the rest of a stream. */
  lemma {:induction false} CutUnique(line: string, rest: string)
    requires '\n' !in line
    ensures CutLine(line + "\n" + rest) == Some((line, rest))
  {
    var s := line + "\n" + rest;
    if line == "" {
      assert s[0] == '\n' && s[1..] == rest;
    } else {
      assert s[0] == line[0] && s[1..] == line[1..] + "\n" + rest;
      CutUnique(line[1..], rest);
      assert [line[0]] + line[1..] == line;
    }
  }

  lemma LinesCut(line: string, rest: string)
    requires '\n' !in line
    ensures Lines(line + "\n" + rest) == [line] + Lines(rest)
  {
    CutUnique(line, rest);
  }

  function Join(parts: seq<string>): string
    decreases |parts|
  {
    if parts == [] then ""
    else if |parts| == 1 then parts[0]
    else parts[0] + "\n" + Join(parts[1..])
  }

  function FinalNewline(s: string): string { if s != "" && s[|s| - 1] == '\n' then "\n" else "" }

  /** Lines joined by newlines give back the stream, up to its final newline. */
  lemma {:induction false} LinesJoin(s: string)
    ensures s == Join(Lines(s)) + FinalNewline(s)
    decreases |s|
  {
    match CutLine(s)
    case None =>
      if s != "" { assert s[|s| - 1] in s; }
    case Some((line, rest)) =>
      LinesJoin(rest);
      hide CutLine, Lines;
      var more := Lines(rest);
      LinesSome(s);
      if rest != "" {
        assert FinalNewline(s) == FinalNewline(rest);
        assert Join([line] + more) == line + "\n" + Join(more) by { assert ([line] + more)[1..] == more; }
        assert line + "\n" + Join(more) + FinalNewline(s) == line + "\n" + (Join(more) + FinalNewline(rest));
      }
  }

  lemma LinesSome(s: string)
    requires CutLine(s).Some?
    ensures Lines(s) == [CutLine(s).value.0] + Lines(CutLine(s).value.1)
    ensures Lines(CutLine(s).value.1) == [] <==> CutLine(s).value.1 == ""
  {
  }

  /** No line holds a newline, and there are as many lines as newlines, with one more for text after the last. */
  lemma {:induction false} LinesPlain(s: string)
    ensures forall i :: 0 <= i < |Lines(s)| ==> '\n' !in Lines(s)[i]
    ensures |Lines(s)| == Newlines(s) + (if s != "" && FinalNewline(s) == "" then 1 else 0)
    decreases |s|
  {
    match CutLine(s)
    case None => NoNewlines(s);
    case Some((line, rest)) =>
      hide Newlines;
      LinesPlain(rest);
      NewlinesCut(s);
  }

  lemma NewlinesCut(s: string)
    requires CutLine(s).Some?
    ensures Newlines(s) == 1 + Newlines(CutLine(s).value.1)
  {
    var (line, rest) := CutLine(s).value;
    NoNewlines(line);
    NewlinesJoin(line, "\n" + rest);
    assert ("\n" + rest)[1..] == rest && line + ("\n" + rest) == s;
  }

  function Newlines(s: string): nat { if s == "" then 0 else (if s[0] == '\n' then 1 else 0) + Newlines(s[1..]) }

  lemma {:induction false} NoNewlines(s: string)
    requires '\n' !in s
    ensures Newlines(s) == 0
  {
    if s != "" { NoNewlines(s[1..]); }
  }

  lemma {:induction false} NewlinesJoin(a: string, b: string)
    ensures Newlines(a + b) == Newlines(a) + Newlines(b)
  {
    if a == "" {
      assert a + b == b;
    } else {
      assert (a + b)[1..] == a[1..] + b;
      NewlinesJoin(a[1..], b);
    }
  }

  function Terminated(lines: seq<string>): string {
    if lines == [] then "" else lines[0] + "\n" + Terminated(lines[1..])
  }

  /** Writing lines, each with its newline, and reading them back. */
  lemma {:induction false} LinesRoundTrip(lines: seq<string>)
    requires forall i :: 0 <= i < |lines| ==> '\n' !in lines[i]
    ensures Lines(Terminated(lines)) == lines
  {
    if lines != [] {
      LinesCut(lines[0], Terminated(lines[1..]));
      LinesRoundTrip(lines[1..]);
    }
  }

  // ----- blocks of events -----

  /** The text before the first empty line and the text after it. */
  function CutBlock(s: string): (r: Option<(string, string)>)
    ensures r.Some? ==> s == r.value.0 + "\n\n" + r.value.1 && |r.value.1| < |s|
  {
    if |s| < 2 then None
    else if s[0] == '\n' && s[1] == '\n' then
      assert s == "" + "\n\n" + s[2..];
      Some(("", s[2..]))
    else
      assert s == [s[0]] + s[1..];
      match CutBlock(s[1..])
      case None => None
      case Some((a, b)) =>
        assert [s[0]] + (a + "\n\n" + b) == [s[0]] + a + "\n\n" + b;
        Some(([s[0]] + a, b))
  }

  /** The blocks of a stream: the leftmost split at empty lines, and what is left over unless empty. */
  function Blocks(s: string): seq<string>
    decreases |s|
  {
    match CutBlock(s)
    case Some((block, rest)) => [block] + Blocks(rest)
    case None => if s == "" then [] else [s]
  }

  predicate DelimiterAt(s: string, i: nat) { i + 1 < |s| && s[i] == '\n' && s[i + 1] == '\n' }

  /** The cut is at the first delimiter, and there is none if nothing is cut. */
  lemma {:induction false} CutLeftmost(s: string)
    ensures
      match CutBlock(s)
      case Some((block, _)) => DelimiterAt(s, |block|) && forall i :: 0 <= i < |block| ==> !DelimiterAt(s, i)
      case None => forall i: nat :: !DelimiterAt(s, i)
  {
    if |s| >= 2 && !DelimiterAt(s, 0) {
      CutLeftmost(s[1..]);
      assert forall i: nat :: i > 0 ==> (DelimiterAt(s, i) <==> DelimiterAt(s[1..], i - 1));
    }
  }

  /** A delimiter found in the text read so far stays the first one when more is read. */
  lemma {:induction false} CutStable(s: string, more: string)
    requires CutBlock(s).Some?
    ensures CutBlock(s + more) == Some((CutBlock(s).value.0, CutBlock(s).value.1 + more))
  {
    var t := s + more;
    if s[0] == '\n' && s[1] == '\n' {
      assert t[2..] == s[2..] + more;
    } else {
      assert t[1..] == s[1..] + more;
      CutStable(s[1..], more);
    }
  }

  lemma BlocksCut(s: string, more: string)
    requires CutBlock(s).Some?
    ensures Blocks(s + more) == [CutBlock(s).value.0] + Blocks(CutBlock(s).value.1 + more)
  {
    CutStable(s, more);
  }

  // ----- one event -----

  /** All pieces between newlines, empty ones included. */
  function Split(s: string): (r: seq<string>)
    ensures r != []
    decreases |s|
  {
    match CutLine(s)
    case Some((line, rest)) => [line] + Split(rest)
    case None => [s]
  }

  const DATA: string := "data:"

  /** What a data line carries: what follows "data:" and one optional space. */
  function DataOf(line: string): Option<string> {
    if DATA <= line then
      var rest := line[|DATA|..];
      Some(if rest != "" && rest[0] == ' ' then rest[1..] else rest)
    else None
  }

  function DataLines(lines: seq<string>): seq<string> {
    if lines == [] then []
    else
      (match DataOf(lines[0])
       case Some(data) => [data]
       case None => [])
      + DataLines(lines[1..])
  }

  /** What an event hands on: its data lines joined by newlines, or nothing if it has none. */
  function EventText(block: string): seq<string> {
    var data := DataLines(Split(block));
    if data == [] then [] else [Join(data)]
  }

  function EventTexts(blocks: seq<string>): seq<string> {
    if blocks == [] then [] else EventText(blocks[0]) + EventTexts(blocks[1..])
  }

  /** Everything the handler is given for a stream of events. */
  function Events(s: string): seq<string> { EventTexts(Blocks(s)) }

  lemma EventsCut(s: string, more: string)
    requires CutBlock(s).Some?
    ensures Events(s + more) == EventText(CutBlock(s).value.0) + Events(CutBlock(s).value.1 + more)
  {
    BlocksCut(s, more);
    var (block, rest) := CutBlock(s).value;
    assert ([block] + Blocks(rest + more))[1..] == Blocks(rest + more);
  }

  /** A buffer without a complete event is its own last block. */
  lemma LastBlock(s: string)
    requires CutBlock(s).None?
    ensures Events(s) == if s == "" then [] else EventText(s)
  {
    if s != "" {
      assert Blocks(s) == [s] && [s][1..] == [] && EventTexts([]) == [];
      assert EventTexts([s]) == EventText(s) + [];
    }
  }

  // ----- reading in chunks -----

  /** Calls made so far and text still held stand, under the meaning f, for calls and text before, whatever
      is read next. */
  ghost predicate Agree(f: string -> seq<string>, calls: seq<string>, held: string, calls0: seq<string>,
          held0: string) {
    forall more: string {:trigger f(held + more)} {:trigger f(held0 + more)} ::
        calls + f(held + more) == calls0 + f(held0 + more)
  }

  lemma AgreeMore(f: string -> seq<string>, calls: seq<string>, held: string, calls0: seq<string>, held0: string,
          x: string)
    requires Agree(f, calls, held, calls0, held0)
    ensures Agree(f, calls, held + x, calls0, held0 + x)
  {
    forall more: string ensures calls + f(held + x + more) == calls0 + f(held0 + x + more) {
      assert held + x + more == held + (x + more) && held0 + x + more == held0 + (x + more);
    }
  }

  lemma AgreeThen(f: string -> seq<string>, calls: seq<string>, held: string, calls1: seq<string>, held1: string,
          calls0: seq<string>, held0: string)
    requires Agree(f, calls, held, calls1, held1) && Agree(f, calls1, held1, calls0, held0)
    ensures Agree(f, calls, held, calls0, held0)
  {
    forall more: string ensures calls + f(held + more) == calls0 + f(held0 + more) {
      assert calls + f(held + more) == calls1 + f(held1 + more);
    }
  }

  lemma AgreeEnd(f: string -> seq<string>, calls: seq<string>, held: string, calls0: seq<string>, held0: string)
    requires Agree(f, calls, held, calls0, held0)
    ensures calls + f(held) == calls0 + f(held0)
  {
    assert held + "" == held && held0 + "" == held0;
    assert calls + f(held + "") == calls0 + f(held0 + "");
  }

  lemma AgreeLine(calls: seq<string>, held: string)
    requires CutLine(held).Some?
    ensures Agree(Lines, calls + [CutLine(held).value.0], CutLine(held).value.1, calls, held)
  {
    var (line, rest) := CutLine(held).value;
    forall more: string ensures (calls + [line]) + Lines(rest + more) == calls + Lines(held + more) {
      assert held + more == line + "\n" + (rest + more);
      LinesCut(line, rest + more);
    }
  }

  lemma AgreeEvent(calls: seq<string>, held: string)
    requires CutBlock(held).Some?
    ensures Agree(Events, calls + EventText(CutBlock(held).value.0), CutBlock(held).value.1, calls, held)
  {
    hide Events, EventText, CutBlock;
    var (block, rest) := CutBlock(held).value;
    forall more: string ensures (calls + EventText(block)) + Events(rest + more) == calls + Events(held + more) {
      EventsCut(held, more);
      assert (calls + EventText(block)) + Events(rest + more) == calls + (EventText(block) + Events(rest + more));
    }
  }

  class ProtocolReader {
    var buf: string
    var calls: seq<string>    // what the handler was given, in order

    constructor ()
      ensures buf == "" && calls == []
    {
      buf, calls := "", [];
    }

    method Handle(text: string)
      modifies this`calls
      ensures calls == old(calls) + [text]
    {
      calls := calls + [text];
    }

    /** Hands on the complete lines of the buffer; the rest is put back. */
    method EmitLines(lineBuf: string) returns (rest: string)
      modifies this`calls
      ensures '\n' !in rest && Agree(Lines, calls, rest, old(calls), lineBuf)
    {
      hide Agree, Lines, CutLine;
      rest := lineBuf;
      AgreeSelf(Lines, calls, rest);
      while true
        invariant Agree(Lines, calls, rest, old(calls), lineBuf)
        decreases |rest|
      {
        var cut := CutLine(rest);
        if cut.None? {
          return;
        }
        ghost var c, before := calls, rest;
        AgreeLine(calls, rest);
        Handle(cut.value.0);
        rest := cut.value.1;
        AgreeThen(Lines, calls, rest, c, before, old(calls), lineBuf);
      }
    }

    /** Reads to the end: the handler is given the lines of the whole stream, however it was read. */
    method ProcessLines(chunks: seq<string>)
      modifies this`calls
      ensures calls == old(calls) + Lines(Concat(chunks))
    {
      hide Agree, CutLine;
      var lineBuf := "";
      AgreeSelf(Lines, calls, "");
      for i := 0 to |chunks|
        invariant '\n' !in lineBuf && Agree(Lines, calls, lineBuf, old(calls), Concat(chunks[..i]))
      {
        assert chunks[..i + 1][..i] == chunks[..i];
        ghost var c := calls;
        AgreeMore(Lines, calls, lineBuf, old(calls), Concat(chunks[..i]), chunks[i]);
        ghost var held := lineBuf + chunks[i];
        lineBuf := EmitLines(lineBuf + chunks[i]);
        AgreeThen(Lines, calls, lineBuf, c, held, old(calls), Concat(chunks[..i + 1]));
      }
      assert chunks[..|chunks|] == chunks;
      AgreeEnd(Lines, calls, lineBuf, old(calls), Concat(chunks));
      if |lineBuf| > 0 {
        Handle(lineBuf);
      }
    }

    /** Hands on the data of one event. */
    method ParseEvent(event: string)
      modifies this`calls
      ensures calls == old(calls) + EventText(event)
    {
      hide Split;
      var lines := Split(event);
      var dataLines: seq<string> := [];
      assert lines[0..] == lines;
      assert DataLines(lines) == dataLines + DataLines(lines[0..]);
      for i := 0 to |lines|
        invariant calls == old(calls) && DataLines(lines) == dataLines + DataLines(lines[i..])
      {
        assert lines[i..][0] == lines[i] && lines[i..][1..] == lines[i + 1..];
        var data := DataOf(lines[i]);
        if data.Some? {
          dataLines := dataLines + [data.value];
        }
      }
      assert lines[|lines|..] == [];
      assert DataLines(lines) == dataLines;
      if |dataLines| > 0 {
        Handle(Join(dataLines));
      } else {
        assert calls == calls + [];
      }
    }

    /** Takes complete events off the buffer. */
    method EmitEvents()
      modifies this
      ensures CutBlock(buf).None? && Agree(Events, calls, buf, old(calls), old(buf))
    {
      hide Agree, Events, EventText, CutBlock;
      AgreeSelf(Events, calls, buf);
      while true
        invariant Agree(Events, calls, buf, old(calls), old(buf))
        decreases |buf|
      {
        var cut := CutBlock(buf);
        if cut.None? {
          return;
        }
        ghost var c, before := calls, buf;
        AgreeEvent(calls, buf);
        buf := cut.value.1;
        ParseEvent(cut.value.0);
        AgreeThen(Events, calls, buf, c, before, old(calls), old(buf));
      }
    }

    /** Reads to the end: the handler is given the events of the whole stream, however it was read. */
    method ProcessSse(chunks: seq<string>)
      requires buf == ""
      modifies this
      ensures calls == old(calls) + Events(Concat(chunks))
    {
      hide Agree, Events, EventText, CutBlock;
      AgreeSelf(Events, calls, "");
      NoBlock();
      for i := 0 to |chunks|
        invariant CutBlock(buf).None? && Agree(Events, calls, buf, old(calls), Concat(chunks[..i]))
      {
        assert chunks[..i + 1][..i] == chunks[..i];
        ghost var c := calls;
        AgreeMore(Events, calls, buf, old(calls), Concat(chunks[..i]), chunks[i]);
        ghost var held := buf + chunks[i];
        buf := buf + chunks[i];
        EmitEvents();
        AgreeThen(Events, calls, buf, c, held, old(calls), Concat(chunks[..i + 1]));
      }
      assert chunks[..|chunks|] == chunks;
      AgreeEnd(Events, calls, buf, old(calls), Concat(chunks));
      LastBlock(buf);
      if |buf| > 0 {
        ParseEvent(buf);
      } else {
        assert calls + [] == calls;
      }
    }
  }

  lemma AgreeSelf(f: string -> seq<string>, calls: seq<string>, held: string)
    ensures Agree(f, calls, held, calls, held)
  {
  }

  lemma NoBlock()
    ensures CutBlock("").None?
  {
  }

  // ----- writing events and reading them back -----

  /** A line of an event: one that carries text, with or without a space after the colon, or any other, such as the
      name of the event or a comment. */
  datatype Line = Data(text: string, spaced: bool) | Other(text: string)

  predicate CanWrite(l: Line) {
    && '\n' !in l.text
    && match l
       case Data(text, spaced) => spaced || text == "" || text[0] != ' '
       case Other(text) => text != "" && !(DATA <= text)
  }

  predicate AllCanWrite(lines: seq<Line>) { forall i :: 0 <= i < |lines| ==> CanWrite(lines[i]) }

  function Written(l: Line): string {
    match l
    case Data(text, spaced) => DATA + (if spaced then " " + text else text)
    case Other(text) => text
  }

  function EncodeLines(lines: seq<Line>): string
    requires lines != []
  {
    if |lines| == 1 then Written(lines[0]) else Written(lines[0]) + "\n" + EncodeLines(lines[1..])
  }

  /** The text a line carries, if any. */
  function Text(l: Line): seq<string> { if l.Data? then [l.text] else [] }

  function TextsOf(lines: seq<Line>): seq<string> {
    if lines == [] then [] else Text(lines[0]) + TextsOf(lines[1..])
  }

  /** What an event is to hand on: the texts of its data lines joined by newlines; nothing without data lines. */
  function Carried(lines: seq<Line>): seq<string> { if TextsOf(lines) == [] then [] else [Join(TextsOf(lines))] }

  function EncodeEvents(events: seq<seq<Line>>): string
    requires forall i :: 0 <= i < |events| ==> events[i] != []
  {
    if events == [] then "" else EncodeLines(events[0]) + "\n\n" + EncodeEvents(events[1..])
  }

  function AllCarried(events: seq<seq<Line>>): seq<string> {
    if events == [] then [] else Carried(events[0]) + AllCarried(events[1..])
  }

  lemma {:induction false} SplitJoin(s: string)
    ensures Join(Split(s)) == s && forall i :: 0 <= i < |Split(s)| ==> '\n' !in Split(s)[i]
    decreases |s|
  {
    match CutLine(s)
    case None =>
    case Some((line, rest)) =>
      SplitJoin(rest);
      assert Split(s) == [line] + Split(rest) && ([line] + Split(rest))[1..] == Split(rest);
  }

  lemma WrittenLine(l: Line)
    requires CanWrite(l)
    ensures '\n' !in Written(l) && Written(l) != "" && Written(l)[0] != '\n'
    ensures DataOf(Written(l)) == if l.Data? then Some(l.text) else None
  {
    if l.Data? {
      var s, rest := Written(l), if l.spaced then " " + l.text else l.text;
      assert s[..5] == DATA && s[5..] == rest && (l.spaced ==> rest[1..] == l.text);
    }
  }

  lemma {:induction false} SplitEncoded(lines: seq<Line>)
    requires lines != [] && AllCanWrite(lines)
    ensures DataLines(Split(EncodeLines(lines))) == TextsOf(lines)
  {
    hide Written;
    var first := Written(lines[0]);
    WrittenLine(lines[0]);
    if |lines| == 1 {
      assert Split(first) == [first] && [first][1..] == [] && DataLines([]) == [] && TextsOf(lines[1..]) == [];
    } else {
      var rest := EncodeLines(lines[1..]);
      SplitEncoded(lines[1..]);
      CutUnique(first, rest);
      var all := [first] + Split(rest);
      assert Split(EncodeLines(lines)) == all && all[0] == first && all[1..] == Split(rest);
    }
  }

  /** No event holds an empty line, nor does one begin with a newline. */
  lemma {:induction false} BlockEncoded(lines: seq<Line>, rest: string)
    requires lines != [] && AllCanWrite(lines)
    ensures CutBlock(EncodeLines(lines) + "\n\n" + rest) == Some((EncodeLines(lines), rest))
    ensures EncodeLines(lines) != "" && EncodeLines(lines)[0] != '\n'
  {
    hide Written;
    var first := Written(lines[0]);
    WrittenLine(lines[0]);
    if |lines| == 1 {
      CutPast(first, "\n\n" + rest);
      assert CutBlock("\n\n" + rest) == Some(("", rest)) by { assert ("\n\n" + rest)[2..] == rest; }
      assert first + "" == first && first + "\n\n" + rest == first + ("\n\n" + rest);
    } else {
      var more := EncodeLines(lines[1..]);
      BlockEncoded(lines[1..], rest);
      var tail := more + "\n\n" + rest;
      NewlineThen(tail);
      CutPast(first, "\n" + tail);
      assert first + ("\n" + more) == EncodeLines(lines);
      assert first + ("\n" + tail) == EncodeLines(lines) + "\n\n" + rest;
    }
  }

  lemma NewlineThen(tail: string)
    requires tail != "" && tail[0] != '\n' && CutBlock(tail).Some?
    ensures CutBlock("\n" + tail) == Some(("\n" + CutBlock(tail).value.0, CutBlock(tail).value.1))
  {
    assert ("\n" + tail)[1..] == tail && ("\n" + tail)[1] == tail[0];
  }

  /** A text without newlines is no part of a delimiter. */
  lemma {:induction false} CutPast(line: string, s: string)
    requires '\n' !in line && CutBlock(s).Some?
    ensures CutBlock(line + s) == Some((line + CutBlock(s).value.0, CutBlock(s).value.1))
  {
    if line == "" {
      assert line + s == s && line + CutBlock(s).value.0 == CutBlock(s).value.0;
    } else {
      CutPast(line[1..], s);
      assert (line + s)[1..] == line[1..] + s && (line + s)[0] == line[0];
      assert [line[0]] + (line[1..] + CutBlock(s).value.0) == line + CutBlock(s).value.0;
    }
  }

  /** Events written with any lines in any order hand on exactly the texts of their data lines, event by event. */
  lemma {:induction false} LinesOfEventsRoundTrip(events: seq<seq<Line>>)
    requires forall i :: 0 <= i < |events| ==> events[i] != [] && AllCanWrite(events[i])
    ensures Events(EncodeEvents(events)) == AllCarried(events)
  {
    if events == [] {
      NoBlock();
      LastBlock("");
    } else {
      hide CutBlock, Events, Split, EncodeLines, TextsOf, AllCanWrite;
      var lines, rest := events[0], EncodeEvents(events[1..]);
      BlockEncoded(lines, rest);
      SplitEncoded(lines);
      var s := EncodeLines(lines) + "\n\n" + rest;
      EventsCut(s, "");
      assert s + "" == s && rest + "" == rest;
      LinesOfEventsRoundTrip(events[1..]);
    }
  }

  /** One event that carries a text: a data line for each of its lines. */
  function Encoded(text: string): (lines: seq<Line>)
    ensures |lines| == |Split(text)| && forall i :: 0 <= i < |lines| ==> lines[i] == Data(Split(text)[i], true)
  {
    seq(|Split(text)|, i requires 0 <= i < |Split(text)| => Data(Split(text)[i], true))
  }

  function AllEncoded(texts: seq<string>): (events: seq<seq<Line>>)
    ensures |events| == |texts| && forall i :: 0 <= i < |events| ==> events[i] == Encoded(texts[i])
  {
    seq(|texts|, i requires 0 <= i < |texts| => Encoded(texts[i]))
  }

  lemma {:induction false} TextsOfData(lines: seq<Line>, texts: seq<string>)
    requires |lines| == |texts| && forall i :: 0 <= i < |lines| ==> lines[i] == Data(texts[i], true)
    ensures TextsOf(lines) == texts
  {
    if lines != [] {
      TextsOfData(lines[1..], texts[1..]);
      assert texts == [texts[0]] + texts[1..];
    }
  }

  lemma {:induction false} CarriedTexts(texts: seq<string>)
    ensures AllCarried(AllEncoded(texts)) == texts
  {
    if texts != [] {
      hide Join, Split;
      SplitJoin(texts[0]);
      TextsOfData(Encoded(texts[0]), Split(texts[0]));
      assert AllEncoded(texts)[1..] == AllEncoded(texts[1..]);
      CarriedTexts(texts[1..]);
      assert texts == [texts[0]] + texts[1..];
    }
  }

  /** Texts written as events come back one by one, whatever newlines they hold. */
  lemma EventsRoundTrip(texts: seq<string>)
    ensures Events(EncodeEvents(AllEncoded(texts))) == texts
  {
    hide Events, EncodeEvents, AllCarried, Split;
    forall i | 0 <= i < |texts| ensures AllCanWrite(AllEncoded(texts)[i]) { SplitJoin(texts[i]); }
    LinesOfEventsRoundTrip(AllEncoded(texts));
    CarriedTexts(texts);
  }
}
