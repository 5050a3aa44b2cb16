/** Clients attaching to a running terminal: each gets a snapshot of the screen and then the output that
    follows. The terminal is fed outside the host's lock, so a chunk may be on the screen before it is
    broadcast; what holds under every interleaving is that nothing is missing between the two. */
module Attach {
  import opened Wrappers

  type Chunk = seq<int>

  /** A client: its size; how many chunks its snapshot shows, and how many the cursor position in it;
      from which chunk on it was sent output, and what it was sent. */
  datatype Client = Client(rows: nat, cols: nat, shown: nat, cursor: nat, from: nat, received: seq<Chunk>)

  /** An attach in progress; its holder has the host's lock. */
  datatype Attaching = Attaching(id: nat, rows: nat, cols: nat, shown: Option<nat>, cursor: Option<nat>)

  /** The indivisible steps of the terminal's reader and of the clients. */
  datatype Step =
    | Feed(chunk: Chunk)             // the reader writes a chunk to the terminal
    | Broadcast                      // and, under the host's lock, sends it to all clients
    | Begin(rows: int, cols: int)    // attach: takes the lock, settles the size, takes an id
    | Snapshot                       // attach: renders the screen
    | Cursor                         // attach: asks for the cursor
    | Register                       // attach: becomes a client, releases the lock
    | Leave(id: nat)                 // detach, or the client's input has ended

  /** Nothing is missing between the snapshot and the stream, and at most one chunk is in both. */
  predicate NoGap(c: Client) { c.from <= c.shown <= c.from + 1 && c.shown <= c.cursor <= c.from + 1 }

  /** What the client was sent is an uninterrupted stretch of the output. */
  predicate Stretch(c: Client, fed: seq<Chunk>, end: nat) { c.from <= end <= |fed| && c.received == fed[c.from..end] }

  // ----- which steps can be taken -----

  datatype Phase = Idle | Begun | Shown | Placed

  /** As much of the host as decides which steps are enabled: whether a chunk is written and not yet sent, how far an
      attach has come, the size, the clients and the last id given. */
  datatype Progress = Progress(unsent: bool, phase: Phase, rows: nat, cols: nat, clients: set<nat>, lastId: nat)

  function RowsAsked(rows: int): nat { if rows <= 0 then 24 else rows }

  function ColsAsked(cols: int): nat { if cols <= 0 then 80 else cols }

  /** The first client sets the size; a later one must not be smaller. */
  predicate SizeOk(p: Progress, rows: int, cols: int) {
    p.clients == {} || (RowsAsked(rows) >= p.rows && ColsAsked(cols) >= p.cols)
  }

  predicate CanStep(p: Progress, step: Step) {
    match step
    case Feed(_) => !p.unsent
    case Broadcast => p.unsent && p.phase == Idle
    case Begin(_, _) => p.phase == Idle
    case Snapshot => p.phase == Begun
    case Cursor => p.phase == Shown
    case Register => p.phase == Placed
    case Leave(_) => p.phase == Idle
  }

  /** After a step, if it is enabled. */
  function StepOn(p: Progress, step: Step): Progress {
    if !CanStep(p, step) then p
    else
      match step
      case Feed(_) => p.(unsent := true)
      case Broadcast => p.(unsent := false)
      case Begin(rows, cols) =>
        if !SizeOk(p, rows, cols) then p
        else if p.clients == {} then
          p.(phase := Begun, lastId := p.lastId + 1, rows := RowsAsked(rows), cols := ColsAsked(cols))
        else p.(phase := Begun, lastId := p.lastId + 1)
      case Snapshot => p.(phase := Shown)
      case Cursor => p.(phase := Placed)
      case Register => p.(phase := Idle, clients := p.clients + {p.lastId})
      case Leave(id) => p.(clients := p.clients - {id})
  }

  function StepsOn(p: Progress, steps: seq<Step>): Progress {
    if steps == [] then p else StepOn(StepsOn(p, steps[..|steps| - 1]), steps[|steps| - 1])
  }

  /** The chunks of the enabled `Feed` steps. */
  function Output(p: Progress, steps: seq<Step>): seq<Chunk> {
    if steps == [] then []
    else
      var n := |steps| - 1;
      Output(p, steps[..n]) +
      (if steps[n].Feed? && CanStep(StepsOn(p, steps[..n]), steps[n]) then [steps[n].chunk] else [])
  }

  /** If every enabled `Feed` has been followed by an enabled `Broadcast`, nothing is left unsent. */
  lemma {:induction false} SentAfter(p: Progress, steps: seq<Step>, i: nat)
    requires i < |steps| && steps[i].Broadcast? && CanStep(StepsOn(p, steps[..i]), steps[i])
    requires forall k :: i < k < |steps| ==> !steps[k].Feed? || !CanStep(StepsOn(p, steps[..k]), steps[k])
    ensures !StepsOn(p, steps).unsent
    decreases |steps|
  {
    var n := |steps| - 1;
    if i < n {
      var before := steps[..n];
      forall k | 0 <= k <= n ensures before[..k] == steps[..k] {}
      SentAfter(p, before, i);
    }
  }

  /** What is left of an attach, and a broadcast. */
  function Rest(phase: Phase): seq<Step> {
    match phase
    case Idle => [Broadcast]
    case Placed => [Register, Broadcast]
    case Shown => [Cursor, Register, Broadcast]
    case Begun => [Snapshot, Cursor, Register, Broadcast]
  }

  /** The host never gets stuck: an attach in progress can be finished and what is written can be sent, and then
      the next chunk can be written and the next client can attach. */
  lemma {:induction false} NeverStuck(p: Progress, chunk: Chunk, rows: int, cols: int)
    ensures
      var q := StepsOn(p, Rest(p.phase));
      && !q.unsent && q.phase == Idle && q.clients == (if p.phase == Idle then p.clients else p.clients + {p.lastId})
      && StepOn(q, Feed(chunk)).unsent
      && (SizeOk(q, rows, cols) ==> StepOn(q, Begin(rows, cols)).phase == Begun)
    decreases |Rest(p.phase)|
  {
    var steps := Rest(p.phase);
    FirstStep(p, steps[0], steps[1..]);
    assert steps == [steps[0]] + steps[1..];
    if p.phase != Idle { NeverStuck(StepOn(p, steps[0]), chunk, rows, cols); }
  }

  lemma {:induction false} FirstStep(p: Progress, step: Step, rest: seq<Step>)
    ensures StepsOn(p, [step] + rest) == StepsOn(StepOn(p, step), rest)
    decreases |rest|
  {
    hide StepOn;
    var all := [step] + rest;
    if rest == [] {
      assert all == [step] && [step][..0] == [];
    } else {
      var n := |rest| - 1;
      FirstStep(p, step, rest[..n]);
      assert all[..|all| - 1] == [step] + rest[..n];
    }
  }

  class Host {
    var rows: nat
    var cols: nat
    var nextClientId: nat
    var attachedClients: map<nat, Client>
    var attaching: Option<Attaching>
    var fed: seq<Chunk>                   // all chunks written to the terminal
    var sent: nat                         // how many of them were broadcast
    ghost var gone: map<nat, Client>      // clients that have left

    function Now(): Progress
      reads this
    {
      var phase := if attaching.None? then Idle
                   else if attaching.value.cursor.Some? then Placed
                   else if attaching.value.shown.Some? then Shown
                   else Begun;
      Progress(sent != |fed|, phase, rows, cols, attachedClients.Keys, nextClientId)
    }

    ghost predicate Valid()
      reads this
    {
      && sent <= |fed| <= sent + 1
      && (forall id :: id in attachedClients ==>
            && 0 < id <= nextClientId && NoGap(attachedClients[id]) && Stretch(attachedClients[id], fed, sent)
            && attachedClients[id].rows >= rows && attachedClients[id].cols >= cols)
      && (forall id :: id in gone ==>
            && 0 < id <= nextClientId && id !in attachedClients && NoGap(gone[id])
            && Stretch(gone[id], fed, gone[id].from + |gone[id].received|))
      && (attaching.Some? ==>
            var a := attaching.value;
            && 0 < a.id == nextClientId && a.id !in attachedClients && a.id !in gone && a.rows >= rows && a.cols >= cols
            && (a.shown.Some? ==> sent <= a.shown.value <= |fed|)
            && (a.cursor.Some? ==> a.shown.Some? && a.shown.value <= a.cursor.value <= |fed|))
    }

    constructor (rows: nat, cols: nat)
      ensures Valid() && fed == [] && attachedClients == map[] && gone == map[] && attaching.None?
    {
      this.rows, this.cols := rows, cols;
      nextClientId, attachedClients, attaching := 0, map[], None;
      fed, sent, gone := [], 0, map[];
    }

    /** The reader has written a chunk to the terminal; it does not write another before broadcasting. */
    method FeedTerminal(chunk: Chunk)
      requires Valid() && sent == |fed|
      modifies this`fed
      ensures Valid() && fed == old(fed) + [chunk]
    {
      fed := fed + [chunk];
    }

    /** Sends the last chunk to every client; needs the lock. */
    method BroadcastChunk(chunk: Chunk)
      requires Valid() && sent < |fed| && chunk == fed[sent] && attaching.None?
      modifies this`sent, this`attachedClients
      ensures Valid() && sent == |fed| && attachedClients.Keys == old(attachedClients).Keys
      ensures forall id :: id in attachedClients ==>
                attachedClients[id] == old(attachedClients)[id].(received :=
                    old(attachedClients)[id].received + [chunk])
    {
      attachedClients := map id | id in attachedClients ::
          attachedClients[id].(received := attachedClients[id].received + [chunk]);
      sent := sent + 1;
    }

    /** The first client sets the size of the terminal; a later one must not be smaller. */
    method BeginAttach(clientRows: int, clientCols: int) returns (ok: bool)
      requires Valid() && attaching.None?
      modifies this`rows, this`cols, this`nextClientId, this`attaching
      ensures Valid() && ok == SizeOk(old(Now()), clientRows, clientCols)
      ensures ok ==>
                && nextClientId == old(nextClientId) + 1
                && attaching == Some(Attaching(nextClientId, RowsAsked(clientRows), ColsAsked(clientCols), None, None))
                && attaching.value.rows == (if clientRows > 0 then clientRows else 24)
                && attaching.value.cols == (if clientCols > 0 then clientCols else 80)
                && (attachedClients == map[] ==> rows == RowsAsked(clientRows) && cols == ColsAsked(clientCols))
      ensures !ok ==> attaching.None? && nextClientId == old(nextClientId)
      ensures !ok || attachedClients != map[] ==> rows == old(rows) && cols == old(cols)
    {
      var r := if clientRows <= 0 then 24 else clientRows;
      var c := if clientCols <= 0 then 80 else clientCols;
      if attachedClients == map[] {
        rows, cols := r, c;
      } else if r < rows || c < cols {
        return false;
      }
      nextClientId := nextClientId + 1;
      attaching := Some(Attaching(nextClientId, r, c, None, None));
      ok := true;
    }

    /** Renders the screen as it is now. */
    method TakeSnapshot()
      requires Valid() && attaching.Some? && attaching.value.shown.None?
      modifies this`attaching
      ensures Valid() && attaching == Some(old(attaching).value.(shown := Some(|fed|)))
    {
      attaching := Some(attaching.value.(shown := Some(|fed|)));
    }

    /** Asks where the cursor is; the reader may have gone on since the snapshot. */
    method TakeCursor()
      requires Valid() && attaching.Some? && attaching.value.shown.Some? && attaching.value.cursor.None?
      modifies this`attaching
      ensures Valid() && attaching == Some(old(attaching).value.(cursor := Some(|fed|)))
    {
      attaching := Some(attaching.value.(cursor := Some(|fed|)));
    }

    /** Becomes a client, under an id no client has had, and releases the lock. */
    method RegisterClient() returns (id: nat)
      requires Valid() && attaching.Some? && attaching.value.cursor.Some?
      modifies this`attaching, this`attachedClients
      ensures Valid() && attaching.None? && id == nextClientId
      ensures id !in old(attachedClients) && id !in gone
      ensures
        var a := old(attaching).value;
        attachedClients == old(attachedClients)[id := Client(a.rows, a.cols, a.shown.value, a.cursor.value, sent, [])]
      ensures NoGap(attachedClients[id])
    {
      var a := attaching.value;
      id := a.id;
      attachedClients := attachedClients[id := Client(a.rows, a.cols, a.shown.value, a.cursor.value, sent, [])];
      attaching := None;
    }

    /** A client leaves. */
    method Detach(id: nat) returns (ok: bool)
      requires Valid() && attaching.None?
      modifies this`attachedClients, this`gone
      ensures Valid() && ok == (id in old(attachedClients))
      ensures ok ==>
                attachedClients == old(attachedClients) - {id} && gone == old(gone)[id := old(attachedClients)[id]]
      ensures !ok ==> attachedClients == old(attachedClients) && gone == old(gone)
    {
      if id !in attachedClients {
        return false;
      }
      gone := gone[id := attachedClients[id]];
      attachedClients := attachedClients - {id};
      ok := true;
    }

    predicate Enabled(step: Step)
      reads this
    {
      CanStep(Now(), step)
    }

    /** Clients, once they have been attached, are remembered for good under their id. */
    ghost predicate Known(id: nat)
      reads this
    {
      id in attachedClients || id in gone
    }

    method Do(step: Step)
      requires Valid() && Enabled(step)
      modifies this
      ensures Valid() && nextClientId >= old(nextClientId) && Now() == StepOn(old(Now()), step)
      ensures fed == if step.Feed? then old(fed) + [step.chunk] else old(fed)
      ensures step.Broadcast? ==>
                && sent == |fed| && attachedClients.Keys == old(attachedClients).Keys
                && forall id :: id in attachedClients ==>
                     attachedClients[id] == old(attachedClients)[id].(received :=
                         old(attachedClients)[id].received + [fed[|fed| - 1]])
      ensures step.Begin? && SizeOk(old(Now()), step.rows, step.cols) ==>
                attaching == Some(Attaching(nextClientId, RowsAsked(step.rows), ColsAsked(step.cols), None, None))
      ensures step.Snapshot? ==> attaching == Some(old(attaching).value.(shown := Some(|fed|)))
      ensures step.Cursor? ==> attaching == Some(old(attaching).value.(cursor := Some(|fed|)))
      ensures step.Register? ==>
                var a := old(attaching).value;
                && a.id !in old(attachedClients) && a.id !in gone
                && attachedClients
                   == old(attachedClients)[a.id := Client(a.rows, a.cols, a.shown.value, a.cursor.value, sent, [])]
      ensures step.Leave? ==>
                && attachedClients == old(attachedClients) - {step.id}
                && gone == if step.id in old(attachedClients) then old(gone)[step.id := old(attachedClients)[step.id]]
                           else old(gone)
      ensures !step.Broadcast? ==> sent == old(sent)
      ensures !step.Broadcast? && !step.Register? && !step.Leave? ==> attachedClients == old(attachedClients)
      ensures step.Feed? || step.Broadcast? || step.Leave? ==> attaching == old(attaching)
      ensures !step.Leave? ==> gone == old(gone)
      ensures forall id :: old(Known(id)) ==> Known(id)
    {
      hide NoGap, Stretch, RowsAsked, ColsAsked;
      match step {
        case Feed(chunk) => FeedTerminal(chunk);
        case Broadcast => BroadcastChunk(fed[sent]);
        case Begin(r, c) => var _ := BeginAttach(r, c);
        case Snapshot => TakeSnapshot();
        case Cursor => TakeCursor();
        case Register => var _ := RegisterClient();
        case Leave(id) => var _ := Detach(id);
      }
      forall id | old(Known(id)) ensures Known(id) {
        assert id in old(attachedClients) || id in old(gone);
      }
    }

    /** What happens while a client is being attached, from its snapshot to its registration: the cursor is
        ahead of the snapshot exactly if the reader could write a chunk in between, and did, and then by one. */
    method AttachDuring(steps: seq<Step>) returns (id: nat)
      requires Valid() && attaching.Some? && attaching.value.shown.None?
      requires forall i :: 0 <= i < |steps| ==> !steps[i].Cursor?
      modifies this
      ensures Valid() && id in attachedClients && attachedClients[id].shown == |old(fed)|
      ensures attachedClients[id].cursor ==
              |old(fed)| + if old(sent == |fed|) && (exists i :: 0 <= i < |steps| && steps[i].Feed?) then 1 else 0
    {
      TakeSnapshot();
      ghost var taken := attaching;
      for i := 0 to |steps|
        invariant Valid() && attaching == taken && sent == old(sent)
        invariant |fed| == |old(fed)| + if old(sent == |fed|)
                  && (exists k :: 0 <= k < i && steps[k].Feed?) then 1 else 0
      {
        if Enabled(steps[i]) {
          match steps[i] {
            case Feed(chunk) => FeedTerminal(chunk);
          }
        }
      }
      TakeCursor();
      id := RegisterClient();
    }

    /** Every interleaving: for every client that is or was attached, snapshot and stream leave no gap and
        overlap in at most one chunk, and what it was sent is an uninterrupted stretch of the output. */
    method Run(steps: seq<Step>)
      requires Valid()
      modifies this
      ensures Valid() && nextClientId >= old(nextClientId)
      ensures forall id :: old(Known(id)) ==> Known(id)
      ensures forall id :: id in attachedClients ==>
                NoGap(attachedClients[id]) && Stretch(attachedClients[id], fed, sent)
                && Covered(attachedClients[id], fed[..sent])
      ensures forall id :: id in gone ==> NoGap(gone[id])
      ensures Now() == StepsOn(old(Now()), steps) && fed == old(fed) + Output(old(Now()), steps)
      ensures !StepsOn(old(Now()), steps).unsent ==>
                forall id :: id in attachedClients ==>
                  && attachedClients[id].received == fed[attachedClients[id].from..]
                  && Covered(attachedClients[id], fed)
    {
      for i := 0 to |steps|
        invariant Valid() && nextClientId >= old(nextClientId)
        invariant forall id :: old(Known(id)) ==> Known(id)
        invariant Now() == StepsOn(old(Now()), steps[..i]) && fed == old(fed) + Output(old(Now()), steps[..i])
      {
        assert steps[..i + 1][..i] == steps[..i];
        if Enabled(steps[i]) {
          Do(steps[i]);
        }
      }
      assert steps[..|steps|] == steps;
      assert sent == |fed| ==> fed[..sent] == fed;
      forall id | id in attachedClients ensures Covered(attachedClients[id], fed[..sent]) {
        NothingMissing(attachedClients[id], fed, sent);
      }
    }
  }

  /** It does happen: the reader writes a chunk after the snapshot, and the client is told of a position the
      snapshot does not show. */
  method CursorAhead(rows: nat, cols: nat, chunk: Chunk) returns (h: Host, id: nat)
    ensures h.Valid() && id in h.attachedClients && h.attachedClients[id].cursor == h.attachedClients[id].shown + 1
  {
    h := new Host(rows, cols);
    var ok := h.BeginAttach(rows, cols);
    var steps := [Feed(chunk)];
    assert steps[0].Feed?;
    id := h.AttachDuring(steps);
  }

  /** What the snapshot shows, followed by what was sent after it, is the whole output. */
  predicate Covered(c: Client, output: seq<Chunk>) {
    if c.shown <= |output| then
      c.shown - c.from <= |c.received| && c.shown >= c.from
          && output[..c.shown] + c.received[c.shown - c.from..] == output
    else c.received == []
  }

  lemma NothingMissing(c: Client, fed: seq<Chunk>, sent: nat)
    requires NoGap(c) && Stretch(c, fed, sent)
    ensures Covered(c, fed[..sent])
  {
    if c.shown <= sent {
      assert c.received[c.shown - c.from..] == fed[c.shown..sent];
    }
  }
}
