/** The journal reader, over a file that a writer may be changing between any two of its reads. */
module JournalReader {
  import opened Wrappers
  import opened JournalImage
  import opened JournalQuiet
  import Decimal

  // ----- cursors -----

  const UINT64_LIMIT: nat := 0x1_0000_0000_0000_0000

  function FormatCursor(seqnum: nat, boot: string): string { "s=" + Decimal.Print(seqnum) + ";b=" + boot }

  /** The text before the first ';' and the text after it. */
  function CutSemicolon(s: string): (r: (string, Option<string>))
    ensures ';' !in r.0 && s == r.0 + (if r.1.Some? then ";" + r.1.value else "")
  {
    if s == "" then ("", None)
    else if s[0] == ';' then
      assert s == ";" + s[1..];
      ("", Some(s[1..]))
    else
      var rest := CutSemicolon(s[1..]);
      assert s == [s[0]] + s[1..];
      ([s[0]] + rest.0, rest.1)
  }

  /** The number in the first part that starts with "s="; None for a part that is not a 64-bit number,
      or when there is no such part. */
  function ParseCursor(cursor: string): Option<nat>
    decreases |cursor|
  {
    var (part, rest) := CutSemicolon(cursor);
    if "s=" <= part then
      match Decimal.Parse(part[2..])
      case Some(n) => if n < UINT64_LIMIT then Some(n) else None
      case None => None
    else if rest.Some? then ParseCursor(rest.value)
    else None
  }

  lemma {:induction false} CutAt(a: string, b: string)
    requires ';' !in a
    ensures CutSemicolon(a + ";" + b) == (a, Some(b))
  {
    var s := a + ";" + b;
    if a == "" {
      assert s[0] == ';' && s[1..] == b;
    } else {
      assert s[1..] == a[1..] + ";" + b && s[0] == a[0];
      CutAt(a[1..], b);
      assert [a[0]] + a[1..] == a;
    }
  }

  /** A cursor leads back to the entry it was taken from. */
  lemma CursorRoundTrip(seqnum: nat, boot: string)
    requires seqnum < UINT64_LIMIT
    ensures ParseCursor(FormatCursor(seqnum, boot)) == Some(seqnum)
  {
    var part := "s=" + Decimal.Print(seqnum);
    forall i | 0 <= i < |part| ensures part[i] != ';' {
      if i >= 2 { assert Decimal.IsDigit(part[i]); }
    }
    assert FormatCursor(seqnum, boot) == part + ";" + ("b=" + boot);
    CutAt(part, "b=" + boot);
    assert part[2..] == Decimal.Print(seqnum);
    Decimal.ParsePrint(seqnum);
  }

  // ----- filters -----

  datatype Match = Match(field: string, value: string)

  function FieldValue(e: Entry, field: string): string { if field in e.fields then e.fields[field] else "" }

  predicate Matches(e: Entry, matches: seq<Match>) {
    forall k :: 0 <= k < |matches| ==> FieldValue(e, matches[k].field) == matches[k].value
  }

  datatype Outcome = Found(entry: Entry) | Eof | Failed

  // ----- what holds of any image from a later moment -----

  lemma StillThere(timeline: seq<Image>, logs: seq<seq<Record>>, t: nat, u: nat, i: nat)
    requires Timeline(timeline, logs) && t <= u < |timeline| && i < |logs[t]|
    ensures i < |logs[u]| && logs[u][i] == logs[t][i] && RecordOk(timeline[u], logs[t][i], i + 1)
            && Linked(timeline[u], logs[u], i)
  {
    assert logs[t] <= logs[u] && Readable(timeline[u], logs[u]);
    assert RecordOk(timeline[u], logs[u][i], i + 1);
  }

  lemma ItemThere(img: Image, r: Record, seqnum: nat, k: nat)
    requires RecordOk(img, r, seqnum) && k < |r.items|
    ensures HoldsPayload(img, r.items[k].data, r.payloads[k]) && '=' in r.payloads[k]
  {
  }

  /** Records once committed keep their place and content. */
  lemma SameViews(a: seq<Record>, b: seq<Record>)
    requires a <= b
    ensures forall i :: 0 <= i < |a| ==> View(a, i) == View(b, i)
  {
    forall i | 0 <= i < |a| ensures View(a, i) == View(b, i) { assert a[i] == b[i]; }
  }

  lemma AnnouncesMore(timeline: seq<Image>, logs: seq<seq<Record>>, t: nat, u: nat)
    requires Timeline(timeline, logs) && t <= u < |timeline|
    ensures timeline[t].header.tailSeqnum <= timeline[u].header.tailSeqnum
    ensures timeline[t].header.entryArray != 0 ==> timeline[u].header.entryArray == timeline[t].header.entryArray
  {
    assert Advances(timeline[t].header, timeline[u].header);
  }

  lemma LogsGrow(timeline: seq<Image>, logs: seq<seq<Record>>, t: nat, u: nat)
    requires Timeline(timeline, logs) && t <= u < |timeline|
    ensures |logs| == |timeline| && logs[t] <= logs[u]
  {
  }

  // ----- what a filtered scan returns -----

  function Filtered(entries: seq<Entry>, matches: seq<Match>): seq<Entry> {
    if entries == [] then []
    else (if Matches(entries[0], matches) then [entries[0]] else []) + Filtered(entries[1..], matches)
  }

  lemma {:induction false} FilteredAppend(a: seq<Entry>, b: seq<Entry>, matches: seq<Match>)
    ensures Filtered(a + b, matches) == Filtered(a, matches) + Filtered(b, matches)
  {
    if a == [] {
      assert a + b == b;
    } else {
      assert (a + b)[1..] == a[1..] + b;
      FilteredAppend(a[1..], b, matches);
    }
  }

  lemma {:induction false} FilteredNone(a: seq<Entry>, matches: seq<Match>)
    requires forall i :: 0 <= i < |a| ==> !Matches(a[i], matches)
    ensures Filtered(a, matches) == []
  {
    if a != [] { FilteredNone(a[1..], matches); }
  }

  lemma FilteredOne(e: Entry, matches: seq<Match>)
    requires Matches(e, matches)
    ensures Filtered([e], matches) == [e]
  {
    assert [e][1..] == [];
  }

  /** A scan from `from` to `to` that found its one match at the end. */
  lemma FilteredStep(log: seq<Record>, start: nat, from: nat, to: nat, matches: seq<Match>)
    requires start <= from < to <= |log| && Matches(View(log, to - 1), matches)
    requires forall i :: from <= i < to - 1 ==> !Matches(View(log, i), matches)
    ensures Filtered(Views(log)[start..to], matches) == Filtered(Views(log)[start..from], matches) + [View(log, to - 1)]
  {
    hide Matches, View;
    FilteredRest(log, start, from, to - 1, matches);
    var v := Views(log);
    assert v[start..to] == v[start..to - 1] + [v[to - 1]];
    FilteredAppend(v[start..to - 1], [v[to - 1]], matches);
    FilteredOne(v[to - 1], matches);
  }

  lemma FilteredRest(log: seq<Record>, start: nat, from: nat, to: nat, matches: seq<Match>)
    requires start <= from <= to <= |log|
    requires forall i :: from <= i < to ==> !Matches(View(log, i), matches)
    ensures Filtered(Views(log)[start..to], matches) == Filtered(Views(log)[start..from], matches)
  {
    var v := Views(log);
    assert v[start..to] == v[start..from] + v[from..to];
    FilteredNone(v[from..to], matches);
    FilteredAppend(v[start..from], v[from..to], matches);
  }

  /** The array has an entry at this index. */
  predicate Filled(entries: seq<nat>, index: nat) { index < |entries| && entries[index] != 0 }

  class Reader {
    // The content of the file after each write, in order, and the last one looked at.
    const timeline: seq<Image>
    var now: nat

    var header: Header
    var currentSeqnum: nat
    var entryArrayOffset: nat
    var entryArrayEntries: seq<nat>
    var entryArrayIndex: nat
    var nextEntryArrayOffset: nat
    var iterationInitialized: bool
    var decodedEntries: nat
    var matches: seq<Match>

    ghost const logs: seq<seq<Record>>
    ghost var seen: nat    // when the header was read
    ghost var slot: nat    // index in the log of the current array

    /** The log at the last moment the reader looked at the file. */
    ghost function Log(): seq<Record>
      requires now < |logs|
      reads this
    {
      logs[now]
    }

    /** How many entries of the log the iteration has passed. */
    ghost function Pos(): nat
      reads this
    {
      if entryArrayOffset == 0 then 0 else slot + entryArrayIndex
    }

    /** The first `Next` saw a journal without entries; only a seek leads out of this. */
    predicate Stuck()
      reads this
    {
      iterationInitialized && entryArrayOffset == 0
    }

    ghost predicate Valid()
      reads this
    {
      && Timeline(timeline, logs) && |logs| == |timeline| && seen <= now < |timeline| && header == timeline[seen].header
      && (!iterationInitialized ==> entryArrayOffset == 0)
      && (entryArrayOffset != 0 ==>
            && slot < |logs[now]| && entryArrayOffset == logs[now][slot].arr
                && entryArrayEntries == [logs[now][slot].entry]
            && entryArrayIndex <= 1
            && (nextEntryArrayOffset == 0
                || (slot + 1 < |logs[now]| && nextEntryArrayOffset == logs[now][slot + 1].arr)))
    }

    /** The iteration has not run ahead of the sequence number to be returned next. */
    ghost predicate Behind()
      reads this
    {
      Pos() <= currentSeqnum
    }

    /** Time may pass before the next read: the writer may have made any number of writes. */
    method Tick()
      requires Valid()
      modifies this`now
      ensures Valid() && old(now) <= now && old(Log()) <= Log()
    {
      hide Timeline, Readable;
      var t :| now <= t < |timeline|;
      LogsGrow(timeline, logs, now, t);
      now := t;
    }

    /** Reads an entry array: its header with the link, then its slots. */
    method ReadEntryArray(offset: nat, ghost i: nat) returns (r: Option<(seq<nat>, nat)>)
      requires Valid() && i < |Log()| && offset == Log()[i].arr
      modifies this`now
      ensures Valid() && old(now) <= now && old(Log()) <= Log()
      ensures r.Some? && r.value.0 == [Log()[i].entry]
      ensures r.value.1 == 0 || (i + 1 < |Log()| && r.value.1 == Log()[i + 1].arr)
      ensures i + 1 < |old(Log())| ==> r.value.1 == Log()[i + 1].arr && r.value.1 != 0
    {
      hide RecordOk, Timeline, Readable;
      Tick();
      AtThisMoment(i);
      if offset !in timeline[now].objects || timeline[now].objects[offset].kind != ArrayKind
          || offset !in timeline[now].next {
        return None;
      }
      var size, next := timeline[now].objects[offset].size, timeline[now].next[offset];
      Tick();
      AtThisMoment(i);
      var numItems := (size - ARRAY_HEADER) / 8;
      if offset !in timeline[now].slots || |timeline[now].slots[offset]| < numItems {
        return None;
      }
      return Some((timeline[now].slots[offset][..numItems], next));
    }

    /** What a committed record looks like at this moment. */
    lemma AtThisMoment(i: nat)
      requires Valid() && i < |Log()|
      ensures RecordOk(timeline[now], Log()[i], i + 1)
      ensures
        var r, img := Log()[i], timeline[now];
        && r.arr in img.objects && img.objects[r.arr] == Object(ArrayKind, ARRAY_HEADER + 8) && r.arr != 0
            && r.entry != 0
        && r.arr in img.slots && img.slots[r.arr] == [r.entry]
        && r.arr in img.next && img.next[r.arr] == (if i + 1 < |Log()| then Log()[i + 1].arr else 0)
        && (i + 1 < |Log()| ==> Log()[i + 1].arr != 0)
    {
      StillThere(timeline, logs, now, now, i);
      if i + 1 < |Log()| { StillThere(timeline, logs, now, now, i + 1); }
    }

    /** Reads a data object: header, then payload, split at the first '='. */
    method ReadDataObject(offset: nat, ghost i: nat, ghost k: nat) returns (r: Option<(string, string)>)
      requires Valid() && i < |Log()| && k < |Log()[i].items| == |Log()[i].payloads| && offset == Log()[i].items[k].data
      modifies this`now
      ensures Valid() && old(now) <= now && old(Log()) <= Log()
      ensures k < |Log()[i].payloads| && r == Cut(Log()[i].payloads[k]) && r.Some?
    {
      hide RecordOk, Timeline, Readable;
      Tick();
      AtThisMoment(i);
      ItemThere(timeline[now], Log()[i], i + 1, k);
      if offset !in timeline[now].objects || timeline[now].objects[offset].kind != DataKind {
        return None;
      }
      var size := timeline[now].objects[offset].size;
      Tick();
      AtThisMoment(i);
      ItemThere(timeline[now], Log()[i], i + 1, k);
      if offset !in timeline[now].payloads || |timeline[now].payloads[offset]| < size - DATA_HEADER {
        return None;
      }
      var payload := timeline[now].payloads[offset][..size - DATA_HEADER];
      assert payload == Log()[i].payloads[k];
      return Cut(payload);
    }

    /** Reads an entry: header, items, then the data object of each item. */
    method ReadEntry(offset: nat, ghost i: nat) returns (r: Option<Entry>)
      requires Valid() && i < |Log()| && offset == Log()[i].entry
      modifies this`now
      ensures Valid() && old(now) <= now && old(Log()) <= Log()
      ensures r == Some(View(Log(), i)) && r.value.seqnum == i + 1
    {
      hide Timeline, Readable, Cut;
      Tick();
      AtThisMoment(i);
      if offset !in timeline[now].objects || timeline[now].objects[offset].kind != EntryKind
          || offset !in timeline[now].entries {
        return None;
      }
      var size, word := timeline[now].objects[offset].size, timeline[now].entries[offset];
      Tick();
      AtThisMoment(i);
      var numItems := (size - ENTRY_HEADER) / ENTRY_ITEM;
      if offset !in timeline[now].items || |timeline[now].items[offset]| < numItems {
        return None;
      }
      var items := timeline[now].items[offset][..numItems];
      assert items == Log()[i].items;
      var fields := ReadFields(items, i);
      if fields.None? {
        return None;
      }
      return Some(Entry(word.seqnum, word.stamp, fields.value));
    }

    /** Reads the data object of each item; a later one overwrites an earlier one with the same key. */
    method ReadFields(items: seq<Item>, ghost i: nat) returns (r: Option<map<string, string>>)
      requires Valid() && i < |Log()| && items == Log()[i].items && |Log()[i].payloads| == |items|
      modifies this`now
      ensures Valid() && old(now) <= now && old(Log()) <= Log()
      ensures r == Some(FieldsOf(Log()[i].payloads))
    {
      hide Timeline, Readable, Cut, RecordOk;
      ghost var payloads := Log()[i].payloads;
      var fields: map<string, string> := map[];
      for k := 0 to |items|
        invariant Valid() && old(now) <= now && old(Log()) <= Log()
        invariant Log()[i].items == items && Log()[i].payloads == payloads && |payloads| == |items|
        invariant fields == FieldsOf(payloads[..k])
      {
        var data := ReadDataObject(items[k].data, i, k);
        if data.None? {
          return None;
        }
        fields := fields[data.value.0 := data.value.1];
        assert payloads[..k + 1][..k] == payloads[..k];
      }
      assert payloads[..|items|] == payloads;
      r := Some(fields);
    }

    // ----- iteration -----

    method LoadEntryArray(offset: nat, ghost i: nat) returns (ok: bool)
      requires Valid() && iterationInitialized && i < |Log()| && offset == Log()[i].arr
      modifies this`now, this`entryArrayOffset, this`entryArrayEntries, this`entryArrayIndex, this`nextEntryArrayOffset,
               this`slot
      ensures ok && Valid() && old(now) <= now && old(Log()) <= Log()
      ensures entryArrayOffset == offset != 0 && slot == i && entryArrayIndex == 0
      ensures i + 1 < |old(Log())| ==> nextEntryArrayOffset != 0
    {
      hide Timeline;
      AtThisMoment(i);
      var r := ReadEntryArray(offset, i);
      if r.None? {
        return false;
      }
      entryArrayOffset := offset;
      entryArrayEntries := r.value.0;
      entryArrayIndex := 0;
      nextEntryArrayOffset := r.value.1;
      slot := i;
      return true;
    }

    /** The header was read from an image whose log is a prefix of the present one. */
    lemma HeaderSeen()
      requires Valid()
      ensures header.tailSeqnum <= |logs[seen]| <= |Log()|
      ensures header.entryArray != 0 ==> Log() != [] && header.entryArray == Log()[0].arr
    {
      assert logs[seen] <= logs[now] && Readable(timeline[seen], logs[seen]);
    }

    lemma LogBound()
      requires Valid()
      ensures |Log()| <= |logs[|logs| - 1]|
    {
      assert logs[now] <= logs[|logs| - 1];
    }

    /** The outcome `r` of looking for the entry after sequence number `before`. */
    ghost predicate Successor(r: Outcome, before: nat)
      requires now < |logs|
      reads this
    {
      match r
      case Found(e) => before < |Log()| && e == View(Log(), before) && currentSeqnum == before + 1
      case Eof => currentSeqnum == before && (Stuck() || header.tailSeqnum <= currentSeqnum)
      case Failed => false
    }

    /** The first entry in the rest of the current array that is past `currentSeqnum`, or Eof. */
    method ScanArray() returns (r: Outcome)
      requires Valid() && Behind() && entryArrayOffset != 0
      modifies this`now, this`entryArrayIndex, this`decodedEntries, this`currentSeqnum
      ensures Valid() && Behind() && old(now) <= now && old(Log()) <= Log()
      ensures r.Eof? ==> currentSeqnum == old(currentSeqnum) && entryArrayIndex == 1
      ensures r.Found? ==>
                old(currentSeqnum) < |Log()| && r.entry == View(Log(), old(currentSeqnum))
                && currentSeqnum == old(currentSeqnum) + 1
      ensures !r.Failed? && (r.Found? ==> Pos() == currentSeqnum)
      ensures old(Pos()) <= Pos() && decodedEntries == old(decodedEntries) + (Pos() - old(Pos()))
    {
      hide Timeline, Readable, RecordOk, View;
      while entryArrayIndex < |entryArrayEntries|
        invariant Valid() && Behind() && old(now) <= now && old(Log()) <= Log() && currentSeqnum == old(currentSeqnum)
        invariant old(Pos()) <= Pos() && decodedEntries == old(decodedEntries) + (Pos() - old(Pos()))
      {
        var entryOffset := entryArrayEntries[entryArrayIndex];
        AtThisMoment(slot);
        if entryOffset == 0 {
          break;
        }
        entryArrayIndex := entryArrayIndex + 1;
        var entry := ReadEntry(entryOffset, slot);
        if entry.None? {
          return Failed;
        }
        decodedEntries := decodedEntries + 1;
        if entry.value.seqnum <= currentSeqnum {
          continue;
        }
        currentSeqnum := entry.value.seqnum;
        return Found(entry.value);
      }
      return Eof;
    }

    /** Loads the current array again, keeping the place in it. */
    method ReloadTail() returns (ok: bool)
      requires Valid() && entryArrayOffset != 0
      modifies this`now, this`entryArrayOffset, this`entryArrayEntries, this`entryArrayIndex, this`nextEntryArrayOffset,
               this`slot
      ensures ok && Valid() && old(now) <= now && old(Log()) <= Log()
      ensures entryArrayOffset == old(entryArrayOffset) && slot == old(slot) && entryArrayIndex == old(entryArrayIndex)
      ensures slot + 1 < |old(Log())| ==> nextEntryArrayOffset != 0
    {
      hide Timeline;
      HasSlot();
      var index, offset := entryArrayIndex, entryArrayOffset;
      ok := LoadEntryArray(offset, slot);
      entryArrayIndex := index;
    }

    /** At the end of the current array: whether the header promises more and the array has since been linked. */
    method TailMoved() returns (moved: bool)
      requires Valid() && Behind() && entryArrayOffset != 0 && entryArrayIndex == 1
      modifies this`now, this`entryArrayOffset, this`entryArrayEntries, this`entryArrayIndex, this`nextEntryArrayOffset,
               this`slot
      ensures Valid() && Behind() && old(now) <= now && old(Log()) <= Log()
      ensures entryArrayOffset == old(entryArrayOffset) && slot == old(slot) && entryArrayIndex == 1
      ensures moved ==> nextEntryArrayOffset != 0
      ensures !moved ==> header.tailSeqnum <= currentSeqnum
    {
      hide Timeline;
      moved := false;
      if currentSeqnum < header.tailSeqnum {
        HeaderSeen();
        var ok := ReloadTail();
        moved := Filled(entryArrayEntries, entryArrayIndex) || nextEntryArrayOffset != 0;
      }
    }

    lemma HasSlot()
      requires Valid() && entryArrayOffset != 0
      ensures iterationInitialized && slot < |Log()| && entryArrayOffset == Log()[slot].arr
    {
    }

    /** Loads the first array the header announces, if there is one. */
    method StartIteration()
      requires Valid() && Behind() && !iterationInitialized
      modifies this
      ensures Valid() && Behind() && old(now) <= now && old(Log()) <= Log() && iterationInitialized
      ensures header == old(header) && seen == old(seen) && matches == old(matches)
      ensures currentSeqnum == old(currentSeqnum) && decodedEntries == old(decodedEntries) && Pos() == old(Pos()) == 0
      ensures entryArrayOffset == header.entryArray
    {
      hide Timeline;
      iterationInitialized := true;
      if header.entryArray != 0 {
        HeaderSeen();
        var ok := LoadEntryArray(header.entryArray, 0);
      }
    }

    /** At the end of the current array: goes on to the next one, or finds that there is one now, if the header
        promises more. */
    method MoveOn() returns (more: bool)
      requires Valid() && Behind() && entryArrayOffset != 0 && entryArrayIndex == 1
      modifies this`now, this`entryArrayOffset, this`entryArrayEntries, this`entryArrayIndex,
               this`nextEntryArrayOffset, this`slot
      ensures Valid() && Behind() && old(now) <= now && old(Log()) <= Log()
      ensures entryArrayOffset != 0 && Pos() == old(Pos())
      ensures more ==>
                || slot == old(slot) + 1
                || (slot == old(slot) && old(nextEntryArrayOffset) == 0 && nextEntryArrayOffset != 0)
      ensures !more ==> header.tailSeqnum <= currentSeqnum
    {
      hide Timeline, Readable, RecordOk, View;
      if nextEntryArrayOffset != 0 {
        var ok := LoadEntryArray(nextEntryArrayOffset, slot + 1);
        return ok;
      }
      more := TailMoved();
    }

    /** The next entry, whatever its fields. */
    method NextEntry() returns (r: Outcome)
      requires Valid() && Behind()
      modifies this
      ensures Valid() && Behind() && old(now) <= now && old(Log()) <= Log()
      ensures header == old(header) && seen == old(seen) && matches == old(matches)
      ensures Successor(r, old(currentSeqnum)) && (r.Found? ==> Pos() == currentSeqnum)
      ensures iterationInitialized
              && (Stuck() <==> old(Stuck()) || (!old(iterationInitialized) && header.entryArray == 0))
      ensures Stuck() ==> r.Eof?
      ensures old(Pos()) <= Pos() && decodedEntries == old(decodedEntries) + (Pos() - old(Pos()))
    {
      hide Timeline, Readable, RecordOk, View;
      if !iterationInitialized {
        StartIteration();
      }
      while entryArrayOffset != 0
        invariant Valid() && Behind() && iterationInitialized && old(now) <= now && old(Log()) <= Log()
        invariant header == old(header) && seen == old(seen) && matches == old(matches)
                  && currentSeqnum == old(currentSeqnum)
        invariant Stuck() <==> old(Stuck()) || (!old(iterationInitialized) && header.entryArray == 0)
        invariant old(Pos()) <= Pos() && decodedEntries == old(decodedEntries) + (Pos() - old(Pos()))
        decreases |logs[|logs| - 1]| - slot, if nextEntryArrayOffset == 0 then 1 else 0
      {
        r := ScanArray();
        if !r.Eof? {
          return;
        }
        LogBound();
        var more := MoveOn();
        LogBound();
        if more {
          continue;
        }
        return Eof;
      }
      return Eof;
    }

    /** The next entry that matches every filter: none in between is skipped, and at the end of file
        every announced entry has been looked at, each decoded once. */
    method Next() returns (r: Outcome)
      requires Valid() && Behind()
      modifies this
      ensures Valid() && Behind() && old(now) <= now && old(Log()) <= Log()
      ensures header == old(header) && seen == old(seen) && matches == old(matches)
      ensures r.Found? ==>
                old(currentSeqnum) < currentSeqnum <= |Log()| && r.entry == View(Log(), currentSeqnum - 1)
                    && Matches(r.entry, matches)
                && forall i :: old(currentSeqnum) <= i < currentSeqnum - 1 ==> !Matches(View(Log(), i), matches)
      ensures r.Eof? ==>
                old(currentSeqnum) <= currentSeqnum && (Stuck() || header.tailSeqnum <= currentSeqnum)
                && (currentSeqnum == old(currentSeqnum) || currentSeqnum <= |Log()|)
                && forall i :: old(currentSeqnum) <= i < currentSeqnum ==>
                      i < |Log()| && !Matches(View(Log(), i), matches)
      ensures r.Found? || old(Pos() == currentSeqnum) ==> Pos() == currentSeqnum
      ensures !r.Failed? && iterationInitialized
              && (Stuck() <==> old(Stuck()) || (!old(iterationInitialized) && header.entryArray == 0))
      ensures old(Pos()) <= Pos() && decodedEntries == old(decodedEntries) + (Pos() - old(Pos()))
    {
      hide Timeline, Matches;
      while true
        invariant Valid() && Behind() && old(now) <= now && old(Log()) <= Log()
        invariant header == old(header) && seen == old(seen) && matches == old(matches)
        invariant (iterationInitialized == old(iterationInitialized) && Stuck() == old(Stuck()))
                  || (iterationInitialized
                      && (Stuck() <==> old(Stuck()) || (!old(iterationInitialized) && header.entryArray == 0)))
        invariant old(Pos() == currentSeqnum) ==> Pos() == currentSeqnum
        invariant old(currentSeqnum) <= currentSeqnum
                  && (currentSeqnum == old(currentSeqnum) || currentSeqnum <= |Log()|)
        invariant forall i :: old(currentSeqnum) <= i < currentSeqnum ==>
                    i < |Log()| && !Matches(View(Log(), i), matches)
        invariant old(Pos()) <= Pos() && decodedEntries == old(decodedEntries) + (Pos() - old(Pos()))
        decreases |logs[|logs| - 1]| - currentSeqnum
      {
        ghost var log := Log();
        r := NextEntry();
        LogBound();
        SameViews(log, Log());
        if !r.Found? || Matches(r.entry, matches) {
          return;
        }
      }
    }

    // ----- positioning -----

    method ResetIteration()
      requires Valid()
      modifies this`entryArrayOffset, this`entryArrayEntries, this`entryArrayIndex, this`nextEntryArrayOffset,
               this`iterationInitialized
      ensures Valid() && Behind() && Pos() == 0 && !Stuck() && !iterationInitialized
    {
      entryArrayOffset := 0;
      entryArrayEntries := [];
      entryArrayIndex := 0;
      nextEntryArrayOffset := 0;
      iterationInitialized := false;
    }

    method SeekHead()
      requires Valid()
      modifies this`currentSeqnum, this`entryArrayOffset, this`entryArrayEntries, this`entryArrayIndex,
               this`nextEntryArrayOffset, this`iterationInitialized
      ensures Valid() && Behind() && !iterationInitialized && currentSeqnum == 0
    {
      currentSeqnum := 0;
      ResetIteration();
    }

    /** Continues after the entry the cursor was taken from; a cursor that does not parse changes nothing. */
    method SeekCursor(cursor: string) returns (ok: bool)
      requires Valid() && Behind()
      modifies this`currentSeqnum, this`entryArrayOffset, this`entryArrayEntries, this`entryArrayIndex,
               this`nextEntryArrayOffset, this`iterationInitialized
      ensures Valid() && Behind() && ok == ParseCursor(cursor).Some?
      ensures ok ==> ParseCursor(cursor) == Some(currentSeqnum) && !iterationInitialized
      ensures !ok ==> currentSeqnum == old(currentSeqnum) && Pos() == old(Pos())
      ensures !ok ==> iterationInitialized == old(iterationInitialized)
    {
      match ParseCursor(cursor)
      case None => ok := false;
      case Some(seqnum) =>
        currentSeqnum := seqnum;
        ResetIteration();
        ok := true;
    }

    /** Reads the header again. */
    method Refresh()
      requires Valid()
      modifies this`now, this`header, this`seen
      ensures Valid() && old(now) <= now && old(Log()) <= Log() && seen == now && Pos() == old(Pos())
      ensures old(header).tailSeqnum <= header.tailSeqnum
      ensures old(header).entryArray != 0 ==> header.entryArray == old(header).entryArray
    {
      hide Timeline, Readable;
      Tick();
      AnnouncesMore(timeline, logs, seen, now);
      header := timeline[now].header;
      seen := now;
    }

    method AddMatch(field: string, value: string)
      requires Valid()
      modifies this`matches
      ensures Valid() && matches == old(matches) + [Match(field, value)]
    {
      matches := matches + [Match(field, value)];
    }

    /** Opens the file some time after write number `start`. */
    constructor OpenRead(timeline: seq<Image>, ghost logs: seq<seq<Record>>, start: nat)
      requires Timeline(timeline, logs) && start < |timeline|
      ensures this.timeline == timeline && this.logs == logs
      ensures Valid() && Behind() && start <= now && seen == now && !iterationInitialized
      ensures currentSeqnum == 0 && matches == [] && decodedEntries == 0
    {
      this.timeline, this.logs := timeline, logs;
      var t :| start <= t < |timeline|;
      now, seen, header := t, t, timeline[t].header;
      currentSeqnum, entryArrayOffset, entryArrayEntries, entryArrayIndex := 0, 0, [], 0;
      nextEntryArrayOffset, iterationInitialized, decodedEntries, matches := 0, false, 0, [];
      slot := 0;
    }

    /** Reads on to the end of file. */
    method Drain() returns (entries: seq<Entry>)
      requires Valid() && Behind() && currentSeqnum <= |Log()|
      modifies this
      ensures Valid() && Behind() && old(Log()) <= Log() && header == old(header) && matches == old(matches)
      ensures old(currentSeqnum) <= currentSeqnum <= |Log()| && (Stuck() || header.tailSeqnum <= currentSeqnum)
      ensures Stuck() ==> old(Stuck()) || header.entryArray == 0
      ensures entries == Filtered(Views(Log())[old(currentSeqnum)..currentSeqnum], matches)
      ensures decodedEntries == old(decodedEntries) + (Pos() - old(Pos()))
    {
      hide Timeline, Matches, View;
      entries := [];
      assert Views(Log())[currentSeqnum..currentSeqnum] == [];
      while true
        invariant Valid() && Behind() && old(Log()) <= Log() && header == old(header) && matches == old(matches)
        invariant old(currentSeqnum) <= currentSeqnum <= |Log()| && (Stuck() ==> old(Stuck()) || header.entryArray == 0)
        invariant entries == Filtered(Views(Log())[old(currentSeqnum)..currentSeqnum], matches)
        invariant decodedEntries == old(decodedEntries) + (Pos() - old(Pos()))
        decreases |logs[|logs| - 1]| - currentSeqnum
      {
        ghost var log, from := Log(), currentSeqnum;
        var r := Next();
        LogBound();
        SameViews(log, Log());
        assert Views(log)[old(currentSeqnum)..from] == Views(Log())[old(currentSeqnum)..from];
        if !r.Found? {
          FilteredRest(Log(), old(currentSeqnum), from, currentSeqnum, matches);
          return;
        }
        FilteredStep(Log(), old(currentSeqnum), from, currentSeqnum, matches);
        entries := entries + [r.entry];
      }
    }
  }
}
