/** The journal writer: `AppendEntry` and everything it calls, as a class whose every file write is
    recorded, so that what holds between two writes can be stated. */
module JournalWriter {
  import opened Wrappers
  import opened JournalImage
  import opened JournalShape
  import opened JournalWrites
  import opened JournalExtend
  import opened JournalIndex
  import opened JournalChains
  import opened JournalSteps
  import opened JournalQuiet
  import opened JournalLinks
  import opened JournalCommit
  import opened JournalAppend
  import opened JournalDedup

  class JournalFile {
    const hash: string -> nat
    var img: Image
    var header: Header
    var dataTable: seq<HashItem>
    var fieldTable: seq<HashItem>
    var dataCache: map<nat, nat>
    var fieldCache: map<nat, nat>
    var dirty: bool
    var bootId: nat

    ghost const prior: map<nat, Object>   // the objects of the file when it was opened
    ghost var shape: Shape
    ghost var recs: seq<Record>
    ghost var history: seq<Image>
    ghost var logs: seq<seq<Record>>

    function Mem(): Memory
      reads this
    {
      Memory(header, dataTable, fieldTable, dataCache, fieldCache)
    }

    ghost predicate Open(pending: nat)
      reads this
    {
      Recorded() && Quiet(hash, img, shape, recs, Mem(), pending)
    }

    ghost predicate Recorded()
      reads this
    {
      && Timeline(history, logs)
      && history[|history| - 1] == img && logs[|logs| - 1] == recs
    }

    /** The payloads and names written since the file was opened, each once. */
    ghost function SessionTexts(): set<string>
      reads this
    {
      WrittenTexts(img, prior, DataKind)
    }

    ghost function SessionNames(): set<string>
      reads this
    {
      WrittenTexts(img, prior, FieldKind)
    }

    /** What was written since the file was opened is there once, and the table of fields has all of them. */
    ghost predicate InSession()
      reads this
    {
      Deduped(hash, img, prior, dataCache, fieldCache) && FieldTableOk(hash, img, fieldTable)
    }

    /** One write to the file. */
    method Write(next: Image, ghost recs': seq<Record>)
      requires Recorded()
      requires Readable(next, recs') && recs <= recs' && Advances(img.header, next.header)
      modifies this`img, this`recs, this`history, this`logs
      ensures img == next && recs == recs'
      ensures history == old(history) + [next] && logs == old(logs) + [recs']
      ensures Recorded()
    {
      hide Readable, Timeline, Advances;
      TimelineGrows(history, logs, next, recs');
      img := next;
      recs := recs';
      history := history + [next];
      logs := logs + [recs'];
    }

    /** Pads the end of the file to an 8-byte boundary. */
    method PadEnd()
      requires Recorded()
      modifies this`img, this`recs, this`history, this`logs
      ensures Recorded() && img == Pad(old(img)) && recs == old(recs)
      ensures Since(old(history), history, old(logs), logs, recs)
    {
      hide Readable, Timeline;
      LastReadable(history, logs);
      if Align8(img.end) != img.end {
        PadKeeps(img, recs);
        Write(Pad(img), recs);
      }
    }

    // The four objects an append writes: padding, header, body.

    method PutFieldObject(name: string, h: nat) returns (o: nat)
      requires Recorded() && Fresh(img, Align8(img.end))
      modifies this`img, this`recs, this`history, this`logs
      ensures Recorded() && recs == old(recs) && o == Align8(old(img).end)
      ensures img == AddField(old(img), name, h)
      ensures Since(old(history), history, old(logs), logs, recs)
    {
      hide Readable, Timeline;
      PadEnd();
      o := img.end;
      LastReadable(history, logs);
      HeaderKeeps(img, PutFieldHeader(img, FIELD_HEADER + |name|, h), recs, o);
      Write(PutFieldHeader(img, FIELD_HEADER + |name|, h), recs);
      BodyKeeps(img, PutPayload(img, o, name), recs, o);
      Write(PutPayload(img, o, name), recs);
    }

    method PutDataObject(payload: string, h: nat, nextField: nat) returns (o: nat)
      requires Recorded() && Fresh(img, Align8(img.end))
      modifies this`img, this`recs, this`history, this`logs
      ensures Recorded() && recs == old(recs) && o == Align8(old(img).end)
      ensures img == AddData(old(img), payload, h, nextField)
      ensures Since(old(history), history, old(logs), logs, recs)
    {
      hide Readable, Timeline;
      PadEnd();
      o := img.end;
      LastReadable(history, logs);
      HeaderKeeps(img, PutDataHeader(img, DATA_HEADER + |payload|, h, nextField), recs, o);
      Write(PutDataHeader(img, DATA_HEADER + |payload|, h, nextField), recs);
      BodyKeeps(img, PutPayload(img, o, payload), recs, o);
      Write(PutPayload(img, o, payload), recs);
    }

    method PutEntryObject(word: EntryWord, items: seq<Item>) returns (o: nat)
      requires Recorded() && Fresh(img, Align8(img.end))
      modifies this`img, this`recs, this`history, this`logs
      ensures Recorded() && recs == old(recs) && o == Align8(old(img).end)
      ensures img == AddEntry(old(img), word, items)
      ensures Since(old(history), history, old(logs), logs, recs)
    {
      hide Readable, Timeline;
      PadEnd();
      o := img.end;
      LastReadable(history, logs);
      HeaderKeeps(img, PutEntryHeader(img, ENTRY_HEADER + ENTRY_ITEM * |items|, word), recs, o);
      Write(PutEntryHeader(img, ENTRY_HEADER + ENTRY_ITEM * |items|, word), recs);
      BodyKeeps(img, PutItems(img, o, items), recs, o);
      Write(PutItems(img, o, items), recs);
    }

    method PutArrayObject(slots: seq<nat>) returns (o: nat)
      requires Recorded() && Fresh(img, Align8(img.end))
      modifies this`img, this`recs, this`history, this`logs
      ensures Recorded() && recs == old(recs) && o == Align8(old(img).end)
      ensures img == AddArray(old(img), slots)
      ensures Since(old(history), history, old(logs), logs, recs)
    {
      hide Readable, Timeline;
      PadEnd();
      o := img.end;
      LastReadable(history, logs);
      HeaderKeeps(img, PutArrayHeader(img, ARRAY_HEADER + 8 * |slots|), recs, o);
      Write(PutArrayHeader(img, ARRAY_HEADER + 8 * |slots|), recs);
      BodyKeeps(img, PutSlots(img, o, slots), recs, o);
      Write(PutSlots(img, o, slots), recs);
    }

    /** Writes the field object of `name` and remembers it. */
    method RecordField(name: string, h: nat, ghost texts: set<string>, ghost names: set<string>) returns (f: nat)
      requires Open(0) && h == hash(name) && name in names && NoClash(hash, img, texts, names)
      modifies this`img, this`recs, this`history, this`logs, this`header, this`fieldCache, this`shape
      ensures Open(0) && NoClash(hash, img, texts, names)
      ensures recs == old(recs) && Since(old(history), history, old(logs), logs, recs)
      ensures f == Align8(old(img).end) && img == AddField(old(img), name, h) && Grows(old(img), img, 0)
      ensures img.header == old(img.header) && f in img.objects && img.objects[f].kind == FieldKind
      ensures f in img.payloads && img.payloads[f] == name
      ensures Mem() == FieldMemory(old(Mem()), f, h) && shape == FieldShape(old(shape), f)
    {
      hide Quiet, NoClash, Grows, Timeline, Fresh, Since, AddField, Align8;
      ghost var a, m := img, Mem();
      QuietFresh(hash, img, shape, recs, Mem(), 0);
      f := PutFieldObject(name, h);
      QuietField(hash, a, img, shape, recs, m, name, texts, names);
      shape := FieldShape(shape, f);
      fieldCache := fieldCache[h := f];
      header := header.(nObjects := header.nObjects + 1, nFields := header.nFields + 1, tailObject := f);
    }

    /** Adds the field object of `name`. */
    method NewField(name: string, h: nat, ghost texts: set<string>, ghost names: set<string>) returns (f: nat)
      requires Open(0) && h == hash(name) && name in names && NoClash(hash, img, texts, names) && InSession()
      requires h !in fieldCache
      modifies this`img, this`recs, this`history, this`logs, this`header, this`fieldTable, this`fieldCache, this`shape
      ensures Open(0) && NoClash(hash, img, texts, names)
      ensures recs == old(recs) && Since(old(history), history, old(logs), logs, recs)
      ensures SameLog(old(header), header) && img.header == old(img.header) && shape.refs == old(shape.refs)
      ensures f in img.objects && img.objects[f].kind == FieldKind && f in img.payloads && img.payloads[f] == name
      ensures Grows(old(img), img, 0) && f !in old(img).objects
      ensures InSession() && SessionNames() == old(SessionNames()) + {name} && SessionTexts() == old(SessionTexts())
      ensures f in Written(img, prior, FieldKind)
    {
      hide Quiet, NoClash, Grows, Timeline, Since, AddField, LinkTail, Align8, Deduped, Written, WrittenTexts,
          FieldTableOk;
      ghost var a, s, m := img, shape, Mem();
      f := RecordField(name, h, texts, names);
      ghost var h1, l1 := history, logs;
      LinkFieldHash(f, h, texts, names);
      SinceThen(old(history), h1, history, old(logs), l1, logs, recs);
      FieldAdded(hash, a, s, recs, m, img, prior, name);
    }

    /** Finds or adds the field object of `name`. */
    method EnsureField(name: string, h: nat, ghost texts: set<string>, ghost names: set<string>) returns (f: nat)
      requires Open(0) && h == hash(name) && name in names && NoClash(hash, img, texts, names) && InSession()
      modifies this`img, this`recs, this`history, this`logs, this`header, this`fieldTable, this`fieldCache, this`shape
      ensures Open(0) && NoClash(hash, img, texts, names)
      ensures recs == old(recs) && Since(old(history), history, old(logs), logs, recs)
      ensures SameLog(old(header), header) && img.header == old(img.header)
      ensures shape.refs == old(shape.refs)
      ensures f in img.objects && img.objects[f].kind == FieldKind && f in img.payloads && img.payloads[f] == name
      ensures Grows(old(img), img, 0)
      ensures InSession() && SessionNames() == old(SessionNames()) + {name} && SessionTexts() == old(SessionTexts())
      ensures f in Written(img, prior, FieldKind)
      ensures name in old(SessionNames()) ==> img == old(img) && header == old(header)
      ensures name !in old(SessionNames()) ==> f !in old(img).objects
    {
      hide Quiet, NoClash, Grows, Timeline, Fresh, Since, AddField, LinkTail, Align8, Deduped, Written, WrittenTexts,
          FieldTableOk;
      NameKnown(hash, img, prior, dataCache, fieldCache, name, texts, names);
      if h in fieldCache {
        CachedField(hash, img, shape, recs, Mem(), name, texts, names);
        SelfGrows(img);
        LastReadable(history, logs);
        SinceNow(history, logs, recs);
        f := fieldCache[h];
      } else {
        f := NewField(name, h, texts, names);
      }
    }

    /** Makes `o` the tail of its bucket in the field hash table; field buckets are not chained. */
    method LinkFieldHash(o: nat, h: nat, ghost texts: set<string>, ghost names: set<string>)
      requires Open(0) && NoClash(hash, img, texts, names)
      modifies this`img, this`recs, this`history, this`logs, this`fieldTable
      ensures Open(0) && NoClash(hash, img, texts, names)
      ensures recs == old(recs) && Since(old(history), history, old(logs), logs, recs)
      ensures |fieldTable| == |old(fieldTable)| == FIELD_BUCKETS
      ensures fieldTable == old(fieldTable)[h % FIELD_BUCKETS := LinkTail(old(fieldTable)[h % FIELD_BUCKETS], o)]
      ensures img == old(img).(fieldTable := fieldTable)
    {
      hide NoClash, Timeline, Structured, Readable, GlobalOwned, CachesOk, Counted;
      QuietFresh(hash, img, shape, recs, Mem(), 0);
      LastReadable(history, logs);
      var idx := h % FIELD_BUCKETS;
      var next := img.(fieldTable := fieldTable[idx := LinkTail(fieldTable[idx], o)]);
      QuietFieldTable(hash, img, next, shape, recs, Mem(), texts, names);
      fieldTable := fieldTable[idx := LinkTail(fieldTable[idx], o)];
      Write(next, recs);
    }

    /** Links `o` as the tail of its bucket: the old tail's link first, then the table. */
    method LinkDataHash(o: nat, h: nat)
      requires Recorded() && dataTable == img.dataTable && |dataTable| == DATA_BUCKETS
      modifies this`img, this`recs, this`history, this`logs, this`dataTable
      ensures Recorded() && recs == old(recs) && Since(old(history), history, old(logs), logs, recs)
      ensures |dataTable| == |old(dataTable)| == DATA_BUCKETS
      ensures dataTable == old(dataTable)[BucketOf(h) := LinkTail(old(dataTable)[BucketOf(h)], o)]
      ensures img == old(img).(nextHash := LinkOld(old(img).nextHash, old(dataTable)[BucketOf(h)].tail, o),
              dataTable := dataTable)
    {
      hide Timeline, Readable, BucketOf, LinkTail, LinkOld, Since;
      LastReadable(history, logs);
      var idx := BucketOf(h);
      var prevTail := dataTable[idx].tail;
      dataTable := dataTable[idx := LinkTail(dataTable[idx], o)];
      OldLinked(img.nextHash, prevTail, o);
      SinceNow(history, logs, recs);
      if prevTail != 0 {
        LinkWord(img.(nextHash := img.nextHash[prevTail := o]));
      }
      ghost var h1, l1 := history, logs;
      LinkWord(img.(dataTable := img.dataTable[idx := dataTable[idx]]));
      SinceThen(old(history), h1, history, old(logs), l1, logs, recs);
    }

    /** One write to a chain or a table. */
    method LinkWord(next: Image)
      requires Recorded()
      requires next == img.(nextHash := next.nextHash, dataTable := next.dataTable)
      modifies this`img, this`recs, this`history, this`logs
      ensures Recorded() && recs == old(recs) && Since(old(history), history, old(logs), logs, recs) && img == next
    {
      hide Timeline, Readable;
      LastReadable(history, logs);
      IndexKeeps(img, next, recs);
      Write(next, recs);
    }

    /** Adds a data object and links it into its field's list and its hash bucket. */
    method AppendData(data: string, h: nat, ghost texts: set<string>, ghost names: set<string>)
      returns (r: Option<nat>, ghost before: Image)
      requires Open(0) && h == hash(data) && data in texts && NoClash(hash, img, texts, names) && InSession()
      requires Cut(data).Some? ==> Cut(data).value.0 in names
      modifies this`img, this`recs, this`history, this`logs, this`header, this`dataTable, this`fieldTable,
               this`fieldCache, this`shape
      ensures Open(0) && NoClash(hash, img, texts, names)
      ensures recs == old(recs) && Since(old(history), history, old(logs), logs, recs)
      ensures SameLog(old(header), header) && img.header == old(img.header) && Grows(old(img), img, 0)
      ensures r.None? <==> '=' !in data
      ensures r.None? ==> img == old(img) && shape == old(shape) && header == old(header)
      ensures r.Some? ==>
                IsData(hash, img, r.value, data) && r.value !in old(img.objects)
                && shape.refs == old(shape.refs)[r.value := []]
      ensures r.Some? ==>
                && Cut(data).Some? && Deduped(hash, before, prior, dataCache, fieldCache)
                && FieldTableOk(hash, before, fieldTable)
                && Adds(before, img, r.value, DataKind, data)
                && WrittenTexts(before, prior, DataKind) == old(SessionTexts())
                && WrittenTexts(before, prior, FieldKind) == old(SessionNames()) + {Cut(data).value.0}
    {
      hide Quiet, NoClash, Grows, Timeline, Fresh, Since, Structured, Readable, Extends, Deduped, Written, WrittenTexts,
          FieldTableOk;
      LastReadable(history, logs);
      before := img;
      match Cut(data)
      case None =>
        SelfGrows(img);
        SinceNow(history, logs, recs);
        r := None;
      case Some((name, _)) =>
        var f := EnsureField(name, hash(name), texts, names);
        before := img;
        ghost var h1, l1 := history, logs;
        var o := IndexNew(data, h, f, texts, names);
        SinceThen(old(history), h1, history, old(logs), l1, logs, recs);
        GrowsThen(old(img), before, img);
        GrownObject(old(img), before, o);
        r := Some(o);
    }

    /** The writes of a new data object: the object, the head of field `f`'s list, its bucket. */
    method WriteData(data: string, h: nat, f: nat) returns (o: nat, ghost b: Image)
      requires Recorded() && Fresh(img, Align8(img.end)) && Placed(img) && Closed(img)
      requires dataTable == img.dataTable && |dataTable| == DATA_BUCKETS
      requires f in img.headData && f != Align8(img.end)
      modifies this`img, this`recs, this`history, this`logs, this`dataTable
      ensures Recorded() && recs == old(recs) && Since(old(history), history, old(logs), logs, recs)
      ensures o == Align8(old(img).end) && dataTable == img.dataTable
      ensures b == AddData(old(img), data, h, old(img).headData[f])
      ensures Indexed(old(img), b, img, o, data, h, f) && b.fieldTable == old(img).fieldTable
              && b.header == old(img).header
    {
      hide Grows, Timeline, Fresh, Since, Readable, Extends, Indexed, AddData, LinkOld, LinkTail, Placed, Closed;
      ghost var a := img;
      var prevHead := img.headData[f];
      o := PutDataObject(data, h, prevHead);
      b := img;
      ghost var h1, l1 := history, logs;
      AddDataRest(a, data, h, prevHead);
      LinkField(f, o);
      ghost var h2, l2 := history, logs;
      LinkDataHash(o, h);
      SinceThen(old(history), h1, h2, old(logs), l1, l2, recs);
      SinceThen(old(history), h2, history, old(logs), l2, logs, recs);
      IndexedWrites(a, b, img, o, data, h, f);
    }

    /** Writes the data object, makes it the head of field `f`'s list and the tail of its bucket. */
    method IndexNew(data: string, h: nat, f: nat, ghost texts: set<string>, ghost names: set<string>) returns (o: nat)
      requires Open(0) && h == hash(data) && data in texts && NoClash(hash, img, texts, names)
      requires Cut(data).Some? && f in img.payloads && img.payloads[f] == Cut(data).value.0
      requires f in img.objects && img.objects[f].kind == FieldKind
      modifies this`img, this`recs, this`history, this`logs, this`header, this`dataTable, this`shape
      ensures Open(0) && NoClash(hash, img, texts, names)
      ensures recs == old(recs) && Since(old(history), history, old(logs), logs, recs)
      ensures SameLog(old(header), header) && img.header == old(img.header) && Grows(old(img), img, 0)
      ensures IsData(hash, img, o, data) && o !in old(img.objects) && Adds(old(img), img, o, DataKind, data)
      ensures shape.refs == old(shape.refs)[o := []]
    {
      hide Quiet, NoClash, Grows, Timeline, Fresh, Since, Readable, Extends, IsData, Cut, Indexed, AddData, Placed,
          Closed, Adds;
      ghost var a, m := img, Mem();
      QuietFresh(hash, img, shape, recs, m, 0);
      FieldHead(hash, img, shape, recs, m, f);
      ghost var b;
      o, b := WriteData(data, h, f);
      header := header.(nObjects := header.nObjects + 1, nData := header.nData + 1, tailObject := o);
      QuietData(hash, a, b, img, o, shape, recs, m, data, f, texts, names);
      IndexedAdds(a, b, img, o, data, h, f);
      DataHeader(a, b, img, o, data, h, f);
      shape := DataShape(shape, o, h, f);
      assert Mem() == DataMemory(m, img, o, h);
    }

    /** Makes `o` the first data object of field `f`. */
    method LinkField(f: nat, o: nat)
      requires Recorded()
      modifies this`img, this`recs, this`history, this`logs
      ensures Recorded() && recs == old(recs) && Since(old(history), history, old(logs), logs, recs)
      ensures img == old(img).(headData := old(img).headData[f := o])
    {
      hide Timeline, Readable;
      LastReadable(history, logs);
      IndexKeeps(img, img.(headData := img.headData[f := o]), recs);
      Write(img.(headData := img.headData[f := o]), recs);
    }

    // ----- entry arrays of data objects -----

    /** A new entry array holding one entry. */
    method CreateEntryArray(entry: nat) returns (o: nat)
      requires Recorded() && Fresh(img, Align8(img.end))
      modifies this`img, this`recs, this`history, this`logs, this`header
      ensures Recorded() && recs == old(recs) && Since(old(history), history, old(logs), logs, recs)
      ensures o == Align8(old(img).end) && img == AddArray(old(img), FirstSlots(entry))
      ensures header == ArrayMemory(old(Mem()), o).header
    {
      hide Timeline, Fresh, Since, AddArray;
      o := PutArrayObject(FirstSlots(entry));
      header := header.(nObjects := header.nObjects + 1, nEntryArrays := header.nEntryArrays + 1, tailObject := o);
    }

    /** Follows the chain to its last array. */
    method LastArray(arrayOffset: nat, ghost arrs: seq<nat>, ghost xs: seq<nat>) returns (a: nat)
      requires ArraysOk(img, arrs, xs) && arrs != [] && arrs[0] == arrayOffset
      requires forall j :: 0 <= j < |arrs| ==> 0 < arrs[j] < img.end
      ensures a == arrs[|arrs| - 1]
    {
      a := arrayOffset;
      ghost var j := 0;
      assert ArrayOk(img, arrs, xs, j);
      while img.next[a] != 0
        invariant j < |arrs| && a == arrs[j] && ArrayOk(img, arrs, xs, j)
        decreases img.end - a
      {
        assert j + 1 < |arrs| && arrs[j] < arrs[j + 1];
        a := img.next[a];
        j := j + 1;
        assert ArrayOk(img, arrs, xs, j);
      }
    }

    /** The first free slot of an array, or its capacity. */
    method ScanSlots(a: nat) returns (i: nat)
      requires a in img.slots && a in img.objects && img.objects[a].size == ARRAY_HEADER + 8 * |img.slots[a]|
      ensures i <= |img.slots[a]| && (i < |img.slots[a]| ==> img.slots[a][i] == 0)
      ensures forall k :: 0 <= k < i ==> img.slots[a][k] != 0
    {
      var itemCount := (img.objects[a].size - ARRAY_HEADER) / 8;
      i := 0;
      while i < itemCount && img.slots[a][i] != 0
        invariant i <= |img.slots[a]| == itemCount
        invariant forall k :: 0 <= k < i ==> img.slots[a][k] != 0
      {
        i := i + 1;
      }
    }

    /** Stores `entry` in the first free slot of the chain, adding an array when there is none.
        `o` is the new array, or 0; `i` the slot used. */
    method AppendToEntryArray(arrayOffset: nat, entry: nat, ghost arrs: seq<nat>, ghost xs: seq<nat>)
      returns (ghost o: nat, ghost i: nat)
      requires Recorded() && Fresh(img, Align8(img.end))
      requires ArraysOk(img, arrs, xs) && arrs != [] && arrs[0] == arrayOffset
      requires xs != [] && forall k :: 0 <= k < |xs| ==> xs[k] != 0
      requires forall j :: 0 <= j < |arrs| ==> 0 < arrs[j] < img.end
      requires forall r, j :: 0 <= r < |recs| && 0 <= j < |arrs| ==> recs[r].arr != arrs[j]
      modifies this`img, this`recs, this`history, this`logs, this`header
      ensures Recorded() && recs == old(recs) && Since(old(history), history, old(logs), logs, recs)
      ensures
        var x := arrs[|arrs| - 1];
        && x in old(img).slots && |old(img).slots[x]| == ARRAY_SLOTS && x in old(img).next
        && (o == 0 ==> i < ARRAY_SLOTS && |xs| == ARRAY_SLOTS * (|arrs| - 1) + i
                       && img == old(img).(slots := old(img).slots[x := SetSlot(old(img).slots[x], i, entry)])
                           && header == old(header))
        && (o != 0 ==> |xs| % ARRAY_SLOTS == 0 && o == Align8(old(img).end)
                       && img == LinkArray(AddArray(old(img), FirstSlots(entry)), x, o)
                           && header == ArrayMemory(old(Mem()), o).header)
    {
      hide Timeline, Fresh, Since, AddArray, Readable;
      var a := LastArray(arrayOffset, arrs, xs);
      assert ArrayOk(img, arrs, xs, |arrs| - 1);
      LastReadable(history, logs);
      var slot := ScanSlots(a);
      if slot < |img.slots[a]| {
        SlotFound(img, arrs, xs, slot);
        ArrayKeeps(img, img.(slots := img.slots[a := SetSlot(img.slots[a], slot, entry)]), recs, a);
        Write(img.(slots := img.slots[a := SetSlot(img.slots[a], slot, entry)]), recs);
        SinceOne(old(history), old(logs), img, recs);
        o, i := 0, slot;
      } else {
        FreeSlot(img, arrs, xs, 0);
        var newArray := CreateEntryArray(entry);
        ghost var h1, l1 := history, logs;
        LastReadable(history, logs);
        ArrayKeeps(img, LinkArray(img, a, newArray), recs, a);
        Write(LinkArray(img, a, newArray), recs);
        SinceOne(h1, l1, img, recs);
        SinceThen(old(history), h1, history, old(logs), l1, logs, recs);
        o, i := newArray, 0;
      }
    }

    /** Stores the reference to `entry` and returns the entry info still to be written. */
    method StoreReference(d: nat, entry: nat) returns (info: EntryInfo, ghost o: nat, ghost i: nat)
      requires Open(1) && d in shape.refs && NextRef(img, shape.refs[d], entry)
      modifies this`img, this`recs, this`history, this`logs, this`header
      ensures Recorded() && recs == old(recs) && Since(old(history), history, old(logs), logs, recs)
      ensures Stored(old(img), img, shape, d, entry, info, o, i) && Mem() == StoredMemory(old(Mem()), o)
    {
      hide Quiet, Timeline, Readable, Since, RefsOk, AddArray, Fresh, Placed, Closed, FirstSlots;
      LastReadable(history, logs);
      ChainFacts(hash, img, shape, recs, Mem(), d);
      info := img.info[d];
      o, i := 0, 0;
      if info.first == 0 {
        info := info.(first := entry);
        SinceNow(history, logs, recs);
      } else {
        QuietFresh(hash, img, shape, recs, Mem(), 1);
        if info.arr == 0 {
          var arrayOffset := CreateEntryArray(entry);
          info := info.(arr := arrayOffset);
          o := arrayOffset;
        } else {
          ChainNonEmpty(img, shape.refs[d], shape.arrs[d], d);
          o, i := AppendToEntryArray(info.arr, entry, shape.arrs[d], Rest(shape.refs[d]));
        }
      }
    }

    /** Makes data object `d` refer to `entry`: inline if it is the first, else through its entry arrays. */
    method LinkDataToEntry(d: nat, entry: nat)
      requires Open(1) && d in shape.refs && NextRef(img, shape.refs[d], entry)
      modifies this`img, this`recs, this`history, this`logs, this`header, this`shape
      ensures Open(1) && recs == old(recs) && Since(old(history), history, old(logs), logs, recs)
      ensures SameLog(old(header), header) && img.header == old(img.header) && Keeps(old(img), img)
              && img.payloads == old(img.payloads)
      ensures shape.refs == old(shape.refs)[d := old(shape.refs)[d] + [entry]]
    {
      hide Quiet, Timeline, Keeps, Since, Stored;
      ghost var a, s, m := img, shape, Mem();
      var info;
      ghost var o, i;
      info, o, i := StoreReference(d, entry);
      ghost var n, h1, l1 := img, history, logs;
      PatchInfo(d, info.(count := info.count + 1));
      SinceThen(old(history), h1, history, old(logs), l1, logs, recs);
      StoredDomain(a, n, s, d, entry, info, o, i);
      shape := Extended(s, d, entry, o);
      StoredLinked(hash, a, n, img, s, recs, m, d, entry, info, o, i);
    }

    method PatchInfo(d: nat, info: EntryInfo)
      requires Recorded()
      modifies this`img, this`recs, this`history, this`logs
      ensures Recorded() && recs == old(recs) && Since(old(history), history, old(logs), logs, recs)
      ensures img == old(img).(info := old(img).info[d := info])
    {
      hide Timeline, Readable;
      LastReadable(history, logs);
      IndexKeeps(img, img.(info := img.info[d := info]), recs);
      Write(img.(info := img.info[d := info]), recs);
    }

    // ----- the global chain -----

    /** Writes the header of a one-slot entry array. */
    method PutGlobalArrayHeader() returns (o: nat)
      requires Recorded() && Fresh(img, Align8(img.end))
      modifies this`img, this`recs, this`history, this`logs
      ensures Recorded() && recs == old(recs) && Since(old(history), history, old(logs), logs, recs)
      ensures o == Align8(old(img).end) && img == PutArrayHeader(Pad(old(img)), ARRAY_HEADER + 8)
    {
      hide Timeline, Readable, Fresh;
      FreshPad(img);
      PadEnd();
      o := img.end;
      LastReadable(history, logs);
      HeaderKeeps(img, PutArrayHeader(img, ARRAY_HEADER + 8), recs, o);
      Write(PutArrayHeader(img, ARRAY_HEADER + 8), recs);
    }

    /** Adds the global entry array of `entry` and links it after the tail: the commit of the entry. */
    method AppendEntryArray(prevTail: nat, entry: nat, ghost items: seq<Item>, ghost payloads: seq<string>,
            ghost stamp: Stamp)
      returns (o: nat)
      requires Open(1) && prevTail == TailArray(recs) && After(recs, entry)
      requires EntryReady(img, entry, items, payloads, stamp, |recs| + 1)
      modifies this`img, this`recs, this`history, this`logs
      ensures Recorded() && recs == old(recs) + [Record(entry, o, items, payloads, stamp)]
      ensures CommitsLast(old(history), history, old(logs), logs, old(recs), recs)
      ensures o == Align8(old(img).end)
      ensures img == if old(recs) == [] then AddArray(old(img), [entry])
              else LinkArray(AddArray(old(img), [entry]), TailArray(old(recs)), o)
    {
      hide Quiet, Timeline, Readable, EntryReady, Keeps, Fresh, Closed, Placed, PutSlots, PutArrayHeader, LinkArray,
          AddArray, Pad, Since, CommitsLast;
      ghost var a := img;
      QuietFresh(hash, img, shape, recs, Mem(), 1);
      LastReadable(history, logs);
      ArraysNonZero(img, recs);
      HeaderKept(img);
      o := PutGlobalArrayHeader();
      ghost var r := Record(entry, o, items, payloads, stamp);
      ghost var b, h1, l1 := img, history, logs;
      LastReadable(history, logs);
      ReadyKept(a, b, entry, items, payloads, stamp, |recs| + 1);
      ReadyBefore(a, entry, items, payloads, stamp, |recs| + 1);
      SlotsKept(b, o, [entry]);
      AddArraySplit(a, entry);
      if prevTail == 0 {
        CommitFirst(b, PutSlots(b, o, [entry]), o, r);
        CommitsNow(old(history), h1, old(logs), l1, recs, PutSlots(b, o, [entry]), r);
        assert recs + [r] == [r];
        Write(PutSlots(img, o, [entry]), [r]);
      } else {
        BodyKeeps(b, PutSlots(b, o, [entry]), recs, o);
        Write(PutSlots(img, o, [entry]), recs);
        SinceOne(h1, l1, img, recs);
        SinceThen(old(history), h1, history, old(logs), l1, logs, recs);
        CommitsNow(old(history), history, old(logs), logs, recs, LinkArray(img, prevTail, o), r);
        ReadyKept(b, img, entry, items, payloads, stamp, |recs| + 1);
        CommitLink(img, LinkArray(img, prevTail, o), recs, r);
        LinkAdvances(img, prevTail, o);
        Write(LinkArray(img, prevTail, o), recs + [r]);
      }
    }

    // ----- the entry -----

    /** Makes every data object of the entry refer to it. */
    method LinkItems(items: seq<Item>, entry: nat)
      requires Open(1) && Distinct(items) && forall k :: 0 <= k < |items| ==> items[k].data in shape.refs
      requires Below(shape.refs, entry) && 0 < entry < img.end
      modifies this`img, this`recs, this`history, this`logs, this`header, this`shape
      ensures Open(1) && recs == old(recs) && Since(old(history), history, old(logs), logs, recs)
      ensures SameLog(old(header), header) && img.header == old(img.header) && Keeps(old(img), img)
              && img.payloads == old(img.payloads)
      ensures shape.refs == Referred(old(shape.refs), items, entry)
    {
      hide Quiet, Timeline, Keeps, Since, Referred;
      ghost var refs := shape.refs;
      LastReadable(history, logs);
      SinceNow(history, logs, recs);
      SelfKeeps(img);
      ReferNone(refs, entry);
      assert items[..0] == [];
      for k := 0 to |items|
        invariant Open(1) && recs == old(recs) && Since(old(history), history, old(logs), logs, recs)
        invariant SameLog(old(header), header) && img.header == old(img.header) && Keeps(old(img), img)
                  && entry < img.end
        invariant img.payloads == old(img.payloads)
        invariant shape.refs == Referred(refs, items[..k], entry)
      {
        ghost var a, h1, l1 := img, history, logs;
        ReferDomain(refs, items[..k], entry);
        ReferOne(refs, items, k, entry);
        LinkDataToEntry(items[k].data, entry);
        SinceThen(old(history), h1, history, old(logs), l1, logs, recs);
        KeepsThen(old(img), a, img);
        KeepsEnd(a, img);
      }
      assert items[..|items|] == items;
    }

    /** Between calls of the exported methods. */
    ghost predicate Valid()
      reads this
    {
      Open(0) && LoggedAs(header, img.end, shape, recs) && (!dirty ==> img.header == header) && InSession()
    }

    /** Writes the entry object and makes its data objects refer to it. */
    method WriteEntry(stamp: Stamp, items: seq<Item>, ghost payloads: seq<string>) returns (entry: nat)
      requires Open(0) && header.tailSeqnum == |recs| && RefsMatch(shape, recs)
      requires ItemsOk(img, items, payloads) && Distinct(items) && forall k :: 0 <= k < |items| ==>
                 items[k].data in shape.refs
      requires HEADER_SIZE <= img.end
      modifies this`img, this`recs, this`history, this`logs, this`header, this`shape
      ensures Open(1) && recs == old(recs) && Since(old(history), history, old(logs), logs, recs)
      ensures SameLog(old(header).(tailSeqnum := |recs| + 1), header) && img.header == old(img.header)
      ensures EntryReady(img, entry, items, payloads, stamp, |recs| + 1) && After(recs, entry) && HEADER_SIZE <= img.end
      ensures shape.refs == Referred(old(shape.refs), items, entry) && Keeps(old(img), img)
              && img.payloads == old(img.payloads)
    {
      hide Quiet, Timeline, Keeps, Since, Readable, Referred, RefsMatch, AddEntry, Fresh, Placed, Closed, EntryReady,
          ItemsOk, Grows, Distinct, After, Below;
      ghost var a, s, m := img, shape, Mem();
      QuietFresh(hash, a, s, recs, m, 0);
      RefsBelow(hash, a, s, recs, m);
      header := header.(tailSeqnum := header.tailSeqnum + 1);
      var seqnum := header.tailSeqnum;
      entry := PutEntryObject(EntryWord(seqnum, stamp), items);
      QuietEntry(hash, a, img, s, recs, m, EntryWord(seqnum, stamp), items);
      NewEntryReady(a, img, items, payloads, stamp, seqnum);
      shape := EntryShape(s, entry);
      ghost var b, h1, l1 := img, history, logs;
      BelowEntry(s.refs, recs, a.end, entry);
      ReadyBefore(b, entry, items, payloads, stamp, seqnum);
      LinkItems(items, entry);
      SinceThen(old(history), h1, history, old(logs), l1, logs, recs);
      ReadyKept(b, img, entry, items, payloads, stamp, seqnum);
      KeepsEnd(a, b);
      KeepsEnd(b, img);
      KeepsThen(a, b, img);
    }

    /** Commits the entry: its entry array, then the header and the counters. */
    method Commit(entry: nat, stamp: Stamp, ghost items: seq<Item>, ghost payloads: seq<string>) returns (newArray: nat)
      requires Open(1) && header.tailArray == TailArray(recs) && After(recs, entry) && HEADER_SIZE <= img.end
      requires EntryReady(img, entry, items, payloads, stamp, |recs| + 1)
      modifies this`img, this`recs, this`history, this`logs, this`header, this`shape
      ensures Open(0) && recs == old(recs) + [Record(entry, newArray, items, payloads, stamp)]
      ensures CommitsLast(old(history), history, old(logs), logs, old(recs), recs)
      ensures Keeps(old(img), img) && img.payloads == old(img.payloads) && img.header == old(img.header)
      ensures shape == GlobalShape(old(shape), newArray)
              && header == CommitHeader(old(header), newArray, entry, stamp, img.end)
      ensures img.end >= HEADER_SIZE
    {
      hide Quiet, Timeline, Keeps, Since, Readable, CommitsLast, Referred, AddArray, LinkArray, EntryReady, ItemsOk,
          Distinct, After, CommitHeader;
      ghost var a, s, m := img, shape, Mem();
      newArray := AppendEntryArray(header.tailArray, entry, items, payloads, stamp);
      ghost var r := Record(entry, newArray, items, payloads, stamp);
      CommitEnd(a, img, [entry], TailArray(old(recs)), newArray);
      LastReadable(history, logs);
      QuietCommit(hash, a, AddArray(a, [entry]), img, s, old(recs), m, r);
      header := CommitHeader(header, newArray, entry, stamp, img.end);
      shape := GlobalShape(s, newArray);
    }

    /** Writes and commits the entry object. */
    method AppendEntryObject(realtime: nat, monotonic: nat, items: seq<Item>, ghost payloads: seq<string>)
      requires Open(0) && HeaderOk(header, recs, 0) && RefsMatch(shape, recs)
      requires ItemsOk(img, items, payloads) && Distinct(items) && forall k :: 0 <= k < |items| ==>
                 items[k].data in shape.refs
      requires TailArray(recs) < 0x1_0000_0000 && HEADER_SIZE <= img.end
      modifies this`img, this`recs, this`history, this`logs, this`header, this`shape, this`dirty
      ensures Open(0) && LoggedAs(header, img.end, shape, recs) && dirty && img.header == old(img.header)
      ensures |recs| == |old(recs)| + 1 && recs[..|old(recs)|] == old(recs)
      ensures recs[|old(recs)|].payloads == payloads && recs[|old(recs)|].stamp == Stamp(realtime, monotonic, bootId)
      ensures recs[|old(recs)|].items == items
      ensures CommitsLast(old(history), history, old(logs), logs, old(recs), recs)
      ensures Keeps(old(img), img) && img.payloads == old(img.payloads)
    {
      hide Quiet, Timeline, Keeps, Since, Readable, CommitsLast, Referred, RefsMatch, EntryReady, ItemsOk, Distinct,
          After;
      LastReadable(history, logs);
      ArraysNonZero(img, recs);
      var stamp := Stamp(realtime, monotonic, bootId);
      var entry := WriteEntry(stamp, items, payloads);
      ghost var a, s, h, h1, l1 := img, shape, header, history, logs;
      var newArray := Commit(entry, stamp, items, payloads);
      CommitsThen(old(history), h1, history, old(logs), l1, logs, old(recs), recs);
      ghost var r := Record(entry, newArray, items, payloads, stamp);
      KeepsThen(old(img), a, img);
      SameRefs(s, newArray);
      CommitRefs(old(shape), shape, old(recs), r);
      CommitLog(h, old(recs), r, img.end);
      dirty := true;
    }

    // ----- the exported operations -----

    /** The log as a reader would decode it. */
    ghost function Log(): seq<Entry>
      reads this
    {
      Views(recs)
    }

    /** Marks the file as being written: one byte of the header. */
    method BeginWrite()
      requires Open(0)
      modifies this`img, this`recs, this`history, this`logs, this`header
      ensures Open(0) && recs == old(recs) && Since(old(history), history, old(logs), logs, recs)
      ensures header == old(header).(state := Online) && Keeps(old(img), img) && img.end == old(img.end)
      ensures img.header == old(img.header) || img.header == old(img.header).(state := Online)
      ensures img.objects == old(img.objects) && img.payloads == old(img.payloads)
    {
      hide Quiet, Timeline, Readable, Since, Keeps;
      LastReadable(history, logs);
      if header.state == Online {
        SinceNow(history, logs, recs);
        SelfKeeps(img);
      } else {
        ghost var a, m := img, Mem();
        header := header.(state := Online);
        var next := img.(header := img.header.(state := Online));
        AnnouncedState(a, recs);
        QuietHeader(hash, a, next, shape, recs, m, Mem());
        Write(next, recs);
        SinceOne(old(history), old(logs), img, recs);
      }
    }

    /** Finds or adds the data object of one field. */
    method PutField(key: string, value: string, ghost texts: set<string>, ghost names: set<string>) returns (item: Item)
      requires Open(0) && NoClash(hash, img, texts, names) && RefsMatch(shape, recs) && InSession()
      requires '=' !in key && Payload(key, value) in texts && key in names
      modifies this`img, this`recs, this`history, this`logs, this`header, this`dataTable, this`fieldTable,
               this`dataCache, this`fieldCache, this`shape
      ensures Open(0) && NoClash(hash, img, texts, names) && RefsMatch(shape, recs)
      ensures recs == old(recs) && Since(old(history), history, old(logs), logs, recs)
      ensures SameLog(old(header), header) && img.header == old(img.header) && Keeps(old(img), img)
      ensures old(shape).refs.Keys <= shape.refs.Keys && item.data in shape.refs
      ensures item.hash == hash(Payload(key, value)) && IsData(hash, img, item.data, Payload(key, value))
      ensures InSession() && item.data in Written(img, prior, DataKind)
      ensures SessionTexts() == old(SessionTexts()) + {Payload(key, value)}
      ensures SessionNames() == old(SessionNames()) + {key}
      ensures Payload(key, value) in old(SessionTexts()) ==> img == old(img) && header == old(header)
      ensures Payload(key, value) !in old(SessionTexts()) ==> item.data !in old(img).objects
    {
      hide Quiet, Timeline, Keeps, Since, Readable, NoClash, RefsMatch, Grows, IsData, Cut, Payload, Deduped, Written,
          WrittenTexts, Adds, FieldTableOk;
      var data := Payload(key, value);
      var h := hash(data);
      CutPayload(key, value);
      TextKnown(hash, img, prior, dataCache, fieldCache, data, texts, names);
      LastReadable(history, logs);
      ghost var a, s := img, shape;
      if h in dataCache {
        CachedData(hash, img, shape, recs, Mem(), data, texts, names);
        SinceNow(history, logs, recs);
        SelfKeeps(img);
        item := Item(dataCache[h], h);
      } else {
        PayloadHasEquals(key, value);
        var r;
        ghost var before;
        r, before := AppendData(data, h, texts, names);
        TextAdded(hash, before, img, prior, dataCache, fieldCache, r.value, data);
        DataKeepsTable(hash, before, img, fieldTable, r.value, data);
        NewDataRefs(a, s, recs, shape, r.value);
        GrowsKeeps(a, img);
        QuietCache(hash, img, shape, recs, Mem(), data, r.value);
        dataCache := dataCache[h := r.value];
        item := Item(r.value, h);
      }
    }

    /** Finds or adds the data objects of all fields, in any order. */
    method PutFields(fields: map<string, string>, ghost texts: set<string>, ghost names: set<string>)
      returns (items: seq<Item>, ghost payloads: seq<string>)
      requires Open(0) && NoClash(hash, img, texts, names) && RefsMatch(shape, recs) && InSession()
      requires PlainKeys(fields) && Texts(fields) <= texts && fields.Keys <= names
      modifies this`img, this`recs, this`history, this`logs, this`header, this`dataTable, this`fieldTable,
               this`dataCache, this`fieldCache, this`shape
      ensures Open(0) && RefsMatch(shape, recs) && NoClash(hash, img, texts, names)
      ensures recs == old(recs) && Since(old(history), history, old(logs), logs, recs)
      ensures SameLog(old(header), header) && img.header == old(img.header) && old(img).end <= img.end
      ensures ItemsOk(img, items, payloads) && Distinct(items) && forall k :: 0 <= k < |items| ==>
                items[k].data in shape.refs
      ensures FieldsOf(payloads) == fields && HashesOk(hash, items, payloads)
      ensures InSession() && SessionTexts() == old(SessionTexts()) + Texts(fields)
      ensures SessionNames() == old(SessionNames()) + fields.Keys
    {
      hide Quiet, Timeline, Keeps, Since, Readable, NoClash, RefsMatch, IsData, Cut, Payload, Gathered, Deduped,
          FieldTableOk, Written, WrittenTexts, Texts, Done;
      LastReadable(history, logs);
      SinceNow(history, logs, recs);
      SelfKeeps(img);
      items, payloads := [], [];
      var todo := fields.Keys;
      GatherNone(img, shape.refs, fields);
      NoneDone(fields);
      while todo != {}
        invariant todo <= fields.Keys
        invariant Open(0) && NoClash(hash, img, texts, names) && RefsMatch(shape, recs)
        invariant recs == old(recs) && Since(old(history), history, old(logs), logs, recs)
        invariant SameLog(old(header), header) && img.header == old(img.header) && Keeps(old(img), img)
        invariant Gathered(img, shape.refs, fields, todo, items, payloads) && HashesOk(hash, items, payloads)
        invariant InSession() && SessionTexts() == old(SessionTexts()) + Texts(Done(fields, todo))
        invariant SessionNames() == old(SessionNames()) + (fields.Keys - todo)
        decreases todo
      {
        ghost var a, refs, h1, l1 := img, shape.refs, history, logs;
        var k :| k in todo;
        TextIn(fields, k);
        var item := PutField(k, fields[k], texts, names);
        SinceThen(old(history), h1, history, old(logs), l1, logs, recs);
        KeepsThen(old(img), a, img);
        GatherKept(a, img, refs, shape.refs, fields, todo, items, payloads);
        GatherOne(hash, img, shape.refs, fields, todo, items, payloads, k, item.data);
        items := items + [item];
        payloads := payloads + [Payload(k, fields[k])];
        OneDone(fields, todo, k);
        todo := todo - {k};
      }
      GatherAll(img, shape.refs, fields, items, payloads);
      AllDone(fields);
      KeepsEnd(old(img), img);
    }

    /** The part of `AppendEntry` before the entry itself: the file is marked, every field is stored. */
    method StoreFields(fields: map<string, string>, ghost texts: set<string>, ghost names: set<string>)
      returns (items: seq<Item>, ghost payloads: seq<string>)
      requires Open(0) && HeaderOk(header, recs, 0) && RefsMatch(shape, recs) && NoClash(hash, img, texts, names)
               && InSession()
      requires PlainKeys(fields) && Texts(fields) <= texts && fields.Keys <= names
      modifies this`img, this`recs, this`history, this`logs, this`header, this`dataTable, this`fieldTable,
               this`dataCache, this`fieldCache, this`shape, this`dirty
      ensures Open(0) && RefsMatch(shape, recs) && NoClash(hash, img, texts, names) && dirty
      ensures recs == old(recs) && Since(old(history), history, old(logs), logs, recs)
      ensures HeaderOk(header, recs, 0) && old(img).end <= img.end
      ensures ItemsOk(img, items, payloads) && Distinct(items) && forall k :: 0 <= k < |items| ==>
                items[k].data in shape.refs
      ensures FieldsOf(payloads) == fields && HashesOk(hash, items, payloads)
      ensures InSession() && SessionTexts() == old(SessionTexts()) + Texts(fields)
      ensures SessionNames() == old(SessionNames()) + fields.Keys
    {
      hide Quiet, Timeline, Keeps, Since, Readable, NoClash, RefsMatch, Texts, FieldsOf, PlainKeys, ItemsOk, Distinct,
          Deduped, WrittenTexts, FieldTableOk;
      LastReadable(history, logs);
      ghost var a := img;
      BeginWrite();
      SameClash(hash, a, img, texts, names);
      DedupedSame(hash, a, img, prior, dataCache, fieldCache);
      FieldTableSame(hash, a, img, fieldTable);
      ghost var h1, l1 := history, logs;
      dirty := true;
      items, payloads := PutFields(fields, texts, names);
      SinceThen(old(history), h1, history, old(logs), l1, logs, recs);
    }

    lemma AtStart(fields: map<string, string>)
      requires Valid() && HashOk(hash, img, fields) && img.end < 0x1_0000_0000
      ensures Open(0) && LoggedAs(header, img.end, shape, recs) && HeaderOk(header, recs, 0) && RefsMatch(shape, recs)
      ensures InSession() && |recs| == |Log()| && Log() == Views(recs)
      ensures NoClash(hash, img, StoredTexts(img, DataKind) + Texts(fields), StoredTexts(img, FieldKind) + fields.Keys)
      ensures TailArray(recs) < 0x1_0000_0000 && img.end >= HEADER_SIZE
      ensures header.nData == |OfKind(prior, DataKind)| + |SessionTexts()|
      ensures header.nFields == |OfKind(prior, FieldKind)| + |SessionNames()|
      ensures Texts(fields) <= StoredTexts(img, DataKind) + Texts(fields)
    {
      hide Quiet, Timeline, Readable, Texts, StoredTexts, Deduped, WrittenTexts, FieldTableOk, HeaderOk, RefsMatch;
      QuietCounts(hash, img, shape, recs, Mem(), prior);
      HashNoClash(hash, img, fields);
      LastReadable(history, logs);
      TailBelow(img, recs);
    }

    lemma LogIs()
      ensures Log() == Views(recs)
    {
    }

    lemma InMemory()
      requires Open(0)
      ensures Quiet(hash, img, shape, recs, Mem(), 0)
      ensures Mem() == Memory(header, dataTable, fieldTable, dataCache, fieldCache)
      ensures InSession() <==> Deduped(hash, img, prior, dataCache, fieldCache) && FieldTableOk(hash, img, fieldTable)
      ensures SessionTexts() == WrittenTexts(img, prior, DataKind)
      ensures SessionNames() == WrittenTexts(img, prior, FieldKind)
      ensures Log() == Views(recs)
    {
      hide Quiet, Timeline, Deduped, FieldTableOk, WrittenTexts, Views;
    }

    /** Writes and commits an entry of fields that have been stored. */
    method AppendStored(realtime: nat, monotonic: nat, items: seq<Item>, ghost payloads: seq<string>,
            ghost texts: set<string>, ghost names: set<string>)
      requires Open(0) && HeaderOk(header, recs, 0) && RefsMatch(shape, recs) && InSession()
      requires ItemsOk(img, items, payloads) && Distinct(items) && forall k :: 0 <= k < |items| ==>
                 items[k].data in shape.refs
      requires TailArray(recs) < 0x1_0000_0000 && HEADER_SIZE <= img.end && NoClash(hash, img, texts, names)
      modifies this`img, this`recs, this`history, this`logs, this`header, this`shape, this`dirty
      ensures Open(0) && LoggedAs(header, img.end, shape, recs) && dirty && InSession()
      ensures |recs| == |old(recs)| + 1 && recs[..|old(recs)|] == old(recs)
      ensures recs[|old(recs)|].payloads == payloads && recs[|old(recs)|].stamp == Stamp(realtime, monotonic, bootId)
      ensures recs[|old(recs)|].items == items
      ensures CommitsLast(old(history), history, old(logs), logs, old(recs), recs)
      ensures StoredTexts(img, DataKind) <= texts && StoredTexts(img, FieldKind) <= names
      ensures SessionTexts() == old(SessionTexts()) && SessionNames() == old(SessionNames())
      ensures header.nData == |OfKind(prior, DataKind)| + |SessionTexts()|
      ensures header.nFields == |OfKind(prior, FieldKind)| + |SessionNames()|
    {
      hide *;
      ghost var b, s, m := img, shape, Mem();
      InMemory();
      AppendEntryObject(realtime, monotonic, items, payloads);
      InMemory();
      ClashKept(hash, b, s, recs[..|old(recs)|], m, img, texts, names);
      QuietKept(hash, b, s, recs[..|old(recs)|], m, img, prior);
      QuietCounts(hash, img, shape, recs, Mem(), prior);
    }

    lemma AtEnd()
      requires Open(0) && LoggedAs(header, img.end, shape, recs) && dirty && InSession()
      ensures Valid()
    {
      hide Quiet, Timeline, LoggedAs, Deduped, FieldTableOk;
    }

    /** Appends an entry with the given fields. */
    method AppendEntry(fields: map<string, string>, realtime: nat, monotonic: nat)
      requires Valid() && PlainKeys(fields) && HashOk(hash, img, fields)
      requires img.end < 0x1_0000_0000  // tail_entry_array_offset has 32 bits
      modifies this
      ensures Valid() && dirty && bootId == old(bootId)
      ensures Log() == old(Log()) + [Entry(|old(recs)| + 1, Stamp(realtime, monotonic, bootId), fields)]
      ensures CommitsLast(old(history), history, old(logs), logs, old(recs), recs)
      ensures |recs| == |old(recs)| + 1 && HashesOk(hash, recs[|old(recs)|].items, recs[|old(recs)|].payloads)
      ensures StoredTexts(img, DataKind) <= StoredTexts(old(img), DataKind) + Texts(fields)
      ensures StoredTexts(img, FieldKind) <= StoredTexts(old(img), FieldKind) + fields.Keys
      ensures SessionTexts() == old(SessionTexts()) + Texts(fields)
      ensures SessionNames() == old(SessionNames()) + fields.Keys
      ensures header.nData == old(header.nData) + New(Texts(fields), old(SessionTexts()))
      ensures header.nFields == old(header.nFields) + New(fields.Keys, old(SessionNames()))
    {
      hide *;
      AtStart(fields);
      ghost var texts, names := StoredTexts(img, DataKind) + Texts(fields), StoredTexts(img, FieldKind) + fields.Keys;
      var items;
      ghost var payloads;
      items, payloads := StoreFields(fields, texts, names);
      ghost var h1, l1 := history, logs;
      AppendStored(realtime, monotonic, items, payloads, texts, names);
      CommitsThen(old(history), h1, history, old(logs), l1, logs, old(recs), recs);
      LogGrown(old(recs), recs);
      LogIs();
      AtEnd();
      Union(old(SessionTexts()), Texts(fields));
      Union(old(SessionNames()), fields.Keys);
    }

    /** Writes the whole header back and marks the file offline. */
    method Sync()
      requires Valid()
      modifies this
      ensures Valid() && !dirty && bootId == old(bootId)
      ensures recs == old(recs) && Since(old(history), history, old(logs), logs, recs)
      ensures AtRest(hash, img, shape, recs) && img.header.tailSeqnum == |recs|
      ensures img.end == old(img).end && img.objects == old(img).objects && img.payloads == old(img).payloads
      ensures SessionTexts() == old(SessionTexts()) && SessionNames() == old(SessionNames())
    {
      hide Quiet, Timeline, Since, Readable, RefsMatch, Deduped, WrittenTexts, FieldTableOk;
      LastReadable(history, logs);
      SinceNow(history, logs, recs);
      if dirty {
        BeginWrite();
        header := header.(arenaSize := img.end - HEADER_SIZE);
        header := header.(state := Offline);
        ghost var a, m, h1, l1 := img, Mem().(header := header.(state := Online)), history, logs;
        LastReadable(history, logs);
        ArraysNonZero(img, recs);
        AnnouncedAll(header, recs);
        QuietHeader(hash, a, a.(header := header), shape, recs, m, Mem());
        HeaderAdvances(a, header, recs);
        Write(img.(header := header), recs);
        SinceOne(h1, l1, img, recs);
        SinceThen(old(history), h1, history, old(logs), l1, logs, recs);
        dirty := false;
      }
      DedupedSame(hash, old(img), img, prior, dataCache, fieldCache);
      FieldTableSame(hash, old(img), img, fieldTable);
      QuietAtRest(hash, img, shape, recs, Mem());
    }

    /** Creates a new, empty journal file. */
    constructor Create(hash: string -> nat, bootId: nat)
      ensures Valid() && !dirty && recs == [] && img == NewImage()
      ensures this.hash == hash && this.bootId == bootId && AtRest(hash, img, shape, recs)
      ensures prior == img.objects && SessionTexts() == {} && SessionNames() == {}
    {
      this.hash, this.bootId := hash, bootId;
      img, header := NewImage(), NEW_HEADER;
      dataTable, fieldTable := NewTable(DATA_BUCKETS), NewTable(FIELD_BUCKETS);
      dataCache, fieldCache, dirty := map[], map[], false;
      shape, recs := NewShape(), [];
      history, logs := [NewImage()], [[]];
      prior := NewImage().objects;
      new;
      hide Quiet, Readable, Deduped, WrittenTexts, FieldTableOk;
      DedupedAtOpen(hash, img);
      NewAtRest(hash);
    }

    /** Opens an existing journal file for appending: header and tables from disk, caches empty. */
    constructor OpenAppend(hash: string -> nat, bootId: nat, disk: Image, ghost shape: Shape, ghost recs: seq<Record>,
            ghost history: seq<Image>, ghost logs: seq<seq<Record>>)
      requires AtRest(hash, disk, shape, recs)
      requires Timeline(history, logs) && history[|history| - 1] == disk && logs[|logs| - 1] == recs
      ensures Valid() && !dirty && this.img == disk && this.hash == hash && this.bootId == bootId
      ensures this.shape == shape && this.recs == recs && this.history == history && this.logs == logs
      ensures prior == disk.objects && SessionTexts() == {} && SessionNames() == {}
    {
      this.hash, this.bootId := hash, bootId;
      img, header, dataTable, fieldTable := disk, disk.header, disk.dataTable, disk.fieldTable;
      dataCache, fieldCache, dirty := map[], map[], false;
      this.shape, this.recs, this.history, this.logs := shape, recs, history, logs;
      prior := disk.objects;
      new;
      hide Quiet, Timeline, RefsMatch, Deduped, WrittenTexts, FieldTableOk;
      DedupedAtOpen(hash, img);
    }
  }
}
