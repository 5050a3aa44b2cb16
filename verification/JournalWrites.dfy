/** The individual writes an append makes, each one system call and one update of the image, and
    what each of them leaves alone. */
module JournalWrites {
  import opened JournalImage
  import opened JournalShape

  // ----- writes at the end of the file -----

  function Pad(img: Image): Image { img.(end := Align8(img.end)) }

  function PutDataHeader(img: Image, size: nat, hash: nat, nextField: nat): Image {
    img.(objects := img.objects[img.end := Object(DataKind, size)],
         hashes := img.hashes[img.end := hash],
         nextHash := img.nextHash[img.end := 0],
         nextField := img.nextField[img.end := nextField],
         info := img.info[img.end := EntryInfo(0, 0, 0)],
         end := img.end + DATA_HEADER)
  }

  function PutFieldHeader(img: Image, size: nat, hash: nat): Image {
    img.(objects := img.objects[img.end := Object(FieldKind, size)],
         hashes := img.hashes[img.end := hash],
         headData := img.headData[img.end := 0],
         end := img.end + FIELD_HEADER)
  }

  function PutPayload(img: Image, o: nat, payload: string): Image {
    img.(payloads := img.payloads[o := payload], end := img.end + |payload|)
  }

  function PutEntryHeader(img: Image, size: nat, word: EntryWord): Image {
    img.(objects := img.objects[img.end := Object(EntryKind, size)],
         entries := img.entries[img.end := word],
         end := img.end + ENTRY_HEADER)
  }

  function PutItems(img: Image, o: nat, items: seq<Item>): Image {
    img.(items := img.items[o := items], end := img.end + ENTRY_ITEM * |items|)
  }

  function PutArrayHeader(img: Image, size: nat): Image {
    img.(objects := img.objects[img.end := Object(ArrayKind, size)],
         next := img.next[img.end := 0],
         end := img.end + ARRAY_HEADER)
  }

  function PutSlots(img: Image, o: nat, slots: seq<nat>): Image {
    img.(slots := img.slots[o := slots], end := img.end + 8 * |slots|)
  }

  // ----- a new object, header then body -----

  function AddData(img: Image, payload: string, hash: nat, nextField: nat): Image {
    PutPayload(PutDataHeader(Pad(img), DATA_HEADER + |payload|, hash, nextField), Align8(img.end), payload)
  }

  function AddField(img: Image, name: string, hash: nat): Image {
    PutPayload(PutFieldHeader(Pad(img), FIELD_HEADER + |name|, hash), Align8(img.end), name)
  }

  function AddEntry(img: Image, word: EntryWord, items: seq<Item>): Image {
    PutItems(PutEntryHeader(Pad(img), ENTRY_HEADER + ENTRY_ITEM * |items|, word), Align8(img.end), items)
  }

  function AddArray(img: Image, slots: seq<nat>): Image {
    PutSlots(PutArrayHeader(Pad(img), ARRAY_HEADER + 8 * |slots|), Align8(img.end), slots)
  }

  /** The slots of a new entry array of a data object: one entry and zeros. */
  function FirstSlots(entry: nat): (r: seq<nat>)
    ensures |r| == ARRAY_SLOTS && forall k :: 0 <= k < ARRAY_SLOTS ==> r[k] == SlotAt([entry], k)
  {
    seq(ARRAY_SLOTS, k => if k == 0 then entry else 0)
  }

  function LinkArray(img: Image, last: nat, o: nat): Image { img.(next := img.next[last := o]) }

  function SetSlot(slots: seq<nat>, i: nat, e: nat): seq<nat>
    requires i < |slots|
  {
    slots[i := e]
  }

  // ----- what readers see grows -----

  /** Every word a reader follows is kept from `a` to `b`, except in entry array `x`. */
  ghost predicate Grows(a: Image, b: Image, x: nat) {
    && a.end <= b.end
    && (forall o :: o in a.objects ==> o in b.objects && b.objects[o] == a.objects[o])
    && (forall o :: o in a.payloads ==> o in b.payloads && b.payloads[o] == a.payloads[o])
    && (forall o :: o in a.entries ==> o in b.entries && b.entries[o] == a.entries[o])
    && (forall o :: o in a.items ==> o in b.items && b.items[o] == a.items[o])
    && (forall o :: o in a.slots && o != x ==> o in b.slots && b.slots[o] == a.slots[o])
    && (forall o :: o in a.next && o != x ==> o in b.next && b.next[o] == a.next[o])
  }

  lemma GrowsReadable(a: Image, b: Image, x: nat, recs: seq<Record>)
    requires Readable(a, recs) && Grows(a, b, x) && Announced(b.header, recs)
    requires forall i :: 0 <= i < |recs| ==> recs[i].arr != x
    ensures Readable(b, recs)
  {
    forall i | 0 <= i < |recs|
      ensures RecordOk(b, recs[i], i + 1) && Linked(b, recs, i)
    {
      assert RecordOk(a, recs[i], i + 1) && Linked(a, recs, i);
      forall k | 0 <= k < |recs[i].items|
        ensures HoldsPayload(b, recs[i].items[k].data, recs[i].payloads[k])
      {
        assert HoldsPayload(a, recs[i].items[k].data, recs[i].payloads[k]);
      }
    }
  }

  /** Nothing of the object at `o` has been written yet. */
  ghost predicate Fresh(img: Image, o: nat) {
    && o !in img.objects && o !in img.payloads && o !in img.entries && o !in img.items
    && o !in img.slots && o !in img.next
  }

  // ----- every write at the end of the file keeps the committed log -----

  lemma PadKeeps(img: Image, recs: seq<Record>)
    requires Readable(img, recs)
    ensures Readable(Pad(img), recs)
  {
    forall i | 0 <= i < |recs| ensures recs[i].arr != 0 { assert RecordOk(img, recs[i], i + 1); }
    GrowsReadable(img, Pad(img), 0, recs);
  }

  lemma HeaderKeeps(img: Image, next: Image, recs: seq<Record>, o: nat)
    requires Readable(img, recs) && Fresh(img, o) && img.end <= next.end && next.header == img.header
    requires o in next.objects && next.objects == img.objects[o := next.objects[o]]
    requires next.payloads == img.payloads && next.items == img.items && next.slots == img.slots
    requires next.entries == img.entries || (o in next.entries && next.entries == img.entries[o := next.entries[o]])
    requires next.next == img.next || (o in next.next && next.next == img.next[o := next.next[o]])
    ensures Readable(next, recs)
  {
    assert Grows(img, next, o);
    forall i | 0 <= i < |recs| ensures recs[i].arr != o { assert RecordOk(img, recs[i], i + 1); }
    GrowsReadable(img, next, o, recs);
  }

  lemma BodyKeeps(img: Image, next: Image, recs: seq<Record>, o: nat)
    requires Readable(img, recs) && img.end <= next.end && next.header == img.header
    requires next.objects == img.objects && next.entries == img.entries && next.next == img.next
    requires next.payloads == img.payloads
             || (o !in img.payloads && o in next.payloads && next.payloads == img.payloads[o := next.payloads[o]])
    requires next.items == img.items
             || (o !in img.items && o in next.items && next.items == img.items[o := next.items[o]])
    requires next.slots == img.slots
             || (o !in img.slots && o in next.slots && next.slots == img.slots[o := next.slots[o]])
    ensures Readable(next, recs)
  {
    forall i | 0 <= i < |recs| ensures recs[i].arr != 0 { assert RecordOk(img, recs[i], i + 1); }
    GrowsReadable(img, next, 0, recs);
  }

  /** Patching words no reader of the log follows. */
  lemma IndexKeeps(img: Image, next: Image, recs: seq<Record>)
    requires Readable(img, recs) && img.end <= next.end && next.header == img.header
    requires next.objects == img.objects && next.payloads == img.payloads && next.entries == img.entries
    requires next.items == img.items && next.slots == img.slots && next.next == img.next
    ensures Readable(next, recs)
  {
    forall i | 0 <= i < |recs| ensures recs[i].arr != 0 { assert RecordOk(img, recs[i], i + 1); }
    GrowsReadable(img, next, 0, recs);
  }

  /** Patching the slots or the link of an entry array that is not in the global chain. */
  lemma ArrayKeeps(img: Image, next: Image, recs: seq<Record>, x: nat)
    requires Readable(img, recs) && img.end <= next.end && next.header == img.header
    requires next.objects == img.objects && next.payloads == img.payloads && next.entries == img.entries
             && next.items == img.items
    requires forall o :: o in img.slots && o != x ==> o in next.slots && next.slots[o] == img.slots[o]
    requires forall o :: o in img.next && o != x ==> o in next.next && next.next[o] == img.next[o]
    requires forall i :: 0 <= i < |recs| ==> recs[i].arr != x
    ensures Readable(next, recs)
  {
    GrowsReadable(img, next, x, recs);
  }
}
