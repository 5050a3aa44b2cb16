/** The journal file as its readers see it: a store of typed words addressed by object offset.
    Every object sits at the offset its header was written to; the words inside it that are
    written, read or patched separately (payload, chain links, array slots, entry info) are
    separate components, so one `write` system call is one update of one `Image` value. */
module JournalImage {
  import opened Wrappers

  // Sizes in bytes of the header and of the fixed part of each object kind.
  const HEADER_SIZE: nat := 272
  const OBJECT_HEADER: nat := 16
  const DATA_HEADER: nat := 64
  const FIELD_HEADER: nat := 40
  const ENTRY_HEADER: nat := 64
  const ENTRY_ITEM: nat := 16
  const ARRAY_HEADER: nat := 24
  const HASH_ITEM: nat := 16

  const DATA_BUCKETS: nat := 2047
  const FIELD_BUCKETS: nat := 333

  // Slots in an entry array of a data object.
  const ARRAY_SLOTS: nat := 16

  const DATA_TABLE: nat := HEADER_SIZE
  const FIELD_TABLE: nat := DATA_TABLE + OBJECT_HEADER + DATA_BUCKETS * HASH_ITEM
  const ARENA: nat := FIELD_TABLE + OBJECT_HEADER + FIELD_BUCKETS * HASH_ITEM

  datatype Kind = DataKind | FieldKind | EntryKind | DataTableKind | FieldTableKind | ArrayKind

  /** The common object header: type and total size. */
  datatype Object = Object(kind: Kind, size: nat)

  datatype HashItem = HashItem(head: nat, tail: nat)

  /** entry_offset, entry_array_offset and n_entries of a data object, always patched together. */
  datatype EntryInfo = EntryInfo(first: nat, arr: nat, count: nat)

  datatype Item = Item(data: nat, hash: nat)

  datatype Stamp = Stamp(realtime: nat, monotonic: nat, boot: nat)

  datatype EntryWord = EntryWord(seqnum: nat, stamp: Stamp)

  datatype State = Offline | Online

  /** The header fields that change after creation. `tailArray` is a 32-bit field. */
  datatype Header = Header(
    state: State,
    arenaSize: nat,
    tailObject: nat,
    nObjects: nat,
    nEntries: nat,
    tailSeqnum: nat,
    headSeqnum: nat,
    entryArray: nat,
    headRealtime: nat,
    tailStamp: Stamp,
    nData: nat,
    nFields: nat,
    nEntryArrays: nat,
    tailArray: nat,
    tailArrayEntries: nat,
    tailEntry: nat)

  datatype Image = Image(
    header: Header,
    objects: map<nat, Object>,
    hashes: map<nat, nat>,
    payloads: map<nat, string>,
    nextHash: map<nat, nat>,
    nextField: map<nat, nat>,
    info: map<nat, EntryInfo>,
    headData: map<nat, nat>,
    entries: map<nat, EntryWord>,
    items: map<nat, seq<Item>>,
    next: map<nat, nat>,
    slots: map<nat, seq<nat>>,
    dataTable: seq<HashItem>,
    fieldTable: seq<HashItem>,
    end: nat)

  /** Rounds up to the next 8-byte boundary. */
  function Align8(n: nat): (r: nat)
    ensures n <= r < n + 8 && r % 8 == 0
    ensures n % 8 == 0 ==> r == n
  {
    (n + 7) / 8 * 8
  }

  // ----- field=value payloads -----

  function Payload(key: string, value: string): string { key + "=" + value }

  /** Splits at the first '='; None when there is none. */
  function Cut(p: string): (r: Option<(string, string)>)
    ensures r.Some? ==> Payload(r.value.0, r.value.1) == p && '=' !in r.value.0
    ensures r.None? <==> '=' !in p
  {
    if p == "" then None
    else if p[0] == '=' then Some(("", p[1..]))
    else
      assert p == [p[0]] + p[1..];
      match Cut(p[1..])
      case None => None
      case Some((k, v)) => Some(([p[0]] + k, v))
  }

  lemma {:induction false} CutPayload(key: string, value: string)
    requires '=' !in key
    ensures Cut(Payload(key, value)) == Some((key, value))
  {
    var p := Payload(key, value);
    if key == "" {
      assert p[1..] == value;
    } else {
      assert p[1..] == Payload(key[1..], value);
      CutPayload(key[1..], value);
      assert p[0] == key[0] && [key[0]] + key[1..] == key;
    }
  }

  /** A field reads back as itself exactly when its name holds no '='. */
  lemma CutPayloadExactlyWhen(key: string, value: string)
    ensures Cut(Payload(key, value)) == Some((key, value)) <==> '=' !in key
  {
    if '=' !in key { CutPayload(key, value); }
  }

  // ----- what a reader decodes -----

  datatype Entry = Entry(seqnum: nat, stamp: Stamp, fields: map<string, string>)

  function ReadData(img: Image, o: nat): Option<(string, string)> {
    if o in img.objects && img.objects[o].kind == DataKind && o in img.payloads
       && img.objects[o].size == DATA_HEADER + |img.payloads[o]|
    then Cut(img.payloads[o])
    else None
  }

  /** The field map of an item list; a later item overwrites an earlier one with the same key. */
  function ReadItems(img: Image, items: seq<Item>): Option<map<string, string>> {
    if items == [] then Some(map[])
    else
      var last := |items| - 1;
      match (ReadItems(img, items[..last]), ReadData(img, items[last].data))
      case (Some(m), Some((k, v))) => Some(m[k := v])
      case _ => None
  }

  function ReadEntry(img: Image, o: nat): Option<Entry> {
    if o in img.objects && img.objects[o].kind == EntryKind && o in img.entries && o in img.items
       && img.objects[o].size == ENTRY_HEADER + ENTRY_ITEM * |img.items[o]|
    then
      match ReadItems(img, img.items[o])
      case Some(m) => Some(Entry(img.entries[o].seqnum, img.entries[o].stamp, m))
      case None => None
    else None
  }

  /** An entry array: its slots and the offset of the next array. */
  function ReadArray(img: Image, o: nat): Option<(seq<nat>, nat)> {
    if o in img.objects && img.objects[o].kind == ArrayKind && o in img.slots && o in img.next
       && img.objects[o].size == ARRAY_HEADER + 8 * |img.slots[o]|
    then Some((img.slots[o], img.next[o]))
    else None
  }

  function ReadSlots(img: Image, slots: seq<nat>): Option<seq<Entry>> {
    if slots == [] || slots[0] == 0 then Some([])
    else
      match (ReadEntry(img, slots[0]), ReadSlots(img, slots[1..]))
      case (Some(e), Some(rest)) => Some([e] + rest)
      case _ => None
  }

  /** Everything a reader decodes by following the array chain from `o` to its end; None if an
      object on the way is missing, of the wrong type, short, or does not lie further on. */
  function ReadChain(img: Image, o: nat): Option<seq<Entry>>
    decreases img.end - o
  {
    if o == 0 then Some([])
    else
      match ReadArray(img, o)
      case None => None
      case Some((slots, next)) =>
        if next != 0 && !(o < next < img.end) then None
        else
          match (ReadSlots(img, slots), if next == 0 then Some([]) else ReadChain(img, next))
          case (Some(es), Some(rest)) => Some(es + rest)
          case _ => None
  }

  // ----- the committed chain -----

  /** One committed entry: where its entry object and its global entry array lie, and what they hold. */
  datatype Record = Record(entry: nat, arr: nat, items: seq<Item>, payloads: seq<string>, stamp: Stamp)

  ghost function FieldsOf(payloads: seq<string>): map<string, string> {
    if payloads == [] then map[]
    else
      var last := |payloads| - 1;
      match Cut(payloads[last])
      case Some((k, v)) => FieldsOf(payloads[..last])[k := v]
      case None => FieldsOf(payloads[..last])
  }

  ghost function View(recs: seq<Record>, i: nat): Entry
    requires i < |recs|
  {
    Entry(i + 1, recs[i].stamp, FieldsOf(recs[i].payloads))
  }

  ghost function Views(recs: seq<Record>): seq<Entry> {
    seq(|recs|, i requires 0 <= i < |recs| => View(recs, i))
  }

  /** A data object that is completely written and holds payload `p`. */
  ghost predicate HoldsPayload(img: Image, o: nat, p: string) {
    o in img.objects && o in img.payloads && img.payloads[o] == p
    && img.objects[o] == Object(DataKind, DATA_HEADER + |p|)
  }

  ghost predicate ItemsOk(img: Image, items: seq<Item>, payloads: seq<string>) {
    |items| == |payloads|
    && forall k :: 0 <= k < |items| ==> HoldsPayload(img, items[k].data, payloads[k]) && '=' in payloads[k]
  }

  ghost predicate RecordOk(img: Image, r: Record, seqnum: nat) {
    && r.arr in img.objects && img.objects[r.arr] == Object(ArrayKind, ARRAY_HEADER + 8)
    && r.arr in img.slots && img.slots[r.arr] == [r.entry]
    && r.arr in img.next
    && 0 < r.entry < r.arr < img.end
    && r.entry in img.objects && img.objects[r.entry] == Object(EntryKind, ENTRY_HEADER + ENTRY_ITEM * |r.items|)
    && r.entry in img.entries && img.entries[r.entry] == EntryWord(seqnum, r.stamp)
    && r.entry in img.items && img.items[r.entry] == r.items
    && ItemsOk(img, r.items, r.payloads)
  }

  ghost predicate Linked(img: Image, recs: seq<Record>, i: nat)
    requires i < |recs| && recs[i].arr in img.next
  {
    img.next[recs[i].arr] == if i + 1 < |recs| then recs[i + 1].arr else 0
  }

  ghost predicate Committed(img: Image, recs: seq<Record>) {
    && (forall i :: 0 <= i < |recs| ==> RecordOk(img, recs[i], i + 1) && Linked(img, recs, i))
    && (forall i, j :: 0 <= i < j < |recs| ==> recs[i].arr < recs[j].arr && recs[i].entry < recs[j].entry)
  }

  /** The header on disk announces at most the committed entries, through the first global array. */
  ghost predicate Announced(h: Header, recs: seq<Record>) {
    && h.tailSeqnum <= |recs|
    && (h.entryArray == 0 || (recs != [] && h.entryArray == recs[0].arr))
    && (h.tailSeqnum > 0 ==> h.entryArray != 0)
  }

  /** What holds of the file after every single write. */
  ghost predicate Readable(img: Image, recs: seq<Record>) {
    Committed(img, recs) && Announced(img.header, recs)
  }

  // ----- a reader of a readable image decodes exactly the committed records -----

  lemma {:induction false} ReadItemsOk(img: Image, items: seq<Item>, payloads: seq<string>)
    requires ItemsOk(img, items, payloads)
    ensures ReadItems(img, items) == Some(FieldsOf(payloads))
  {
    if items != [] {
      var last := |items| - 1;
      assert HoldsPayload(img, items[last].data, payloads[last]);
      ReadItemsOk(img, items[..last], payloads[..last]);
    }
  }

  lemma ReadRecord(img: Image, recs: seq<Record>, i: nat)
    requires Committed(img, recs) && i < |recs|
    ensures ReadEntry(img, recs[i].entry) == Some(View(recs, i))
  {
    ReadItemsOk(img, recs[i].items, recs[i].payloads);
  }

  /** One step along the chain: the array, its one entry, and where the next array lies. */
  lemma ReadStep(img: Image, recs: seq<Record>, i: nat)
    requires Committed(img, recs) && i < |recs|
    ensures
      var next := if i + 1 < |recs| then recs[i + 1].arr else 0;
      && ReadArray(img, recs[i].arr) == Some(([recs[i].entry], next))
      && ReadSlots(img, [recs[i].entry]) == Some([View(recs, i)])
      && recs[i].arr != 0 && (next != 0 ==> recs[i].arr < next < img.end)
      && (i + 1 < |recs| ==> next != 0)
  {
    var r := recs[i];
    assert RecordOk(img, r, i + 1) && Linked(img, recs, i);
    ReadRecord(img, recs, i);
    assert [r.entry][1..] == [] && [View(recs, i)] + [] == [View(recs, i)];
    if i + 1 < |recs| { assert RecordOk(img, recs[i + 1], i + 2); }
  }

  lemma {:induction false} ReadChainFrom(img: Image, recs: seq<Record>, i: nat)
    requires Committed(img, recs) && i < |recs|
    ensures ReadChain(img, recs[i].arr) == Some(Views(recs)[i..])
    decreases |recs| - i
  {
    hide Committed, ReadArray, ReadSlots;
    ReadStep(img, recs, i);
    if i + 1 < |recs| { ReadChainFrom(img, recs, i + 1); }
    assert Views(recs)[i..] == [View(recs, i)] + Views(recs)[i + 1..];
  }

  /** The whole chain, read from the first global array, is the committed log. */
  lemma ReadAllCommitted(img: Image, recs: seq<Record>)
    requires Committed(img, recs) && recs != []
    ensures ReadChain(img, recs[0].arr) == Some(Views(recs))
  {
    ReadChainFrom(img, recs, 0);
    assert Views(recs)[0..] == Views(recs);
  }

  /** A reader that opens the file between any two writes decodes the committed log, or nothing
      while the first entry has not been announced by a header write. */
  lemma OpenAnywhere(img: Image, recs: seq<Record>)
    requires Readable(img, recs)
    ensures ReadChain(img, img.header.entryArray) == Some(if img.header.entryArray == 0 then [] else Views(recs))
  {
    if img.header.entryArray != 0 { ReadAllCommitted(img, recs); }
  }
}
