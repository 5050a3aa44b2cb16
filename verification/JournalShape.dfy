/** The structure of a journal file between operations: how objects tile the file, how data
    objects are threaded through hash buckets, field lists and entry arrays, and what the counters
    in the header count. Every predicate here is about one `Image` and the bookkeeping `Shape`. */
module JournalShape {
  import opened JournalImage

  /** Where things are; a reader of the proof can recompute all of it from the file. */
  datatype Shape = Shape(
    layout: seq<nat>,            // object offsets in file order
    owner: map<nat, nat>,        // entry array -> data object whose chain holds it, 0 for the global chain
    refs: map<nat, seq<nat>>,    // data object -> entries that refer to it, oldest first
    arrs: map<nat, seq<nat>>,    // data object -> entry arrays of its chain
    buckets: seq<seq<nat>>,      // hash bucket -> data objects from head to tail
    lists: map<nat, seq<nat>>,   // field object -> its data objects, newest first
    fieldOf: map<nat, nat>)      // data object -> its field object

  // ----- objects and tiling -----

  ghost predicate ObjectOk(hash: string -> nat, img: Image, o: nat)
    requires o in img.objects
  {
    var size := img.objects[o].size;
    match img.objects[o].kind
    case DataKind =>
      o in img.payloads && o in img.hashes && o in img.nextHash && o in img.nextField && o in img.info
      && size == DATA_HEADER + |img.payloads[o]|
      && img.hashes[o] == hash(img.payloads[o]) && '=' in img.payloads[o]
    case FieldKind =>
      o in img.payloads && o in img.hashes && o in img.headData
      && size == FIELD_HEADER + |img.payloads[o]| && img.hashes[o] == hash(img.payloads[o])
    case EntryKind =>
      o in img.entries && o in img.items && size == ENTRY_HEADER + ENTRY_ITEM * |img.items[o]|
    case ArrayKind =>
      o in img.slots && o in img.next && size == ARRAY_HEADER + 8 * |img.slots[o]|
    case DataTableKind => o == DATA_TABLE && size == FIELD_TABLE - DATA_TABLE
    case FieldTableKind => o == FIELD_TABLE && size == ARENA - FIELD_TABLE
  }

  ghost predicate ObjectsOk(hash: string -> nat, img: Image) {
    forall o :: o in img.objects ==> ObjectOk(hash, img, o)
  }

  /** No word is written outside an object whose header has been written. */
  ghost predicate Closed(img: Image) {
    && img.hashes.Keys <= img.objects.Keys && img.payloads.Keys <= img.objects.Keys
    && img.nextHash.Keys <= img.objects.Keys && img.nextField.Keys <= img.objects.Keys
    && img.info.Keys <= img.objects.Keys && img.headData.Keys <= img.objects.Keys
    && img.entries.Keys <= img.objects.Keys && img.items.Keys <= img.objects.Keys
    && img.next.Keys <= img.objects.Keys && img.slots.Keys <= img.objects.Keys
  }

  /** Object i + 1 starts at the first 8-byte boundary after object i. */
  ghost predicate Adjacent(img: Image, layout: seq<nat>, i: nat)
    requires i < |layout|
  {
    layout[i] in img.objects
    && (i + 1 < |layout| ==> layout[i + 1] == Align8(layout[i] + img.objects[layout[i]].size))
  }

  /** The objects tile the file after the header: no gap but padding, no overlap, nothing after the last. */
  ghost predicate Tiled(img: Image, layout: seq<nat>) {
    && |layout| >= 2 && layout[0] == DATA_TABLE && layout[1] == FIELD_TABLE
    && (forall o :: o in img.objects ==> o in layout)
    && (forall i :: 0 <= i < |layout| ==> Adjacent(img, layout, i))
    && layout[|layout| - 1] in img.objects
    && img.end == layout[|layout| - 1] + img.objects[layout[|layout| - 1]].size
  }

  ghost predicate Placed(img: Image) {
    forall o :: o in img.objects ==> HEADER_SIZE <= o && o % 8 == 0 && o + 16 <= o + img.objects[o].size <= img.end
  }

  // ----- the entry chain of a data object -----

  ghost function SlotAt(xs: seq<nat>, k: nat): nat { if k < |xs| then xs[k] else 0 }

  /** Array j of a chain holds slots 16j .. 16j+15 of the list `xs`, zero where the list has ended. */
  ghost predicate ArrayOk(img: Image, arrs: seq<nat>, xs: seq<nat>, j: nat)
    requires j < |arrs|
  {
    var a := arrs[j];
    && a in img.objects && img.objects[a] == Object(ArrayKind, ARRAY_HEADER + 8 * ARRAY_SLOTS)
    && a in img.slots && |img.slots[a]| == ARRAY_SLOTS
    && a in img.next && img.next[a] == (if j + 1 < |arrs| then arrs[j + 1] else 0)
    && (forall k :: 0 <= k < ARRAY_SLOTS ==> img.slots[a][k] == SlotAt(xs, ARRAY_SLOTS * j + k))
  }

  ghost predicate ArraysOk(img: Image, arrs: seq<nat>, xs: seq<nat>) {
    && |arrs| == (|xs| + ARRAY_SLOTS - 1) / ARRAY_SLOTS
    && (forall j :: 0 <= j < |arrs| ==> ArrayOk(img, arrs, xs, j))
    && (forall i, j :: 0 <= i < j < |arrs| ==> arrs[i] < arrs[j])
  }

  ghost predicate RefsOk(img: Image, refs: seq<nat>, arrs: seq<nat>, d: nat) {
    && d in img.info
    && img.info[d] == EntryInfo(SlotAt(refs, 0), SlotAt(arrs, 0), |refs|)
    && ArraysOk(img, arrs, if refs == [] then [] else refs[1..])
    && (forall k :: 0 <= k < |refs| ==> 0 < refs[k] < img.end)
    && (forall i, j :: 0 <= i < j < |refs| ==> refs[i] < refs[j])
  }

  ghost predicate ChainsOk(img: Image, s: Shape) {
    && s.refs.Keys == s.arrs.Keys
    && (forall d :: d in s.refs <==> d in img.objects && img.objects[d].kind == DataKind)
    && (forall d :: d in s.refs ==> RefsOk(img, s.refs[d], s.arrs[d], d))
    && (forall d, j :: d in s.arrs && 0 <= j < |s.arrs[d]| ==> s.arrs[d][j] in s.owner && s.owner[s.arrs[d][j]] == d)
    && (forall a :: a in s.owner ==> a in img.objects)
  }

  ghost predicate GlobalOwned(s: Shape, recs: seq<Record>) {
    forall i :: 0 <= i < |recs| ==> recs[i].arr in s.owner && s.owner[recs[i].arr] == 0
  }

  /** The entries of the log that refer to data object `d`, in order. */
  ghost function Refers(r: Record, d: nat): bool { exists k :: 0 <= k < |r.items| && r.items[k].data == d }

  ghost function RefsIn(recs: seq<Record>, d: nat): seq<nat> {
    if recs == [] then []
    else
      var last := |recs| - 1;
      RefsIn(recs[..last], d) + (if Refers(recs[last], d) then [recs[last].entry] else [])
  }

  ghost predicate RefsMatch(s: Shape, recs: seq<Record>) {
    forall d :: d in s.refs ==> s.refs[d] == RefsIn(recs, d)
  }

  // ----- hash buckets -----

  function BucketOf(hash: nat): (b: nat)
    ensures b < DATA_BUCKETS
  {
    hash % DATA_BUCKETS
  }

  ghost predicate BucketOk(img: Image, item: HashItem, bucket: seq<nat>, b: nat) {
    && item == (if bucket == [] then HashItem(0, 0) else HashItem(bucket[0], bucket[|bucket| - 1]))
    && (forall k :: 0 <= k < |bucket| ==>
          && bucket[k] in img.objects && img.objects[bucket[k]].kind == DataKind
          && bucket[k] in img.hashes && BucketOf(img.hashes[bucket[k]]) == b
          && bucket[k] in img.nextHash
          && img.nextHash[bucket[k]] == (if k + 1 < |bucket| then bucket[k + 1] else 0))
    && (forall i, j :: 0 <= i < j < |bucket| ==> bucket[i] < bucket[j])
  }

  /** Every data object is on the chain of its bucket, once, and chains hold nothing else. */
  ghost predicate BucketsOk(img: Image, table: seq<HashItem>, buckets: seq<seq<nat>>) {
    && |table| == |buckets| == DATA_BUCKETS
    && (forall b :: 0 <= b < |buckets| ==> BucketOk(img, table[b], buckets[b], b))
    && (forall d :: d in img.objects && img.objects[d].kind == DataKind ==>
          d in img.hashes && d in buckets[BucketOf(img.hashes[d])])
  }

  // ----- field lists -----

  ghost predicate FieldName(img: Image, f: nat, d: nat) {
    && f in img.payloads && d in img.payloads
    && Cut(img.payloads[d]).Some? && Cut(img.payloads[d]).value.0 == img.payloads[f]
  }

  ghost predicate ListOk(img: Image, list: seq<nat>, f: nat) {
    && f in img.headData && img.headData[f] == SlotAt(list, 0)
    && (forall k :: 0 <= k < |list| ==>
          && list[k] in img.objects && img.objects[list[k]].kind == DataKind
          && FieldName(img, f, list[k])
          && list[k] in img.nextField && img.nextField[list[k]] == SlotAt(list, k + 1))
    && (forall i, j :: 0 <= i < j < |list| ==> list[i] > list[j])
  }

  /** Each field object heads the list of its data objects, newest first, and every data object is
      on the list of exactly one field object. */
  ghost predicate FieldsOk(img: Image, s: Shape) {
    && (forall f :: f in s.lists <==> f in img.objects && img.objects[f].kind == FieldKind)
    && (forall f :: f in s.lists ==> ListOk(img, s.lists[f], f))
    && (forall f, k :: f in s.lists && 0 <= k < |s.lists[f]| ==>
          s.lists[f][k] in s.fieldOf && s.fieldOf[s.lists[f][k]] == f)
    && (forall d :: d in img.objects && img.objects[d].kind == DataKind ==>
          d in s.fieldOf && s.fieldOf[d] in s.lists && d in s.lists[s.fieldOf[d]])
  }

  // ----- the hash table of fields -----

  ghost predicate InFieldBucket(hash: string -> nat, img: Image, f: nat, b: nat) {
    && f in img.objects && img.objects[f].kind == FieldKind
    && f in img.payloads && hash(img.payloads[f]) % FIELD_BUCKETS == b
  }

  /** The bucket names the first and the last field object with a hash that falls into it; those between are not
      chained. */
  ghost predicate FieldBucketOk(hash: string -> nat, img: Image, item: HashItem, b: nat) {
    && (item.head == 0 <==> item.tail == 0)
    && (item.head != 0 ==> InFieldBucket(hash, img, item.head, b) && InFieldBucket(hash, img, item.tail, b))
    && forall f: nat :: InFieldBucket(hash, img, f, b) ==> item.head != 0 && item.head <= f <= item.tail
  }

  ghost predicate FieldTableOk(hash: string -> nat, img: Image, table: seq<HashItem>) {
    |table| == FIELD_BUCKETS && forall b :: 0 <= b < |table| ==> FieldBucketOk(hash, img, table[b], b)
  }

  // ----- counters -----

  ghost function OfKind(objects: map<nat, Object>, kind: Kind): set<nat> {
    set o | o in objects && objects[o].kind == kind
  }

  /** The counters agree with the file, apart from `pending` entry objects written but not yet counted. */
  ghost predicate Counted(img: Image, h: Header, pending: nat) {
    && h.nObjects + pending == |img.objects|
    && h.nData == |OfKind(img.objects, DataKind)|
    && h.nFields == |OfKind(img.objects, FieldKind)|
    && h.nEntries + pending == |OfKind(img.objects, EntryKind)|
    && h.nEntryArrays == |OfKind(img.objects, ArrayKind)|
    && h.nObjects == 2 + h.nData + h.nFields + h.nEntries + h.nEntryArrays
  }

  lemma CountOne(objects: map<nat, Object>, o: nat, obj: Object)
    requires o !in objects
    ensures |objects[o := obj]| == |objects| + 1
    ensures forall k :: |OfKind(objects[o := obj], k)| == |OfKind(objects, k)| + (if k == obj.kind then 1 else 0)
  {
    var more := objects[o := obj];
    assert more.Keys == objects.Keys + {o};
    forall k
      ensures |OfKind(more, k)| == |OfKind(objects, k)| + (if k == obj.kind then 1 else 0)
    {
      if k == obj.kind {
        assert OfKind(more, k) == OfKind(objects, k) + {o};
      } else {
        assert OfKind(more, k) == OfKind(objects, k);
      }
    }
  }

  // ----- deduplication caches -----

  ghost predicate CachesOk(hash: string -> nat, img: Image, dataCache: map<nat, nat>, fieldCache: map<nat, nat>) {
    && (forall h :: h in dataCache ==>
          dataCache[h] in img.objects && img.objects[dataCache[h]].kind == DataKind
          && dataCache[h] in img.hashes && img.hashes[dataCache[h]] == h)
    && (forall h :: h in fieldCache ==>
          fieldCache[h] in img.objects && img.objects[fieldCache[h]].kind == FieldKind
          && fieldCache[h] in img.hashes && img.hashes[fieldCache[h]] == h)
  }

  // ----- the header in memory -----

  /** The part of the header that describes the log; `started` entries have taken a sequence number. */
  ghost predicate HeaderOk(h: Header, recs: seq<Record>, started: nat) {
    && h.tailSeqnum == |recs| + started
    && h.nEntries == |recs|
    && h.entryArray == (if recs == [] then 0 else recs[0].arr)
    && h.tailArray == (if recs == [] then 0 else recs[|recs| - 1].arr % 0x1_0000_0000)
    && h.tailEntry == (if recs == [] then 0 else recs[|recs| - 1].entry)
    && h.headSeqnum == (if recs == [] then 0 else 1)
    && h.headRealtime == (if recs == [] then 0 else recs[0].stamp.realtime)
    && h.tailStamp == (if recs == [] then Stamp(0, 0, 0) else recs[|recs| - 1].stamp)
    && h.tailArrayEntries == (if recs == [] then 0 else 1)
  }

  /** The log part of the header is untouched by adding data, field and array objects. */
  ghost predicate SameLog(h: Header, h': Header) {
    h' == h.(nObjects := h'.nObjects, nData := h'.nData, nFields := h'.nFields,
             nEntryArrays := h'.nEntryArrays, tailObject := h'.tailObject)
  }
}
