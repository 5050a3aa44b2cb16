/** The state of the writer between two sub-operations of an append, and how each sub-operation moves
    it: statements about values, used by the class that performs the writes. */
module JournalQuiet {
  import opened JournalImage
  import opened JournalShape
  import opened JournalWrites
  import opened JournalExtend
  import opened JournalIndex
  import opened JournalChains
  import opened JournalSteps

  // ----- the history of a file -----

  /** From one write to a later one the announced part of the header only advances. */
  ghost predicate Advances(h: Header, h': Header) {
    && h.tailSeqnum <= h'.tailSeqnum
    && (h.entryArray != 0 ==> h'.entryArray == h.entryArray)
  }

  /** Image `t` of the history commits log `t`, and logs only grow. */
  ghost predicate Timeline(history: seq<Image>, logs: seq<seq<Record>>) {
    && |history| == |logs| > 0
    && (forall t :: 0 <= t < |history| ==> Readable(history[t], logs[t]))
    && (forall t, u :: 0 <= t <= u < |logs| ==> logs[t] <= logs[u])
    && (forall t, u :: 0 <= t <= u < |history| ==> Advances(history[t].header, history[u].header))
  }

  lemma TimelineGrows(history: seq<Image>, logs: seq<seq<Record>>, img: Image, recs: seq<Record>)
    requires Timeline(history, logs) && Readable(img, recs)
    requires logs[|logs| - 1] <= recs && Advances(history[|history| - 1].header, img.header)
    ensures Timeline(history + [img], logs + [recs])
  {
    hide Readable;
    var n := |logs|;
    forall t, u | 0 <= t <= u < n + 1
      ensures (logs + [recs])[t] <= (logs + [recs])[u]
      ensures Advances((history + [img])[t].header, (history + [img])[u].header)
    {
      if t < n {
        assert logs[t] <= logs[n - 1] && Advances(history[t].header, history[n - 1].header);
      }
    }
  }

  /** `h` and `l` continue `h0` and `l0`, and every image added commits exactly `recs`. */
  ghost predicate Since(h0: seq<Image>, h: seq<Image>, l0: seq<seq<Record>>, l: seq<seq<Record>>, recs: seq<Record>) {
    h0 <= h && l0 <= l && |h0| == |l0| && |h| == |l| && forall t :: |l0| <= t < |l| ==> l[t] == recs
  }

  lemma SinceThen(h0: seq<Image>, h1: seq<Image>, h: seq<Image>, l0: seq<seq<Record>>, l1: seq<seq<Record>>,
          l: seq<seq<Record>>, recs: seq<Record>)
    requires Since(h0, h1, l0, l1, recs) && Since(h1, h, l1, l, recs)
    ensures Since(h0, h, l0, l, recs)
  {
  }

  lemma SinceNow(h: seq<Image>, l: seq<seq<Record>>, recs: seq<Record>)
    requires |h| == |l|
    ensures Since(h, h, l, l, recs)
  {
  }

  lemma SinceOne(h: seq<Image>, l: seq<seq<Record>>, img: Image, recs: seq<Record>)
    requires |h| == |l|
    ensures Since(h, h + [img], l, l + [recs], recs)
  {
  }

  lemma SelfGrows(img: Image)
    ensures Grows(img, img, 0)
  {
  }

  lemma GrowsThen(a: Image, b: Image, c: Image)
    requires Grows(a, b, 0) && Grows(b, c, 0)
    ensures Grows(a, c, 0)
  {
  }

  lemma GrownObject(a: Image, b: Image, o: nat)
    requires Grows(a, b, 0) && o !in b.objects
    ensures o !in a.objects
  {
  }

  lemma GrowsFieldTable(a: Image, b: Image, c: Image)
    requires Grows(a, b, 0) && c == b.(fieldTable := c.fieldTable)
    ensures Grows(a, c, 0)
  {
  }

  // ----- hash assumptions -----

  ghost predicate InjectiveOn(hash: string -> nat, texts: set<string>) {
    forall p, q :: p in texts && q in texts && hash(p) == hash(q) ==> p == q
  }

  /** All stored payloads of a kind are among `texts`. */
  ghost predicate Within(img: Image, kind: Kind, texts: set<string>) {
    forall o :: o in img.objects && img.objects[o].kind == kind && o in img.payloads ==> img.payloads[o] in texts
  }

  ghost predicate NoClash(hash: string -> nat, img: Image, texts: set<string>, names: set<string>) {
    && InjectiveOn(hash, texts) && Within(img, DataKind, texts)
    && InjectiveOn(hash, names) && Within(img, FieldKind, names)
  }

  // ----- the log -----

  lemma {:induction false} NoRefsYet(img: Image, recs: seq<Record>, d: nat)
    requires forall i :: 0 <= i < |recs| ==> RecordOk(img, recs[i], i + 1)
    requires d !in img.objects
    ensures RefsIn(recs, d) == []
  {
    if recs != [] {
      var last := |recs| - 1;
      assert RecordOk(img, recs[last], last + 1);
      forall k | 0 <= k < |recs[last].items| ensures recs[last].items[k].data != d {
        assert HoldsPayload(img, recs[last].items[k].data, recs[last].payloads[k]);
      }
      forall i | 0 <= i < last ensures RecordOk(img, recs[..last][i], i + 1) { assert RecordOk(img, recs[i], i + 1); }
      NoRefsYet(img, recs[..last], d);
    }
  }

  // ----- what adding an object does to the caches and counters -----

  lemma FieldCached(hash: string -> nat, a: Image, b: Image, o: nat, h: nat, dc: map<nat, nat>, fc: map<nat, nat>)
    requires Extends(a, b, o) && CachesOk(hash, a, dc, fc)
    requires b.objects[o].kind == FieldKind && o in b.hashes && b.hashes[o] == h
    ensures CachesOk(hash, b, dc, fc[h := o])
  {
    NewObject(a, b, o);
  }

  lemma FieldCounted(a: Image, b: Image, o: nat, h: Header)
    requires Extends(a, b, o) && Counted(a, h, 0) && b.objects[o].kind == FieldKind
    ensures Counted(b, h.(nObjects := h.nObjects + 1, nFields := h.nFields + 1, tailObject := o), 0)
  {
    NewObject(a, b, o);
    hide Extends;
    CountOne(a.objects, o, b.objects[o]);
  }

  lemma FieldAccounts(hash: string -> nat, a: Image, b: Image, o: nat, name: string, h: Header,
          dc: map<nat, nat>, fc: map<nat, nat>,
          texts: set<string>, names: set<string>)
    requires Extends(a, b, o) && CachesOk(hash, a, dc, fc) && Counted(a, h, 0) && NoClash(hash, a, texts, names)
    requires b.objects[o].kind == FieldKind && o in b.hashes && b.hashes[o] == hash(name)
    requires o in b.payloads && b.payloads[o] == name && name in names
    ensures CachesOk(hash, b, dc, fc[hash(name) := o])
    ensures Counted(b, h.(nObjects := h.nObjects + 1, nFields := h.nFields + 1, tailObject := o), 0)
    ensures NoClash(hash, b, texts, names)
  {
    hide CachesOk, Counted;
    FieldCached(hash, a, b, o, hash(name), dc, fc);
    FieldCounted(a, b, o, h);
    NewObject(a, b, o);
  }

  lemma DataAccounts(hash: string -> nat, a: Image, b: Image, o: nat, text: string, h: Header,
          texts: set<string>, names: set<string>)
    requires Extends(a, b, o) && Counted(a, h, 0) && NoClash(hash, a, texts, names)
    requires b.objects[o].kind == DataKind && o in b.payloads && b.payloads[o] == text && text in texts
    ensures Counted(b, h.(nObjects := h.nObjects + 1, nData := h.nData + 1, tailObject := o), 0)
    ensures NoClash(hash, b, texts, names)
  {
    NewObject(a, b, o);
    CountOne(a.objects, o, b.objects[o]);
  }

  lemma CachesSame(hash: string -> nat, b: Image, c: Image, dc: map<nat, nat>, fc: map<nat, nat>)
    requires CachesOk(hash, b, dc, fc) && c.objects == b.objects && c.hashes == b.hashes
    ensures CachesOk(hash, c, dc, fc)
  {
  }

  lemma AccountsSame(hash: string -> nat, b: Image, c: Image, h: Header, pending: nat,
          texts: set<string>, names: set<string>)
    requires Counted(b, h, pending) && NoClash(hash, b, texts, names) && c.objects == b.objects
             && c.payloads == b.payloads
    ensures Counted(c, h, pending) && NoClash(hash, c, texts, names)
  {
  }

  lemma OthersAccounts(hash: string -> nat, a: Image, b: Image, o: nat, dc: map<nat, nat>, fc: map<nat, nat>)
    requires Extends(a, b, o) && CachesOk(hash, a, dc, fc)
    ensures CachesOk(hash, b, dc, fc)
    ensures forall k :: |OfKind(b.objects, k)| == |OfKind(a.objects, k)| + (if k == b.objects[o].kind then 1 else 0)
    ensures |b.objects| == |a.objects| + 1
  {
    NewObject(a, b, o);
    CountOne(a.objects, o, b.objects[o]);
  }

  lemma LastReadable(history: seq<Image>, logs: seq<seq<Record>>)
    requires Timeline(history, logs)
    ensures |history| == |logs| > 0 && Readable(history[|history| - 1], logs[|logs| - 1])
  {
  }

  // ----- the writer's state between sub-operations -----

  /** What the writer keeps in memory about the file. */
  datatype Memory = Memory(
    header: Header,
    dataTable: seq<HashItem>,
    fieldTable: seq<HashItem>,
    dataCache: map<nat, nat>,
    fieldCache: map<nat, nat>)

  /** Every object is complete and linked, and memory agrees with the file; `pending` entry objects
      are not yet in the log. */
  ghost predicate Quiet(hash: string -> nat, img: Image, s: Shape, recs: seq<Record>, m: Memory, pending: nat) {
    && Structured(hash, img, s) && Readable(img, recs) && GlobalOwned(s, recs)
    && CachesOk(hash, img, m.dataCache, m.fieldCache)
    && m.dataTable == img.dataTable && m.fieldTable == img.fieldTable && |m.fieldTable| == FIELD_BUCKETS
    && Counted(img, m.header, pending)
  }

  lemma QuietFresh(hash: string -> nat, img: Image, s: Shape, recs: seq<Record>, m: Memory, pending: nat)
    requires Quiet(hash, img, s, recs, m, pending)
    ensures Fresh(img, Align8(img.end)) && Placed(img) && Closed(img)
    ensures |m.fieldTable| == FIELD_BUCKETS && |m.dataTable| == DATA_BUCKETS && m.dataTable == img.dataTable
  {
    NextIsFresh(img);
  }

  /** A cached field has the name it is looked up by, as long as the hash does not clash. */
  lemma CachedField(hash: string -> nat, img: Image, s: Shape, recs: seq<Record>, m: Memory, name: string,
          texts: set<string>, names: set<string>)
    requires Quiet(hash, img, s, recs, m, 0) && NoClash(hash, img, texts, names) && name in names
             && hash(name) in m.fieldCache
    ensures
      var f := m.fieldCache[hash(name)];
      f in img.objects && img.objects[f].kind == FieldKind && f in img.payloads && img.payloads[f] == name
  {
    assert ObjectOk(hash, img, m.fieldCache[hash(name)]);
  }

  function FieldMemory(m: Memory, o: nat, h: nat): Memory {
    m.(fieldCache := m.fieldCache[h := o],
       header := m.header.(nObjects := m.header.nObjects + 1, nFields := m.header.nFields + 1, tailObject := o))
  }

  lemma QuietField(hash: string -> nat, a: Image, b: Image, s: Shape, recs: seq<Record>, m: Memory, name: string,
          texts: set<string>, names: set<string>)
    requires Quiet(hash, a, s, recs, m, 0) && NoClash(hash, a, texts, names) && name in names
    requires b == AddField(a, name, hash(name))
    ensures
      var o := Align8(a.end);
      && Quiet(hash, b, FieldShape(s, o), recs, FieldMemory(m, o, hash(name)), 0) && NoClash(hash, b, texts, names)
      && o in b.objects && b.objects[o].kind == FieldKind && o in b.payloads && b.payloads[o] == name
      && Grows(a, b, 0) && b.header == a.header
  {
    var o := Align8(a.end);
    hide ObjectsOk, Placed, Tiled, ChainsOk, BucketsOk, FieldsOk, CachesOk, Counted, NoClash, Closed, Readable, Extends;
    AddFieldExtends(a, name, hash(name));
    ReadableExtend(a, b, o, recs);
    AddFieldStructured(hash, a, b, o, s, name);
    FieldAccounts(hash, a, b, o, name, m.header, m.dataCache, m.fieldCache, texts, names);
    ExtendsGrows(a, b, o);
  }

  lemma ExtendsGrows(a: Image, b: Image, o: nat)
    requires Extends(a, b, o) && Closed(a)
    ensures Grows(a, b, 0)
  {
  }

  /** The field table is no part of the structure. */
  lemma QuietFieldTable(hash: string -> nat, a: Image, b: Image, s: Shape, recs: seq<Record>, m: Memory,
          texts: set<string>, names: set<string>)
    requires Quiet(hash, a, s, recs, m, 0) && NoClash(hash, a, texts, names)
    requires b == a.(fieldTable := b.fieldTable) && |b.fieldTable| == FIELD_BUCKETS
    ensures Quiet(hash, b, s, recs, m.(fieldTable := b.fieldTable), 0) && NoClash(hash, b, texts, names)
            && Grows(a, b, 0)
  {
    hide Structured, Readable;
    HeaderStructured(hash, a, b, s);
    IndexKeeps(a, b, recs);
  }

  // ----- a new data object -----

  function DataMemory(m: Memory, b: Image, o: nat, h: nat): Memory {
    m.(dataTable := b.dataTable,
       header := m.header.(nObjects := m.header.nObjects + 1, nData := m.header.nData + 1, tailObject := o))
  }

  ghost predicate IsData(hash: string -> nat, img: Image, o: nat, payload: string) {
    HoldsPayload(img, o, payload) && o in img.hashes && img.hashes[o] == hash(payload)
  }

  /** What linking changes: only `headData`, `nextHash` and the data table. */
  lemma IndexedSame(a: Image, b: Image, c: Image, o: nat, payload: string, hash: nat, f: nat)
    requires Indexed(a, b, c, o, payload, hash, f)
    ensures Extends(a, b, o) && b.objects[o] == Object(DataKind, DATA_HEADER + |payload|)
    ensures o in b.payloads && b.payloads[o] == payload && o in b.hashes && b.hashes[o] == hash
    ensures c == b.(headData := c.headData, nextHash := c.nextHash, dataTable := c.dataTable)
  {
  }

  lemma QuietData(hash: string -> nat, a: Image, b: Image, c: Image, o: nat, s: Shape, recs: seq<Record>, m: Memory,
          payload: string, f: nat,
          texts: set<string>, names: set<string>)
    requires Quiet(hash, a, s, recs, m, 0) && NoClash(hash, a, texts, names) && payload in texts
    requires Indexed(a, b, c, o, payload, hash(payload), f) && b.fieldTable == a.fieldTable && b.header == a.header
    requires f in a.objects && a.objects[f].kind == FieldKind
    requires f in a.payloads && Cut(payload).Some? && Cut(payload).value.0 == a.payloads[f]
    ensures f in s.lists && |s.buckets| == DATA_BUCKETS
    ensures Quiet(hash, c, DataShape(s, o, hash(payload), f), recs, DataMemory(m, c, o, hash(payload)), 0)
    ensures NoClash(hash, c, texts, names) && Grows(a, c, 0) && IsData(hash, c, o, payload)
  {
    hide ObjectsOk, Placed, Tiled, ChainsOk, BucketsOk, CachesOk, Counted, NoClash, Closed, Readable, Extends, Grows,
        Indexed;
    FieldListed(a, s, f);
    hide FieldsOk;
    IndexedSame(a, b, c, o, payload, hash(payload), f);
    IndexStructured(hash, a, b, c, o, s, payload, f);
    ReadableExtend(a, b, o, recs);
    IndexKeeps(b, c, recs);
    ExtendsGrows(a, b, o);
    GrowsIndex(a, b, c);
    DataAccounts(hash, a, b, o, payload, m.header, texts, names);
    AccountsSame(hash, b, c, DataMemory(m, c, o, hash(payload)).header, 0, texts, names);
    CachesExtend(hash, a, b, o, m.dataCache, m.fieldCache);
    CachesSame(hash, b, c, m.dataCache, m.fieldCache);
  }

  lemma FieldHead(hash: string -> nat, img: Image, s: Shape, recs: seq<Record>, m: Memory, f: nat)
    requires Quiet(hash, img, s, recs, m, 0) && f in img.objects && img.objects[f].kind == FieldKind
    ensures f in img.headData && f in s.lists && |s.buckets| == DATA_BUCKETS
    ensures img.headData[f] != Align8(img.end) && f != Align8(img.end)
  {
    FieldListed(img, s, f);
    NextIsFresh(img);
    assert ListOk(img, s.lists[f], f);
  }

  lemma AddDataRest(a: Image, data: string, h: nat, nextField: nat)
    ensures
      var b := AddData(a, data, h, nextField);
      b.dataTable == a.dataTable && b.fieldTable == a.fieldTable && b.header == a.header
  {
  }

  lemma IndexedWrites(a: Image, b: Image, c: Image, o: nat, data: string, h: nat, f: nat)
    requires Placed(a) && Closed(a) && o == Align8(a.end) && f in a.headData && f != o && |a.dataTable| == DATA_BUCKETS
    requires b == AddData(a, data, h, a.headData[f])
    requires c == b.(headData := b.headData[f := o], nextHash := LinkOld(b.nextHash, a.dataTable[BucketOf(h)].tail, o),
                     dataTable := a.dataTable[BucketOf(h) := LinkTail(a.dataTable[BucketOf(h)], o)])
    ensures Indexed(a, b, c, o, data, h, f) && b.fieldTable == a.fieldTable && b.header == a.header
  {
    AddDataExtends(a, data, h, a.headData[f]);
  }

  lemma DataHeader(a: Image, b: Image, c: Image, o: nat, data: string, h: nat, f: nat)
    requires Indexed(a, b, c, o, data, h, f) && b.header == a.header
    ensures c.header == a.header && o !in a.objects
  {
  }

  lemma FieldListed(img: Image, s: Shape, f: nat)
    requires FieldsOk(img, s) && f in img.objects && img.objects[f].kind == FieldKind
    ensures f in s.lists && f in img.headData && img.headData[f] == SlotAt(s.lists[f], 0)
  {
    assert ListOk(img, s.lists[f], f);
  }

  lemma GrowsIndex(a: Image, b: Image, c: Image)
    requires Grows(a, b, 0) && c == b.(headData := c.headData, nextHash := c.nextHash, dataTable := c.dataTable)
    ensures Grows(a, c, 0)
  {
  }
}
