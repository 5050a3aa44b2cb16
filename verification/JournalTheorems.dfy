/** What the file means to anyone who follows its offsets, derived from the writer's invariants, and
    the journal's central law: what was appended is what is read. */
module JournalTheorems {
  import opened Wrappers
  import opened JournalImage
  import opened JournalShape
  import opened JournalWrites
  import opened JournalExtend
  import opened JournalIndex
  import opened JournalChains
  import opened JournalQuiet
  import opened JournalAppend
  import opened JournalDedup
  import opened JournalLinks
  import opened JournalCommit
  import opened JournalWriter
  import opened JournalReader

  // ----- atomicity of an append -----

  /** Whatever write of an append a reader arrives after, it decodes the log before, and after the last write
      the log after; or nothing while no header write has announced the first entry. */
  lemma AppendIsAtomic(h0: seq<Image>, history: seq<Image>, l0: seq<seq<Record>>, logs: seq<seq<Record>>,
          before: seq<Record>, after: seq<Record>, t: nat)
    requires Timeline(history, logs) && CommitsLast(h0, history, l0, logs, before, after) && |h0| <= t < |history|
    ensures
      var read := ReadChain(history[t], history[t].header.entryArray);
      if history[t].header.entryArray == 0 then read == Some([])
      else read == Some(Views(if t == |history| - 1 then after else before))
  {
    LogAt(h0, history, l0, logs, before, after, t);
    hide *;
    OpenAnywhere(history[t], if t == |history| - 1 then after else before);
  }

  /** Which log the image after a write of an append commits. */
  lemma LogAt(h0: seq<Image>, history: seq<Image>, l0: seq<seq<Record>>, logs: seq<seq<Record>>,
          before: seq<Record>, after: seq<Record>, t: nat)
    requires Timeline(history, logs) && CommitsLast(h0, history, l0, logs, before, after) && |h0| <= t < |history|
    ensures Readable(history[t], if t == |history| - 1 then after else before)
    ensures |after| == |before| + 1 && after[..|before|] == before
  {
    hide Readable;
    assert Readable(history[t], logs[t]);
  }

  lemma NoneAnnounced(img: Image)
    requires Readable(img, [])
    ensures img.header.entryArray == 0
  {
  }

  lemma ReadAllReadable(img: Image, recs: seq<Record>)
    requires Readable(img, recs) && recs != []
    ensures ReadChain(img, recs[0].arr) == Some(Views(recs))
  {
    ReadAllCommitted(img, recs);
  }

  /** One write commits the entry. Before it the chain from the head array ends with the old log, or there is no
      head array to start from; it changes nothing but the slot of the first global array or the link of the tail. */
  lemma CommitOnce(h0: seq<Image>, history: seq<Image>, l0: seq<seq<Record>>, logs: seq<seq<Record>>,
          before: seq<Record>, after: seq<Record>, t: nat)
    requires Timeline(history, logs) && CommitsLast(h0, history, l0, logs, before, after) && |h0| <= t < |history|
    ensures after != [] && |history| > 1
    ensures
      var last, r := |history| - 1, after[|before|];
      && (if t == last then ReadChain(history[t], after[0].arr) == Some(Views(after))
          else if before == [] then history[t].header.entryArray == 0
          else before[0] == after[0] && ReadChain(history[t], after[0].arr) == Some(Views(before)))
      && history[last] == if before == [] then PutSlots(history[last - 1], r.arr, [r.entry])
                          else LinkArray(history[last - 1], before[|before| - 1].arr, r.arr)
  {
    LogAt(h0, history, l0, logs, before, after, t);
    hide Readable, Timeline, ReadChain, Views, PutSlots, LinkArray;
    assert before != [] ==> after[..|before|][0] == after[0];
    if t == |history| - 1 {
      ReadAllReadable(history[t], after);
    } else if before == [] {
      NoneAnnounced(history[t]);
    } else {
      ReadAllReadable(history[t], before);
    }
  }

  // ----- the entries of a data object -----

  /** The slots of an array up to the first zero. */
  function Used(slots: seq<nat>): (r: seq<nat>)
    ensures |r| <= |slots| && r == slots[..|r|] && (|r| < |slots| ==> slots[|r|] == 0)
  {
    if slots == [] || slots[0] == 0 then [] else [slots[0]] + Used(slots[1..])
  }

  /** The used slots of the chain of arrays that starts at `a`. */
  function ReadArrays(img: Image, a: nat): seq<nat>
    decreases img.end - a
  {
    if a == 0 || a !in img.slots || a !in img.next then []
    else Used(img.slots[a]) + (if a < img.next[a] < img.end then ReadArrays(img, img.next[a]) else [])
  }

  /** The entries of data object `d`: `entry_offset`, then the slots of its arrays. */
  function ReadReferences(img: Image, d: nat): seq<nat>
    requires d in img.info
  {
    if img.info[d].first == 0 then [] else [img.info[d].first] + ReadArrays(img, img.info[d].arr)
  }

  lemma {:induction false} UsedSlots(slots: seq<nat>, xs: seq<nat>, n: nat)
    requires n <= |xs| && forall k :: 0 <= k < |xs| ==> xs[k] != 0
    requires forall k :: 0 <= k < |slots| ==> slots[k] == SlotAt(xs, n + k)
    ensures Used(slots) == if n + |slots| <= |xs| then xs[n..n + |slots|] else xs[n..]
  {
    if slots != [] {
      assert slots[0] == SlotAt(xs, n + 0);
      if n < |xs| {
        assert slots[0] == xs[n];
        hide SlotAt;
        forall k | 0 <= k < |slots| - 1 ensures slots[1..][k] == SlotAt(xs, n + 1 + k) {
          assert slots[1..][k] == slots[k + 1];
        }
        UsedSlots(slots[1..], xs, n + 1);
        if n + |slots| <= |xs| {
          assert xs[n..n + |slots|] == [xs[n]] + xs[n + 1..n + |slots|];
        } else {
          assert xs[n..] == [xs[n]] + xs[n + 1..];
        }
      }
    }
  }

  lemma {:induction false} ReadArraysFrom(img: Image, arrs: seq<nat>, xs: seq<nat>, j: nat)
    requires ArraysOk(img, arrs, xs) && j < |arrs| && forall k :: 0 <= k < |xs| ==> xs[k] != 0
    requires forall i :: 0 <= i < |arrs| ==> 0 < arrs[i] < img.end
    ensures ARRAY_SLOTS * j <= |xs| && ReadArrays(img, arrs[j]) == xs[ARRAY_SLOTS * j..]
    decreases |arrs| - j
  {
    hide Used;
    assert ArrayOk(img, arrs, xs, j);
    UsedSlots(img.slots[arrs[j]], xs, ARRAY_SLOTS * j);
    if j + 1 < |arrs| {
      assert arrs[j] < arrs[j + 1];
      ReadArraysFrom(img, arrs, xs, j + 1);
      assert xs[ARRAY_SLOTS * j..] == xs[ARRAY_SLOTS * j..ARRAY_SLOTS * (j + 1)] + xs[ARRAY_SLOTS * (j + 1)..];
    }
  }

  /** A data object lists exactly the entries of the log that refer to it, oldest first, and counts them. */
  lemma ReferencesAreTheLog(hash: string -> nat, img: Image, s: Shape, recs: seq<Record>, m: Memory, d: nat)
    requires Quiet(hash, img, s, recs, m, 0) && RefsMatch(s, recs) && d in img.objects
             && img.objects[d].kind == DataKind
    ensures d in img.info && ReadReferences(img, d) == RefsIn(recs, d) && img.info[d].count == |RefsIn(recs, d)|
    ensures forall i, j :: 0 <= i < j < |RefsIn(recs, d)| ==> RefsIn(recs, d)[i] < RefsIn(recs, d)[j]
  {
    hide ObjectsOk, Tiled, BucketsOk, FieldsOk, CachesOk, Closed, Counted, Readable, GlobalOwned;
    assert d in s.refs && RefsOk(img, s.refs[d], s.arrs[d], d);
    var refs, arrs := s.refs[d], s.arrs[d];
    forall j | 0 <= j < |arrs| ensures 0 < arrs[j] < img.end {
      assert arrs[j] in s.owner && arrs[j] in img.objects;
    }
    if |refs| > 1 {
      ReadArraysFrom(img, arrs, refs[1..], 0);
      assert refs == [refs[0]] + refs[1..];
    } else if |refs| == 1 {
      assert refs == [refs[0]] + [];
    }
  }

  // ----- tiling -----

  lemma {:induction false} LayoutIncreases(img: Image, layout: seq<nat>, i: nat, j: nat)
    requires Tiled(img, layout) && i < j < |layout|
    ensures layout[i] in img.objects && layout[i] + img.objects[layout[i]].size <= layout[j]
    decreases j
  {
    assert Adjacent(img, layout, i) && Adjacent(img, layout, j - 1);
    if i < j - 1 { LayoutIncreases(img, layout, i, j - 1); }
  }

  /** Two objects never overlap, and every object lies between the header and the end of the file. */
  lemma ObjectsDisjoint(img: Image, layout: seq<nat>, a: nat, b: nat)
    requires Tiled(img, layout) && Placed(img) && a in img.objects && b in img.objects && a < b
    ensures HEADER_SIZE <= a && a + img.objects[a].size <= b && b + img.objects[b].size <= img.end && a % 8 == 0
  {
    var i :| 0 <= i < |layout| && layout[i] == a;
    var j :| 0 <= j < |layout| && layout[j] == b;
    if i < j { LayoutIncreases(img, layout, i, j); } else if j < i { LayoutIncreases(img, layout, j, i); }
  }

  /** No bytes between two neighbouring objects but alignment padding, and none after the last:
      the object after `layout[i]` starts less than 8 bytes past its end. */
  lemma NoGaps(img: Image, layout: seq<nat>, i: nat)
    requires Tiled(img, layout) && i + 1 < |layout|
    ensures layout[i] in img.objects && 0 <= layout[i + 1] - (layout[i] + img.objects[layout[i]].size) < 8
  {
    assert Adjacent(img, layout, i);
  }

  // ----- hash chains and field lists -----

  /** The data objects met by following `next_hash_offset` from `o`. */
  function WalkBucket(img: Image, o: nat): seq<nat>
    decreases img.end - o
  {
    if o == 0 || o !in img.nextHash then []
    else [o] + (if o < img.nextHash[o] < img.end then WalkBucket(img, img.nextHash[o]) else [])
  }

  lemma {:induction false} WalkBucketFrom(img: Image, item: HashItem, bucket: seq<nat>, b: nat, k: nat)
    requires BucketOk(img, item, bucket, b) && Placed(img) && k < |bucket|
    ensures WalkBucket(img, bucket[k]) == bucket[k..]
    decreases |bucket| - k
  {
    BucketStep(img, item, bucket, b, k);
    hide BucketOk, Placed;
    if k + 1 < |bucket| {
      WalkBucketFrom(img, item, bucket, b, k + 1);
      assert bucket[k..] == [bucket[k]] + bucket[k + 1..];
    } else {
      assert bucket[k..] == [bucket[k]] + [];
    }
  }

  lemma BucketStep(img: Image, item: HashItem, bucket: seq<nat>, b: nat, k: nat)
    requires BucketOk(img, item, bucket, b) && Placed(img) && k < |bucket|
    ensures bucket[k] != 0 && bucket[k] in img.nextHash
    ensures img.nextHash[bucket[k]] == if k + 1 < |bucket| then bucket[k + 1] else 0
    ensures k + 1 < |bucket| ==> bucket[k] < bucket[k + 1] < img.end
  {
    assert bucket[k] in img.objects;
    if k + 1 < |bucket| { assert bucket[k + 1] in img.objects; }
  }

  /** Data object `d` is on the chain of bucket `b` exactly when its hash falls into `b`, and then once;
      the table's tail is the last object of the chain. */
  lemma OnOneChain(hash: string -> nat, img: Image, s: Shape, d: nat, b: nat)
    requires Structured(hash, img, s) && d in img.objects && img.objects[d].kind == DataKind && b < DATA_BUCKETS
    ensures d in img.hashes && b < |img.dataTable|
    ensures
      var chain := WalkBucket(img, img.dataTable[b].head);
      && (d in chain <==> BucketOf(img.hashes[d]) == b)
      && (forall i, j :: 0 <= i < j < |chain| ==> chain[i] != chain[j])
      && img.dataTable[b].tail == (if chain == [] then 0 else chain[|chain| - 1])
  {
    hide ObjectsOk, Tiled, ChainsOk, FieldsOk, Closed;
    var bucket := s.buckets[b];
    assert BucketOk(img, img.dataTable[b], bucket, b);
    if bucket != [] {
      WalkBucketFrom(img, img.dataTable[b], bucket, b, 0);
    }
  }

  /** The data objects met by following `next_field_offset` from `o`. */
  function WalkField(img: Image, o: nat): seq<nat>
    decreases o
  {
    if o == 0 || o !in img.nextField then []
    else [o] + (if img.nextField[o] < o then WalkField(img, img.nextField[o]) else [])
  }

  lemma {:induction false} WalkFieldFrom(img: Image, list: seq<nat>, f: nat, k: nat)
    requires ListOk(img, list, f) && Placed(img) && k < |list|
    ensures WalkField(img, list[k]) == list[k..]
    decreases |list| - k
  {
    assert list[k] in img.objects;
    if k + 1 < |list| {
      assert list[k] > list[k + 1];
      WalkFieldFrom(img, list, f, k + 1);
    } else {
      assert WalkField(img, 0) == [];
    }
  }

  /** The list of a field object is its data objects, newest first; each of them carries the field's
      name, and no data object is on two lists. */
  lemma FieldListsData(hash: string -> nat, img: Image, s: Shape, f: nat, d: nat)
    requires Structured(hash, img, s) && f in img.objects && img.objects[f].kind == FieldKind
    requires d in img.objects && img.objects[d].kind == DataKind
    ensures f in img.headData && d in s.fieldOf
    ensures
      var list := WalkField(img, img.headData[f]);
      && (d in list <==> s.fieldOf[d] == f)
      && (d in list ==> FieldName(img, f, d))
      && (forall i, j :: 0 <= i < j < |list| ==> list[i] > list[j])
  {
    hide ObjectsOk, Tiled, ChainsOk, BucketsOk, Closed, FieldName;
    var list := s.lists[f];
    assert ListOk(img, list, f);
    if list != [] { WalkFieldFrom(img, list, f, 0); }
    if d in list {
      var k :| 0 <= k < |list| && list[k] == d;
      assert s.fieldOf[s.lists[f][k]] == f;
    }
  }

  /** Of a closed file: every field object lies between the first and the last one of its bucket in the table of fields,
      and both are field objects of that bucket. */
  lemma FieldTableNames(hash: string -> nat, img: Image, s: Shape, recs: seq<Record>, f: nat)
    requires AtRest(hash, img, s, recs) && f in img.objects && img.objects[f].kind == FieldKind
    ensures f in img.payloads && |img.fieldTable| == FIELD_BUCKETS
    ensures
      var b := hash(img.payloads[f]) % FIELD_BUCKETS;
      var item := img.fieldTable[b];
      item.head <= f <= item.tail && InFieldBucket(hash, img, item.head, b) && InFieldBucket(hash, img, item.tail, b)
  {
    PayloadStored(hash, img, s, recs, Reopened(img), f);
    hide Quiet, LoggedAs;
    var b := hash(img.payloads[f]) % FIELD_BUCKETS;
    assert FieldBucketOk(hash, img, img.fieldTable[b], b) && InFieldBucket(hash, img, f, b);
  }

  // ----- deduplication by hash -----

  /** A field found in the cache reads back as itself exactly when the cached object holds its payload;
      when another payload has the same hash, that one is read instead. */
  lemma DedupReadsBack(hash: string -> nat, img: Image, s: Shape, recs: seq<Record>, m: Memory, key: string,
          value: string)
    requires Quiet(hash, img, s, recs, m, 0) && '=' !in key && hash(Payload(key, value)) in m.dataCache
    ensures
      var o := m.dataCache[hash(Payload(key, value))];
      && o in img.payloads && hash(img.payloads[o]) == hash(Payload(key, value))
      && (ReadData(img, o) == Some((key, value)) <==> img.payloads[o] == Payload(key, value))
  {
    var o := m.dataCache[hash(Payload(key, value))];
    assert ObjectOk(hash, img, o);
    hide Quiet;
    CutPayload(key, value);
  }

  /** Two data objects written in one session never hold the same payload, nor two field objects the same name. */
  lemma StoredOnce(f: JournalFile, o: nat, o': nat)
    requires f.Valid() && o in f.img.objects && o' in f.img.objects && o !in f.prior && o' !in f.prior
    requires f.img.objects[o].kind == f.img.objects[o'].kind && f.img.objects[o].kind in {DataKind, FieldKind}
    ensures o in f.img.payloads && o' in f.img.payloads
    ensures f.img.payloads[o] == f.img.payloads[o'] <==> o == o'
  {
    PayloadStored(f.hash, f.img, f.shape, f.recs, f.Mem(), o);
    PayloadStored(f.hash, f.img, f.shape, f.recs, f.Mem(), o');
    hide Quiet, Timeline, LoggedAs;
    OneForEach(f.hash, f.img, f.prior, f.dataCache, f.fieldCache, o, o');
  }

  lemma PayloadStored(hash: string -> nat, img: Image, s: Shape, recs: seq<Record>, m: Memory, o: nat)
    requires Quiet(hash, img, s, recs, m, 0) && o in img.objects && img.objects[o].kind in {DataKind, FieldKind}
    ensures o in img.payloads
  {
    assert ObjectOk(hash, img, o);
  }

  /** The counters of data and field objects: those there before, and one for each payload and name since. */
  lemma SessionCounts(f: JournalFile)
    requires f.Valid()
    ensures f.header.nData == |OfKind(f.prior, DataKind)| + |f.SessionTexts()|
    ensures f.header.nFields == |OfKind(f.prior, FieldKind)| + |f.SessionNames()|
  {
    hide Quiet, Timeline, LoggedAs, Deduped, WrittenTexts;
    QuietCounts(f.hash, f.img, f.shape, f.recs, f.Mem(), f.prior);
  }

  // ----- write then read -----

  /** The arguments of one `AppendEntry` call. */
  datatype Append = Append(fields: map<string, string>, realtime: nat, monotonic: nat)

  /** The entries a batch of appends adds to a log of `n` entries. */
  function Entries(n: nat, batch: seq<Append>, boot: nat): (r: seq<Entry>)
    ensures |r| == |batch|
  {
    seq(|batch|, i requires 0 <= i < |batch| => Entry(n + i + 1, Stamp(batch[i].realtime, batch[i].monotonic, boot),
        batch[i].fields))
  }

  function BatchTexts(batch: seq<Append>): set<string> {
    if batch == [] then {} else BatchTexts(batch[..|batch| - 1]) + Texts(batch[|batch| - 1].fields)
  }

  function BatchNames(batch: seq<Append>): set<string> {
    if batch == [] then {} else BatchNames(batch[..|batch| - 1]) + batch[|batch| - 1].fields.Keys
  }

  /** Fields whose payloads and names lie in sets on which the hash is injective. */
  ghost predicate Acceptable(a: Append, texts: set<string>, names: set<string>) {
    PlainKeys(a.fields) && Texts(a.fields) <= texts && a.fields.Keys <= names
  }

  ghost predicate AllAcceptable(batch: seq<Append>, texts: set<string>, names: set<string>) {
    forall i :: 0 <= i < |batch| ==> Acceptable(batch[i], texts, names)
  }

  /** The stored payloads and names lie in those sets. */
  ghost predicate StoredIn(img: Image, texts: set<string>, names: set<string>) {
    StoredTexts(img, DataKind) <= texts && StoredTexts(img, FieldKind) <= names
  }

  lemma AcceptableHash(hash: string -> nat, img: Image, a: Append, texts: set<string>, names: set<string>)
    requires Acceptable(a, texts, names) && StoredIn(img, texts, names)
    requires InjectiveOn(hash, texts) && InjectiveOn(hash, names)
    ensures PlainKeys(a.fields) && HashOk(hash, img, a.fields)
  {
  }

  method AppendOne(f: JournalFile, one: Append, ghost texts: set<string>, ghost names: set<string>)
    requires f.Valid() && Acceptable(one, texts, names) && StoredIn(f.img, texts, names) && f.img.end < 0x1_0000_0000
    requires InjectiveOn(f.hash, texts) && InjectiveOn(f.hash, names)
    modifies f
    ensures f.Valid() && StoredIn(f.img, texts, names) && f.bootId == old(f.bootId)
    ensures f.Log() == old(f.Log()) + [Entry(|old(f.Log())| + 1, Stamp(one.realtime, one.monotonic, f.bootId),
            one.fields)]
    ensures f.SessionTexts() == old(f.SessionTexts()) + Texts(one.fields)
    ensures f.SessionNames() == old(f.SessionNames()) + one.fields.Keys
  {
    hide *;
    ghost var a := f.img;
    AcceptableHash(f.hash, a, one, texts, names);
    LogOf(f);
    f.AppendEntry(one.fields, one.realtime, one.monotonic);
    StaysIn(a, f.img, one, texts, names);
  }

  /** Appends a batch, stopping if the file reaches 4 GiB. */
  method AppendBatch(f: JournalFile, batch: seq<Append>, ghost texts: set<string>, ghost names: set<string>)
    returns (n: nat)
    requires f.Valid() && AllAcceptable(batch, texts, names) && StoredIn(f.img, texts, names)
    requires InjectiveOn(f.hash, texts) && InjectiveOn(f.hash, names)
    modifies f
    ensures f.Valid() && StoredIn(f.img, texts, names) && f.bootId == old(f.bootId)
    ensures n <= |batch| && (n == |batch| || f.img.end >= 0x1_0000_0000)
    ensures f.Log() == old(f.Log()) + Entries(|old(f.Log())|, batch[..n], f.bootId)
    ensures f.SessionTexts() == old(f.SessionTexts()) + BatchTexts(batch[..n])
    ensures f.SessionNames() == old(f.SessionNames()) + BatchNames(batch[..n])
    ensures f.header.nData == old(f.header.nData) + New(BatchTexts(batch[..n]), old(f.SessionTexts()))
    ensures f.header.nFields == old(f.header.nFields) + New(BatchNames(batch[..n]), old(f.SessionNames()))
  {
    hide *;
    ghost var log, stored, named := f.Log(), f.SessionTexts(), f.SessionNames();
    n := 0;
    NoTexts(batch);
    NoneYet(log, batch, f.bootId);
    LogOf(f);
    SessionCounts(f);
    while n < |batch| && f.img.end < 0x1_0000_0000
      invariant f.Valid() && StoredIn(f.img, texts, names) && f.bootId == old(f.bootId) && n <= |batch|
      invariant Appended(log, f.Log(), batch, n, f.bootId)
      invariant f.SessionTexts() == stored + BatchTexts(batch[..n])
      invariant f.SessionNames() == named + BatchNames(batch[..n])
      decreases |batch| - n
    {
      ghost var a := f.Log();
      AcceptableAt(batch, n, texts, names);
      AppendOne(f, batch[n], texts, names);
      OneMore(log, a, f.Log(), batch, n, f.bootId);
      MoreTexts(stored, named, batch, n);
      n := n + 1;
    }
    AppendedIs(log, f.Log(), batch, n, f.bootId);
    BatchCounts(f, stored, named, BatchTexts(batch[..n]), BatchNames(batch[..n]));
  }

  lemma BatchCounts(f: JournalFile, stored: set<string>, named: set<string>, texts: set<string>, names: set<string>)
    requires f.Valid() && f.SessionTexts() == stored + texts && f.SessionNames() == named + names
    ensures f.header.nData == |OfKind(f.prior, DataKind)| + |stored| + New(texts, stored)
    ensures f.header.nFields == |OfKind(f.prior, FieldKind)| + |named| + New(names, named)
  {
    hide *;
    SessionCounts(f);
    Union(stored, texts);
    Union(named, names);
  }

  lemma NoTexts(batch: seq<Append>)
    ensures BatchTexts(batch[..0]) == {} && BatchNames(batch[..0]) == {}
  {
  }

  lemma MoreTexts(texts: set<string>, names: set<string>, batch: seq<Append>, n: nat)
    requires n < |batch|
    ensures texts + BatchTexts(batch[..n + 1]) == texts + BatchTexts(batch[..n]) + Texts(batch[n].fields)
    ensures names + BatchNames(batch[..n + 1]) == names + BatchNames(batch[..n]) + batch[n].fields.Keys
  {
    assert batch[..n + 1][..n] == batch[..n];
  }

  lemma AcceptableAt(batch: seq<Append>, n: nat, texts: set<string>, names: set<string>)
    requires AllAcceptable(batch, texts, names) && n < |batch|
    ensures Acceptable(batch[n], texts, names)
  {
  }

  lemma LogOf(f: JournalFile)
    ensures |f.Log()| == |f.recs|
  {
  }

  lemma LogLength(recs: seq<Record>)
    ensures |Views(recs)| == |recs|
  {
  }

  /** `later` is `log` and the entries of the first `n` appends of the batch. */
  ghost predicate Appended(log: seq<Entry>, later: seq<Entry>, batch: seq<Append>, n: nat, boot: nat) {
    n <= |batch| && later == log + Entries(|log|, batch[..n], boot)
  }

  lemma NoneYet(log: seq<Entry>, batch: seq<Append>, boot: nat)
    ensures Appended(log, log, batch, 0, boot)
  {
  }

  lemma AppendedIs(log: seq<Entry>, later: seq<Entry>, batch: seq<Append>, n: nat, boot: nat)
    requires Appended(log, later, batch, n, boot)
    ensures n <= |batch| && later == log + Entries(|log|, batch[..n], boot)
  {
  }

  lemma StaysIn(a: Image, b: Image, one: Append, texts: set<string>, names: set<string>)
    requires StoredIn(a, texts, names) && Acceptable(one, texts, names)
    requires StoredTexts(b, DataKind) <= StoredTexts(a, DataKind) + Texts(one.fields)
    requires StoredTexts(b, FieldKind) <= StoredTexts(a, FieldKind) + one.fields.Keys
    ensures StoredIn(b, texts, names)
  {
  }

  lemma OneMore(log: seq<Entry>, a: seq<Entry>, b: seq<Entry>, batch: seq<Append>, n: nat, boot: nat)
    requires n < |batch| && Appended(log, a, batch, n, boot)
    requires b == a + [Entry(|a| + 1, Stamp(batch[n].realtime, batch[n].monotonic, boot), batch[n].fields)]
    ensures Appended(log, b, batch, n + 1, boot)
  {
  }

  /** Appends made by one process: from opening the file to closing it. */
  datatype Session = Session(boot: nat, batch: seq<Append>)

  /** The log after all sessions: sequence numbers continue from one session to the next. */
  function Logged(sessions: seq<Session>): seq<Entry> {
    if sessions == [] then []
    else
      var last := |sessions| - 1;
      var before := Logged(sessions[..last]);
      before + Entries(|before|, sessions[last].batch, sessions[last].boot)
  }

  ghost predicate SessionsAcceptable(hash: string -> nat, sessions: seq<Session>,
          texts: set<string>, names: set<string>) {
    && InjectiveOn(hash, texts) && InjectiveOn(hash, names)
    && forall i :: 0 <= i < |sessions| ==> AllAcceptable(sessions[i].batch, texts, names)
  }

  /** A file nobody has open, read by a new reader with filters: exactly the matching entries of its
      log, in order, then the end of file. */
  method ReadClosed(hash: string -> nat, disk: Image, ghost shape: Shape, ghost recs: seq<Record>, matches: seq<Match>)
    returns (entries: seq<Entry>)
    requires AtRest(hash, disk, shape, recs)
    ensures entries == Filtered(Views(recs), matches)
  {
    hide Quiet, Readable, View, Matches, RefsMatch;
    AtRestTimeline(hash, disk, shape, recs);
    var reader := new Reader.OpenRead([disk], [recs], 0);
    AddMatches(reader, matches);
    entries := reader.Drain();
    assert reader.Log() == recs && reader.currentSeqnum == |recs|;
    assert Views(recs)[0..|recs|] == Views(recs);
  }

  lemma AtRestTimeline(hash: string -> nat, disk: Image, shape: Shape, recs: seq<Record>)
    requires AtRest(hash, disk, shape, recs)
    ensures Timeline([disk], [recs]) && disk.header.tailSeqnum == |recs|
    ensures disk.header.entryArray == 0 <==> recs == []
  {
    hide Structured, Committed, CachesOk, RefsMatch, GlobalOwned, Counted;
    RestAnnounced(disk, recs);
  }

  lemma RestAnnounced(disk: Image, recs: seq<Record>)
    requires Readable(disk, recs) && HeaderOk(disk.header, recs, 0)
    ensures disk.header.entryArray == 0 <==> recs == []
    ensures Advances(disk.header, disk.header)
  {
    ArraysNonZero(disk, recs);
  }

  /** One session on a closed file: opening it, a batch of appends, closing it. What the file held before is not
      looked for, so each payload and each name of the batch adds one object. */
  method WriteSession(f: JournalFile, session: Session, ghost texts: set<string>, ghost names: set<string>)
    returns (g: JournalFile, full: bool)
    requires f.Valid() && AtRest(f.hash, f.img, f.shape, f.recs) && StoredIn(f.img, texts, names)
    requires InjectiveOn(f.hash, texts) && InjectiveOn(f.hash, names) && AllAcceptable(session.batch, texts, names)
    ensures fresh(g) && (full ==> g.img.end >= 0x1_0000_0000)
    ensures !full ==>
              && g.Valid() && g.hash == f.hash && AtRest(g.hash, g.img, g.shape, g.recs)
              && StoredIn(g.img, texts, names)
              && g.Log() == f.Log() + Entries(|f.Log()|, session.batch, session.boot)
              && g.img.header.nData == f.img.header.nData + |BatchTexts(session.batch)|
              && g.img.header.nFields == f.img.header.nFields + |BatchNames(session.batch)|
  {
    hide Quiet, Views, Texts, InjectiveOn, CommitsLast, PlainKeys, AllAcceptable, Entries, Timeline, Readable, Deduped,
        WrittenTexts, BatchTexts, BatchNames, RefsMatch, HeaderOk, StoredTexts, StoredIn;
    g := new JournalFile.OpenAppend(f.hash, session.boot, f.img, f.shape, f.recs, f.history, f.logs);
    ghost var h := g.header;
    assert g.Log() == f.Log();
    var n := AppendBatch(g, session.batch, texts, names);
    full := n < |session.batch|;
    if !full {
      assert session.batch[..n] == session.batch;
      assert BatchTexts(session.batch) - {} == BatchTexts(session.batch)
             && BatchNames(session.batch) - {} == BatchNames(session.batch);
      SessionCounts(g);
      ghost var stored := g.img;
      g.Sync();
      SessionCounts(g);
      SameStored(stored, g.img, texts, names);
    }
  }

  lemma SameStored(a: Image, b: Image, texts: set<string>, names: set<string>)
    requires StoredIn(a, texts, names) && b.objects == a.objects && b.payloads == a.payloads
    ensures StoredIn(b, texts, names)
  {
  }

  /** Write then read is the identity: sessions of appends, each opening the file the one before closed,
      then a new reader. `full` says that the file reached 4 GiB before all appends were made. */
  method WriteThenRead(hash: string -> nat, boot: nat, sessions: seq<Session>, matches: seq<Match>,
          ghost texts: set<string>, ghost names: set<string>)
    returns (full: bool, size: nat, entries: seq<Entry>)
    requires SessionsAcceptable(hash, sessions, texts, names)
    ensures full ==> size >= 0x1_0000_0000
    ensures !full ==> entries == Filtered(Logged(sessions), matches)
  {
    hide Quiet, Views, Texts, InjectiveOn, CommitsLast, PlainKeys, AllAcceptable, Entries, Timeline, Readable, Deduped,
        WrittenTexts, BatchTexts, BatchNames;
    var f := new JournalFile.Create(hash, boot);
    NewStored(texts, names);
    full, entries := false, [];
    assert sessions[..0] == [] && f.Log() == [] by { LogLength([]); }
    for i := 0 to |sessions|
      invariant f.Valid() && f.hash == hash && AtRest(hash, f.img, f.shape, f.recs) && StoredIn(f.img, texts, names)
      invariant f.Log() == Logged(sessions[..i]) && !full
    {
      f, full := WriteSession(f, sessions[i], texts, names);
      if full {
        size := f.img.end;
        return;
      }
      assert sessions[..i + 1][..i] == sessions[..i];
    }
    size := f.img.end;
    assert sessions[..|sessions|] == sessions;
    entries := ReadClosed(hash, f.img, f.shape, f.recs, matches);
  }

  lemma NewStored(texts: set<string>, names: set<string>)
    ensures StoredIn(NewImage(), texts, names)
  {
  }

  /** What the header counts of a kind of object. */
  function CountIn(h: Header, k: Kind): nat {
    match k
    case DataKind => h.nData
    case FieldKind => h.nFields
    case EntryKind => h.nEntries
    case ArrayKind => h.nEntryArrays
    case _ => 1
  }

  /** Between sessions the header accounts for the whole file. */
  lemma HeaderAccounts(hash: string -> nat, img: Image, s: Shape, recs: seq<Record>)
    requires AtRest(hash, img, s, recs)
    ensures
      var h := img.header;
      && h.nObjects == |img.objects| == 2 + h.nData + h.nFields + h.nEntries + h.nEntryArrays
      && (forall k :: k in [DataKind, FieldKind, EntryKind, ArrayKind] ==> |OfKind(img.objects, k)| == CountIn(h, k))
      && h.nEntries == |recs| == h.tailSeqnum
      && (if recs == [] then
            h.entryArray == h.tailEntry == h.headSeqnum == 0
          else
            var first, last := recs[0], recs[|recs| - 1];
            && h.headSeqnum == 1 && h.headRealtime == first.stamp.realtime && h.entryArray == first.arr
            && h.tailStamp == last.stamp && h.tailEntry == last.entry && h.tailArray == last.arr % 0x1_0000_0000)
      && h.tailObject in img.objects && (forall o :: o in img.objects ==> o <= h.tailObject)
      && HEADER_SIZE + h.arenaSize == img.end == h.tailObject + img.objects[h.tailObject].size
  {
    hide Quiet;
    RestTiled(hash, img, s, recs);
    var n := |s.layout|;
    forall o | o in img.objects ensures o <= img.header.tailObject {
      var i :| 0 <= i < n && s.layout[i] == o;
      if i < n - 1 { LayoutIncreases(img, s.layout, i, n - 1); }
    }
  }

  lemma RestTiled(hash: string -> nat, img: Image, s: Shape, recs: seq<Record>)
    requires AtRest(hash, img, s, recs)
    ensures Tiled(img, s.layout) && Counted(img, img.header, 0)
  {
  }

  // ----- reading while a writer appends -----

  /** A reader opened on a journal that has entries, refreshing the header or asking for the next entry in
      any order while writes go on: every entry is looked at once, in order, and decoded once, and those that
      match the filters are returned; `atEnd`, that the last step was a `Next` that found no entry, means that
      all entries of its header were looked at. */
  method Follow(timeline: seq<Image>, ghost logs: seq<seq<Record>>, start: nat, matches: seq<Match>, refresh: seq<bool>)
    returns (reader: Reader, entries: seq<Entry>, atEnd: bool)
    requires Timeline(timeline, logs) && start < |timeline| && timeline[start].header.entryArray != 0
    ensures fresh(reader) && reader.Valid() && reader.Behind() && reader.timeline == timeline && reader.logs == logs
    ensures reader.currentSeqnum <= |reader.Log()|
    ensures entries == Filtered(Views(reader.Log())[..reader.currentSeqnum], matches)
    ensures reader.decodedEntries == reader.currentSeqnum
    ensures atEnd ==> reader.header.tailSeqnum <= reader.currentSeqnum
  {
    hide Timeline, View, Matches;
    LastReadable(timeline, logs);
    reader := new Reader.OpenRead(timeline, logs, start);
    AnnouncesMore(timeline, logs, start, reader.now);
    AddMatches(reader, matches);
    entries, atEnd := [], false;
    for i := 0 to |refresh|
      invariant fresh(reader) && reader.Valid() && reader.Behind() && reader.timeline == timeline && reader.logs == logs
      invariant reader.matches == matches && reader.header.entryArray != 0 && !reader.Stuck()
      invariant reader.Pos() == reader.currentSeqnum == reader.decodedEntries <= |reader.Log()|
      invariant entries == Filtered(Views(reader.Log())[..reader.currentSeqnum], matches)
      invariant atEnd ==> reader.header.tailSeqnum <= reader.currentSeqnum
    {
      ghost var log, from := reader.Log(), reader.currentSeqnum;
      if refresh[i] {
        reader.Refresh();
        atEnd := false;
        SameViews(log, reader.Log());
        assert Views(log)[..from] == Views(reader.Log())[..from];
      } else {
        var r := reader.Next();
        atEnd := r.Eof?;
        if r.Found? { entries := entries + [r.entry]; }
        FilteredNext(log, reader.Log(), from, reader.currentSeqnum, matches, r.Found?);
      }
    }
  }

  /** What a call of `Next` that went from `from` to `to` adds to the entries returned so far. */
  lemma FilteredNext(before: seq<Record>, log: seq<Record>, from: nat, to: nat, matches: seq<Match>, found: bool)
    requires before <= log && from <= |before| && from <= to <= |log|
             && (found ==> from < to && Matches(View(log, to - 1), matches))
    requires forall i :: from <= i < (if found then to - 1 else to) ==> !Matches(View(log, i), matches)
    ensures Filtered(Views(log)[..to], matches)
            == Filtered(Views(before)[..from], matches) + (if found then [View(log, to - 1)] else [])
  {
    hide View, Matches;
    SameViews(before, log);
    assert Views(before)[..from] == Views(log)[0..from] && Views(log)[..to] == Views(log)[0..to];
    if found { FilteredStep(log, 0, from, to, matches); } else { FilteredRest(log, 0, from, to, matches); }
  }

  method AddMatches(reader: Reader, matches: seq<Match>)
    requires reader.Valid() && reader.matches == []
    modifies reader`matches
    ensures reader.Valid() && reader.matches == matches
  {
    for k := 0 to |matches|
      invariant reader.Valid() && reader.matches == matches[..k]
    {
      reader.AddMatch(matches[k].field, matches[k].value);
    }
    assert matches[..|matches|] == matches;
  }

  /** A cursor taken from the last entry returned leads another reader, opened now or later, to the next one. */
  method Resume(reader: Reader, boot: string) returns (later: Reader, r: Outcome)
    requires reader.Valid() && reader.currentSeqnum <= |reader.Log()| && reader.currentSeqnum < UINT64_LIMIT
    ensures fresh(later) && later.Valid() && later.logs == reader.logs && reader.Log() <= later.Log()
    ensures r.Found? ==> reader.currentSeqnum < |later.Log()| && r.entry == View(later.Log(), reader.currentSeqnum)
    ensures r.Eof? ==> later.header.tailSeqnum <= reader.currentSeqnum || later.header.entryArray == 0
    ensures !r.Failed?
  {
    hide Timeline, View;
    var cursor := FormatCursor(reader.currentSeqnum, boot);
    CursorRoundTrip(reader.currentSeqnum, boot);
    LastReadable(reader.timeline, reader.logs);
    later := new Reader.OpenRead(reader.timeline, reader.logs, reader.now);
    LogsGrow(reader.timeline, reader.logs, reader.now, later.now);
    var ok := later.SeekCursor(cursor);
    ghost var log := later.Log();
    r := later.NextEntry();
  }
}
