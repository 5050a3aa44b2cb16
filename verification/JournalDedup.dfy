/** Deduplication within one session of a writer: which objects it has written, by what they hold. */
module JournalDedup {
  import opened JournalImage
  import opened JournalShape
  import opened JournalIndex
  import opened JournalWrites
  import opened JournalExtend
  import opened JournalQuiet
  import opened JournalLinks
  import opened JournalAppend

  /** The objects of a kind that are in the file and were not when the session began. */
  ghost function Written(img: Image, prior: map<nat, Object>, kind: Kind): set<nat> {
    set o | o in img.objects && o !in prior && img.objects[o].kind == kind && o in img.payloads
  }

  ghost function WrittenTexts(img: Image, prior: map<nat, Object>, kind: Kind): set<string> {
    set o | o in Written(img, prior, kind) :: img.payloads[o]
  }

  /** A cache knows exactly the objects written in this session, each by the hash of what it holds. */
  ghost predicate CacheExact(hash: string -> nat, img: Image, prior: map<nat, Object>, kind: Kind,
          cache: map<nat, nat>) {
    && (forall o :: o in Written(img, prior, kind) ==>
          hash(img.payloads[o]) in cache && cache[hash(img.payloads[o])] == o)
    && (forall h :: h in cache ==> cache[h] in Written(img, prior, kind) && hash(img.payloads[cache[h]]) == h)
  }

  /** Both caches are exact, and the name of every payload written has been written too. */
  ghost predicate Deduped(hash: string -> nat, img: Image, prior: map<nat, Object>, dataCache: map<nat, nat>,
          fieldCache: map<nat, nat>) {
    && (forall o :: o in prior ==> o in img.objects && img.objects[o] == prior[o])
    && CacheExact(hash, img, prior, DataKind, dataCache) && CacheExact(hash, img, prior, FieldKind, fieldCache)
    && forall t :: t in WrittenTexts(img, prior, DataKind) ==>
         Cut(t).Some? && Cut(t).value.0 in WrittenTexts(img, prior, FieldKind)
  }

  /** No two objects written in one session hold the same. */
  lemma OneForEach(hash: string -> nat, img: Image, prior: map<nat, Object>, dataCache: map<nat, nat>,
          fieldCache: map<nat, nat>, o: nat, o': nat)
    requires Deduped(hash, img, prior, dataCache, fieldCache)
    requires
      || (o in Written(img, prior, DataKind) && o' in Written(img, prior, DataKind))
      || (o in Written(img, prior, FieldKind) && o' in Written(img, prior, FieldKind))
    ensures img.payloads[o] == img.payloads[o'] <==> o == o'
  {
  }

  lemma {:induction false} SameSize<T(!new)>(os: set<nat>, f: map<nat, T>, image: set<T>)
    requires os <= f.Keys && forall o, o' :: o in os && o' in os && f[o] == f[o'] ==> o == o'
    requires image == set o | o in os :: f[o]
    ensures |os| == |image|
  {
    if os != {} {
      var o :| o in os;
      assert image - {f[o]} == set p | p in os - {o} :: f[p];
      SameSize(os - {o}, f, image - {f[o]});
    }
  }

  /** As many objects of a kind have been added in this session as there are different things they hold. */
  lemma CountsWritten(hash: string -> nat, img: Image, prior: map<nat, Object>, kind: Kind, cache: map<nat, nat>)
    requires CacheExact(hash, img, prior, kind, cache)
    requires forall o :: o in OfKind(img.objects, kind) ==> o in img.payloads
    requires forall o :: o in prior ==> o in img.objects && img.objects[o] == prior[o]
    ensures |OfKind(img.objects, kind)| == |OfKind(prior, kind)| + |WrittenTexts(img, prior, kind)|
  {
    hide CacheExact, Written, WrittenTexts, OfKind;
    WrittenOnce(hash, img, prior, kind, cache);
    SameSize(Written(img, prior, kind), img.payloads, WrittenTexts(img, prior, kind));
    KindSplit(img, prior, kind);
  }

  lemma WrittenOnce(hash: string -> nat, img: Image, prior: map<nat, Object>, kind: Kind, cache: map<nat, nat>)
    requires CacheExact(hash, img, prior, kind, cache)
    ensures
      var w := Written(img, prior, kind);
      && w <= img.payloads.Keys && WrittenTexts(img, prior, kind) == (set o | o in w :: img.payloads[o])
      && forall o, o' :: o in w && o' in w && img.payloads[o] == img.payloads[o'] ==> o == o'
  {
  }

  lemma KindSplit(img: Image, prior: map<nat, Object>, kind: Kind)
    requires forall o :: o in OfKind(img.objects, kind) ==> o in img.payloads
    requires forall o :: o in prior ==> o in img.objects && img.objects[o] == prior[o]
    ensures |OfKind(img.objects, kind)| == |OfKind(prior, kind)| + |Written(img, prior, kind)|
  {
    var w := Written(img, prior, kind);
    assert OfKind(prior, kind) !! w;
    assert OfKind(img.objects, kind) == OfKind(prior, kind) + w;
  }

  /** The counters of data and field objects. */
  lemma QuietCounts(hash: string -> nat, img: Image, s: Shape, recs: seq<Record>, m: Memory, prior: map<nat, Object>)
    requires Quiet(hash, img, s, recs, m, 0) && Deduped(hash, img, prior, m.dataCache, m.fieldCache)
    ensures m.header.nData == |OfKind(prior, DataKind)| + |WrittenTexts(img, prior, DataKind)|
    ensures m.header.nFields == |OfKind(prior, FieldKind)| + |WrittenTexts(img, prior, FieldKind)|
  {
    hide Closed, Placed, Tiled, ChainsOk, BucketsOk, FieldsOk, Readable, GlobalOwned, CachesOk, CacheExact,
        WrittenTexts;
    forall o | o in OfKind(img.objects, DataKind) || o in OfKind(img.objects, FieldKind) ensures o in img.payloads {
      assert ObjectOk(hash, img, o);
    }
    CountsWritten(hash, img, prior, DataKind, m.dataCache);
    CountsWritten(hash, img, prior, FieldKind, m.fieldCache);
  }

  /** How many of `more` are not there before. */
  function New(more: set<string>, before: set<string>): nat { |more - before| }

  lemma Union(before: set<string>, more: set<string>)
    ensures |before + more| == |before| + New(more, before)
  {
    assert before + more == before + (more - before);
  }

  /** A cache has a hash exactly if what is hashed was written in this session, and then leads to it. */
  lemma CacheKnows(hash: string -> nat, img: Image, prior: map<nat, Object>, kind: Kind, cache: map<nat, nat>,
          text: string, texts: set<string>)
    requires CacheExact(hash, img, prior, kind, cache)
    requires InjectiveOn(hash, texts) && Within(img, kind, texts) && text in texts
    ensures hash(text) in cache <==> text in WrittenTexts(img, prior, kind)
    ensures hash(text) in cache ==>
              cache[hash(text)] in Written(img, prior, kind) && img.payloads[cache[hash(text)]] == text
  {
    if hash(text) in cache {
      var o := cache[hash(text)];
      assert img.payloads[o] in texts && img.payloads[o] in WrittenTexts(img, prior, kind);
    }
  }

  lemma NameKnown(hash: string -> nat, img: Image, prior: map<nat, Object>, dataCache: map<nat, nat>,
          fieldCache: map<nat, nat>, name: string, texts: set<string>, names: set<string>)
    requires Deduped(hash, img, prior, dataCache, fieldCache) && NoClash(hash, img, texts, names) && name in names
    ensures hash(name) in fieldCache <==> name in WrittenTexts(img, prior, FieldKind)
    ensures hash(name) in fieldCache ==>
              && fieldCache[hash(name)] in Written(img, prior, FieldKind)
              && WrittenTexts(img, prior, FieldKind) == WrittenTexts(img, prior, FieldKind) + {name}
  {
    CacheKnows(hash, img, prior, FieldKind, fieldCache, name, names);
  }

  lemma TextKnown(hash: string -> nat, img: Image, prior: map<nat, Object>, dataCache: map<nat, nat>,
          fieldCache: map<nat, nat>, text: string, texts: set<string>, names: set<string>)
    requires Deduped(hash, img, prior, dataCache, fieldCache) && NoClash(hash, img, texts, names) && text in texts
    ensures hash(text) in dataCache <==> text in WrittenTexts(img, prior, DataKind)
    ensures hash(text) in dataCache ==>
              && dataCache[hash(text)] in Written(img, prior, DataKind)
              && WrittenTexts(img, prior, DataKind) == WrittenTexts(img, prior, DataKind) + {text}
              && Cut(text).Some?
              && WrittenTexts(img, prior, FieldKind) == WrittenTexts(img, prior, FieldKind) + {Cut(text).value.0}
  {
    CacheKnows(hash, img, prior, DataKind, dataCache, text, texts);
  }

  // ----- what operations do to it -----

  lemma WrittenSame(a: Image, b: Image, prior: map<nat, Object>, kind: Kind)
    requires b.objects == a.objects && b.payloads == a.payloads
    ensures Written(b, prior, kind) == Written(a, prior, kind)
    ensures WrittenTexts(b, prior, kind) == WrittenTexts(a, prior, kind)
  {
  }

  lemma CacheSame(hash: string -> nat, a: Image, b: Image, prior: map<nat, Object>, kind: Kind, cache: map<nat, nat>)
    requires CacheExact(hash, a, prior, kind, cache) && b.objects == a.objects && b.payloads == a.payloads
    ensures CacheExact(hash, b, prior, kind, cache)
  {
    WrittenSame(a, b, prior, kind);
    hide Written;
  }

  /** A header, table or link written. */
  lemma DedupedSame(hash: string -> nat, a: Image, b: Image, prior: map<nat, Object>, dataCache: map<nat, nat>,
          fieldCache: map<nat, nat>)
    requires Deduped(hash, a, prior, dataCache, fieldCache) && b.objects == a.objects && b.payloads == a.payloads
    ensures Deduped(hash, b, prior, dataCache, fieldCache)
    ensures Written(b, prior, DataKind) == Written(a, prior, DataKind)
    ensures Written(b, prior, FieldKind) == Written(a, prior, FieldKind)
    ensures WrittenTexts(b, prior, DataKind) == WrittenTexts(a, prior, DataKind)
    ensures WrittenTexts(b, prior, FieldKind) == WrittenTexts(a, prior, FieldKind)
  {
    hide CacheExact, Written, WrittenTexts;
    WrittenSame(a, b, prior, DataKind);
    WrittenSame(a, b, prior, FieldKind);
    CacheSame(hash, a, b, prior, DataKind, dataCache);
    CacheSame(hash, a, b, prior, FieldKind, fieldCache);
  }

  /** The entry and its references written. */
  lemma QuietKept(hash: string -> nat, a: Image, s: Shape, recs: seq<Record>, m: Memory, b: Image,
          prior: map<nat, Object>)
    requires Quiet(hash, a, s, recs, m, 0) && Deduped(hash, a, prior, m.dataCache, m.fieldCache)
    requires Keeps(a, b) && b.payloads == a.payloads
    ensures Deduped(hash, b, prior, m.dataCache, m.fieldCache)
    ensures WrittenTexts(b, prior, DataKind) == WrittenTexts(a, prior, DataKind)
    ensures WrittenTexts(b, prior, FieldKind) == WrittenTexts(a, prior, FieldKind)
    ensures FieldTableOk(hash, a, m.fieldTable) ==> FieldTableOk(hash, b, m.fieldTable)
  {
    if FieldTableOk(hash, a, m.fieldTable) { FieldTableKept(hash, a, s, recs, m, b); }
    assert Closed(a);
    hide Quiet, Closed, Deduped, WrittenTexts;
    DedupedKept(hash, a, b, prior, m.dataCache, m.fieldCache);
  }

  /** Nothing written but entries, arrays and links. */
  lemma DedupedKept(hash: string -> nat, a: Image, b: Image, prior: map<nat, Object>, dataCache: map<nat, nat>,
          fieldCache: map<nat, nat>)
    requires Deduped(hash, a, prior, dataCache, fieldCache) && Closed(a) && b.payloads == a.payloads
    requires forall o :: o in a.objects ==> o in b.objects && b.objects[o] == a.objects[o]
    ensures Deduped(hash, b, prior, dataCache, fieldCache)
    ensures forall k ::
              Written(b, prior, k) == Written(a, prior, k) && WrittenTexts(b, prior, k) == WrittenTexts(a, prior, k)
  {
    forall k ensures Written(b, prior, k) == Written(a, prior, k) {}
  }

  /** `b` is `a` with one more object of a kind that holds `text`, as far as objects and payloads go. */
  ghost predicate Adds(a: Image, b: Image, o: nat, kind: Kind, text: string) {
    && o !in a.objects && o !in a.payloads
    && o in b.objects && b.objects[o].kind == kind && b.objects == a.objects[o := b.objects[o]]
    && b.payloads == a.payloads[o := text]
  }

  lemma AddsWritten(a: Image, b: Image, prior: map<nat, Object>, o: nat, kind: Kind, text: string, k: Kind)
    requires Adds(a, b, o, kind, text) && o !in prior
    ensures Written(b, prior, k) == Written(a, prior, k) + (if k == kind then {o} else {})
    ensures WrittenTexts(b, prior, k) == WrittenTexts(a, prior, k) + (if k == kind then {text} else {})
  {
    var w, w' := Written(a, prior, k), Written(b, prior, k);
    assert w' == w + (if k == kind then {o} else {});
    forall p | p in w ensures b.payloads[p] == a.payloads[p] {}
    if k == kind {
      forall t | t in WrittenTexts(a, prior, k) + {text} ensures t in WrittenTexts(b, prior, k) {
        if t == text { assert b.payloads[o] == t && o in w'; }
        else { var p :| p in w && a.payloads[p] == t; assert p in w' && b.payloads[p] == t; }
      }
    }
  }

  lemma AddsCached(hash: string -> nat, a: Image, b: Image, prior: map<nat, Object>, cache: map<nat, nat>, o: nat,
          kind: Kind, text: string)
    requires Adds(a, b, o, kind, text) && o !in prior && CacheExact(hash, a, prior, kind, cache)
    requires hash(text) !in cache
    ensures CacheExact(hash, b, prior, kind, cache[hash(text) := o])
  {
    AddsWritten(a, b, prior, o, kind, text, kind);
  }

  lemma AddsOther(hash: string -> nat, a: Image, b: Image, prior: map<nat, Object>, cache: map<nat, nat>, o: nat,
          kind: Kind, text: string, k: Kind)
    requires Adds(a, b, o, kind, text) && o !in prior && CacheExact(hash, a, prior, k, cache) && k != kind
    ensures CacheExact(hash, b, prior, k, cache)
  {
    AddsWritten(a, b, prior, o, kind, text, k);
  }

  lemma AddFieldAdds(a: Image, name: string, h: nat)
    requires Placed(a) && Closed(a)
    ensures Adds(a, AddField(a, name, h), Align8(a.end), FieldKind, name)
  {
    AddFieldExtends(a, name, h);
  }

  lemma IndexedAdds(a: Image, b: Image, c: Image, o: nat, data: string, h: nat, f: nat)
    requires Indexed(a, b, c, o, data, h, f) && Closed(a)
    ensures Adds(a, c, o, DataKind, data)
  {
    NewObject(a, b, o);
  }

  /** A new field object, entered in the cache. */
  lemma NameAdded(hash: string -> nat, a: Image, b: Image, prior: map<nat, Object>, dataCache: map<nat, nat>,
          fieldCache: map<nat, nat>, o: nat, name: string)
    requires Deduped(hash, a, prior, dataCache, fieldCache) && Adds(a, b, o, FieldKind, name)
    requires hash(name) !in fieldCache
    ensures Deduped(hash, b, prior, dataCache, fieldCache[hash(name) := o]) && o in Written(b, prior, FieldKind)
    ensures WrittenTexts(b, prior, DataKind) == WrittenTexts(a, prior, DataKind)
    ensures WrittenTexts(b, prior, FieldKind) == WrittenTexts(a, prior, FieldKind) + {name}
  {
    hide CacheExact, Written, WrittenTexts;
    AddsWritten(a, b, prior, o, FieldKind, name, DataKind);
    AddsWritten(a, b, prior, o, FieldKind, name, FieldKind);
    AddsCached(hash, a, b, prior, fieldCache, o, FieldKind, name);
    AddsOther(hash, a, b, prior, dataCache, o, FieldKind, name, DataKind);
  }

  /** A new data object, entered in the cache; the object of its name is already there. */
  lemma TextAdded(hash: string -> nat, a: Image, b: Image, prior: map<nat, Object>, dataCache: map<nat, nat>,
          fieldCache: map<nat, nat>, o: nat, text: string)
    requires Deduped(hash, a, prior, dataCache, fieldCache) && Adds(a, b, o, DataKind, text)
    requires hash(text) !in dataCache && Cut(text).Some?
    requires Cut(text).value.0 in WrittenTexts(a, prior, FieldKind)
    ensures Deduped(hash, b, prior, dataCache[hash(text) := o], fieldCache) && o in Written(b, prior, DataKind)
    ensures WrittenTexts(b, prior, DataKind) == WrittenTexts(a, prior, DataKind) + {text}
    ensures WrittenTexts(b, prior, FieldKind) == WrittenTexts(a, prior, FieldKind)
  {
    hide CacheExact, Written, WrittenTexts;
    AddsWritten(a, b, prior, o, DataKind, text, DataKind);
    AddsWritten(a, b, prior, o, DataKind, text, FieldKind);
    AddsCached(hash, a, b, prior, dataCache, o, DataKind, text);
    AddsOther(hash, a, b, prior, fieldCache, o, DataKind, text, FieldKind);
  }

  // ----- the hash table of fields -----

  ghost predicate IsField(img: Image, f: nat) {
    f in img.objects && img.objects[f].kind == FieldKind && f in img.payloads
  }

  /** The same field objects, each with the same name. */
  ghost predicate SameFields(a: Image, b: Image) {
    forall f: nat :: IsField(a, f) == IsField(b, f) && (IsField(a, f) ==> b.payloads[f] == a.payloads[f])
  }

  lemma SameFieldTable(hash: string -> nat, a: Image, b: Image, table: seq<HashItem>)
    requires FieldTableOk(hash, a, table) && SameFields(a, b)
    ensures FieldTableOk(hash, b, table)
  {
    forall i | 0 <= i < |table| ensures FieldBucketOk(hash, b, table[i], i) {
      assert FieldBucketOk(hash, a, table[i], i);
      forall f: nat ensures InFieldBucket(hash, b, f, i) <==> InFieldBucket(hash, a, f, i) {
        assert IsField(a, f) == IsField(b, f);
      }
    }
  }

  lemma FieldTableSame(hash: string -> nat, a: Image, b: Image, table: seq<HashItem>)
    requires FieldTableOk(hash, a, table) && b.objects == a.objects && b.payloads == a.payloads
    ensures FieldTableOk(hash, b, table)
  {
    hide FieldTableOk;
    SameFieldTable(hash, a, b, table);
  }

  lemma FieldTableKept(hash: string -> nat, a: Image, s: Shape, recs: seq<Record>, m: Memory, b: Image)
    requires Quiet(hash, a, s, recs, m, 0) && FieldTableOk(hash, a, m.fieldTable)
    requires Keeps(a, b) && b.payloads == a.payloads
    ensures FieldTableOk(hash, b, m.fieldTable)
  {
    assert Closed(a);
    hide Quiet, FieldTableOk;
    SameFieldTable(hash, a, b, m.fieldTable);
  }

  lemma DataKeepsTable(hash: string -> nat, a: Image, b: Image, table: seq<HashItem>, o: nat, text: string)
    requires FieldTableOk(hash, a, table) && Adds(a, b, o, DataKind, text)
    ensures FieldTableOk(hash, b, table)
  {
    hide FieldTableOk;
    SameFieldTable(hash, a, b, table);
  }

  /** A new field object becomes the last of its bucket. */
  lemma FieldLinked(hash: string -> nat, a: Image, b: Image, table: seq<HashItem>, o: nat, name: string)
    requires FieldTableOk(hash, a, table) && Adds(a, b, o, FieldKind, name) && o > 0
    requires forall p :: p in a.objects ==> p < o
    ensures
      var idx := hash(name) % FIELD_BUCKETS;
      FieldTableOk(hash, b, table[idx := LinkTail(table[idx], o)])
  {
    var idx := hash(name) % FIELD_BUCKETS;
    var table' := table[idx := LinkTail(table[idx], o)];
    forall i | 0 <= i < |table'| ensures FieldBucketOk(hash, b, table'[i], i) {
      assert FieldBucketOk(hash, a, table[i], i);
      forall f | InFieldBucket(hash, b, f, i) ensures f == o || InFieldBucket(hash, a, f, i) {}
      assert InFieldBucket(hash, b, o, idx);
    }
  }

  lemma BeforeNext(hash: string -> nat, img: Image, s: Shape, recs: seq<Record>, m: Memory)
    requires Quiet(hash, img, s, recs, m, 0)
    ensures Align8(img.end) > 0 && forall p :: p in img.objects ==> p < Align8(img.end)
  {
    assert Placed(img) && Tiled(img, s.layout);
  }

  /** A field object written and linked. */
  lemma FieldAdded(hash: string -> nat, a: Image, s: Shape, recs: seq<Record>, m: Memory, c: Image,
          prior: map<nat, Object>, name: string)
    requires Quiet(hash, a, s, recs, m, 0) && Deduped(hash, a, prior, m.dataCache, m.fieldCache)
    requires FieldTableOk(hash, a, m.fieldTable) && hash(name) !in m.fieldCache
    requires
      var b, idx, o := AddField(a, name, hash(name)), hash(name) % FIELD_BUCKETS, Align8(a.end);
      Grows(a, b, 0) && c == b.(fieldTable := m.fieldTable[idx := LinkTail(m.fieldTable[idx], o)])
    ensures
      var o := Align8(a.end);
      && Deduped(hash, c, prior, m.dataCache, m.fieldCache[hash(name) := o]) && FieldTableOk(hash, c, c.fieldTable)
      && o in Written(c, prior, FieldKind) && o !in a.objects && Grows(a, c, 0)
    ensures WrittenTexts(c, prior, DataKind) == WrittenTexts(a, prior, DataKind)
    ensures WrittenTexts(c, prior, FieldKind) == WrittenTexts(a, prior, FieldKind) + {name}
  {
    var b, o := AddField(a, name, hash(name)), Align8(a.end);
    var cache := m.fieldCache[hash(name) := o];
    QuietFresh(hash, a, s, recs, m, 0);
    BeforeNext(hash, a, s, recs, m);
    AddFieldAdds(a, name, hash(name));
    hide Quiet, Deduped, FieldTableOk, Written, WrittenTexts, AddField, Grows, Fresh, Placed, Closed;
    FieldLinked(hash, a, b, m.fieldTable, o, name);
    NameAdded(hash, a, b, prior, m.dataCache, m.fieldCache, o, name);
    GrowsFieldTable(a, b, c);
    DedupedSame(hash, b, c, prior, m.dataCache, cache);
    FieldTableSame(hash, b, c, c.fieldTable);
  }

  /** When a session begins, nothing has been written in it. */
  lemma DedupedAtOpen(hash: string -> nat, img: Image)
    ensures Deduped(hash, img, img.objects, map[], map[])
    ensures forall k :: Written(img, img.objects, k) == {} && WrittenTexts(img, img.objects, k) == {}
  {
    forall k ensures Written(img, img.objects, k) == {} {}
  }
}
