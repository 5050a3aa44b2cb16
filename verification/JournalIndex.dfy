/** Adding data and field objects keeps the hash buckets and the field lists. */
module JournalIndex {
  import opened JournalImage
  import opened JournalShape
  import opened JournalWrites
  import opened JournalExtend

  /** The structure of the whole file, at a point where no object is half written. */
  ghost predicate Structured(hash: string -> nat, img: Image, s: Shape) {
    && ObjectsOk(hash, img) && Closed(img) && Placed(img) && Tiled(img, s.layout)
    && ChainsOk(img, s) && BucketsOk(img, img.dataTable, s.buckets) && FieldsOk(img, s)
  }

  // ----- a new field object -----

  function FieldShape(s: Shape, o: nat): Shape { s.(layout := s.layout + [o], lists := s.lists[o := []]) }

  lemma NewFieldLists(hash: string -> nat, a: Image, b: Image, o: nat, s: Shape)
    requires Extends(a, b, o) && FieldsOk(a, s) && Closed(a)
    requires b.objects[o].kind == FieldKind && o in b.headData && b.headData[o] == 0
    ensures FieldsOk(b, FieldShape(s, o))
  {
    hide Extends, Closed, ListOk;
    NewObject(a, b, o);
    NoData(b, o);
    var s' := FieldShape(s, o);
    forall f | f in s'.lists ensures ListOk(b, s'.lists[f], f) {
      if f != o { ListExtend(a, b, o, s.lists[f], f); }
    }
  }

  lemma NoData(img: Image, f: nat)
    requires f in img.headData && img.headData[f] == 0
    ensures ListOk(img, [], f)
  {
  }

  lemma AddFieldStructured(hash: string -> nat, a: Image, b: Image, o: nat, s: Shape, name: string)
    requires Structured(hash, a, s)
    requires o == Align8(a.end) && b.dataTable == a.dataTable
    requires Extends(a, b, o) && b.objects[o] == Object(FieldKind, FIELD_HEADER + |name|)
    requires ObjectOk(hash, b, o) && b.headData[o] == 0
    ensures Structured(hash, b, FieldShape(s, o))
  {
    hide ObjectsOk, Closed, Placed, Tiled, ChainsOk, BucketsOk, FieldsOk;
    LayoutExtend(a, b, o, s.layout);
    ObjectsExtend(hash, a, b, o);
    ClosedExtend(a, b, o);
    ChainsExtend(a, b, o, s);
    ChainsShape(b, s, FieldShape(s, o));
    BucketsExtend(a, b, o, a.dataTable, s.buckets);
    NewFieldLists(hash, a, b, o, s);
  }

  lemma ChainsShape(img: Image, s: Shape, s': Shape)
    requires ChainsOk(img, s) && s'.refs == s.refs && s'.arrs == s.arrs && s'.owner == s.owner
    ensures ChainsOk(img, s')
  {
  }

  // ----- a new data object -----

  /** Linking `o` as the new tail of a bucket. */
  function LinkTail(item: HashItem, o: nat): HashItem {
    HashItem(if item.head == 0 then o else item.head, o)
  }

  /** `b` adds a data object at `o`; `c` also links it as the head of field `f` and the tail of its bucket. */
  ghost predicate Indexed(a: Image, b: Image, c: Image, o: nat, payload: string, hash: nat, f: nat) {
    && Extends(a, b, o) && b.dataTable == a.dataTable && |a.dataTable| == DATA_BUCKETS
    && f in a.headData
    && b.objects[o] == Object(DataKind, DATA_HEADER + |payload|)
    && o in b.payloads && b.payloads[o] == payload && o in b.hashes && b.hashes[o] == hash
    && o in b.nextHash && b.nextHash[o] == 0 && o in b.nextField && b.nextField[o] == a.headData[f]
    && o in b.info && b.info[o] == EntryInfo(0, 0, 0)
    && c == b.(headData := b.headData[f := o],
               nextHash := LinkOld(b.nextHash, a.dataTable[BucketOf(hash)].tail, o),
               dataTable := a.dataTable[BucketOf(hash) := LinkTail(a.dataTable[BucketOf(hash)], o)])
  }

  function LinkOld(nextHash: map<nat, nat>, tail: nat, o: nat): map<nat, nat> {
    if tail == 0 then nextHash else nextHash[tail := o]
  }

  lemma OldLinked(nextHash: map<nat, nat>, tail: nat, o: nat)
    ensures LinkOld(nextHash, tail, o) == if tail == 0 then nextHash else nextHash[tail := o]
  {
  }

  function DataShape(s: Shape, o: nat, hash: nat, f: nat): Shape
    requires f in s.lists && |s.buckets| == DATA_BUCKETS
  {
    var b := BucketOf(hash);
    s.(layout := s.layout + [o], refs := s.refs[o := []], arrs := s.arrs[o := []],
       buckets := s.buckets[b := s.buckets[b] + [o]],
       lists := s.lists[f := [o] + s.lists[f]], fieldOf := s.fieldOf[o := f])
  }

  lemma BucketTail(img: Image, table: seq<HashItem>, buckets: seq<seq<nat>>, b: nat)
    requires BucketsOk(img, table, buckets) && Placed(img) && b < DATA_BUCKETS
    ensures table[b].tail == (if buckets[b] == [] then 0 else buckets[b][|buckets[b]| - 1])
    ensures table[b].tail == 0 <==> buckets[b] == []
    ensures table[b].head == 0 <==> buckets[b] == []
    ensures table[b].tail != 0 ==> table[b].tail in img.objects && img.objects[table[b].tail].kind == DataKind
  {
    assert BucketOk(img, table[b], buckets[b], b);
  }

  lemma IndexObjects(hash: string -> nat, a: Image, b: Image, c: Image, o: nat, payload: string, f: nat)
    requires ObjectsOk(hash, a) && Closed(a) && '=' in payload
    requires Indexed(a, b, c, o, payload, hash(payload), f) && f in a.objects
    requires var t := a.dataTable[BucketOf(hash(payload))].tail; t == 0 || t in a.objects
    ensures ObjectsOk(hash, c) && Closed(c)
  {
    ObjectsExtend(hash, a, b, o);
    ClosedExtend(a, b, o);
    forall k | k in c.objects ensures ObjectOk(hash, c, k) {
      hide ObjectOk, Extends, Closed;
      SameWords(hash, b, c, k);
    }
  }

  lemma SameWords(hash: string -> nat, b: Image, c: Image, k: nat)
    requires k in b.objects && ObjectOk(hash, b, k)
    requires c.objects == b.objects && c.payloads == b.payloads && c.hashes == b.hashes && c.entries == b.entries
    requires c.items == b.items && c.slots == b.slots && c.next == b.next
    requires c.nextField == b.nextField && c.info == b.info
    requires b.nextHash.Keys <= c.nextHash.Keys && b.headData.Keys <= c.headData.Keys
    ensures ObjectOk(hash, c, k)
  {
  }

  /** The bucket that receives the new object. */
  lemma GrowBucket(a: Image, c: Image, o: nat, item: HashItem, bucket: seq<nat>, i: nat)
    requires BucketOk(a, item, bucket, i)
    requires SameBut(a.objects, c.objects, o) && SameBut(a.hashes, c.hashes, o)
    requires o in c.objects && c.objects[o].kind == DataKind && o in c.hashes && BucketOf(c.hashes[o]) == i
    requires o in c.nextHash && c.nextHash[o] == 0
    requires forall k :: k in a.nextHash && k != o && k != item.tail ==>
               k in c.nextHash && c.nextHash[k] == a.nextHash[k]
    requires item.tail != 0 ==> item.tail in c.nextHash && c.nextHash[item.tail] == o
    requires forall d :: d in a.objects ==> 0 < d < o
    ensures BucketOk(c, LinkTail(item, o), bucket + [o], i)
  {
    hide BucketOf;
    var more := bucket + [o];
    var last := |bucket| - 1;
    forall k | 0 <= k < |more|
      ensures more[k] in c.objects && c.objects[more[k]].kind == DataKind
      ensures more[k] in c.hashes && BucketOf(c.hashes[more[k]]) == i
      ensures more[k] in c.nextHash && c.nextHash[more[k]] == (if k + 1 < |more| then more[k + 1] else 0)
    {
      if k < |bucket| {
        assert more[k] == bucket[k] && bucket[k] in a.objects;
        if k < last { assert bucket[k] < bucket[last]; }
      }
    }
    forall x, y | 0 <= x < y < |more| ensures more[x] < more[y] {
      assert bucket[x] in a.objects;
    }
    hide SameBut;
  }

  lemma IndexBucket(a: Image, b: Image, c: Image, o: nat, payload: string, hash: nat, f: nat, bucket: seq<nat>)
    requires Indexed(a, b, c, o, payload, hash, f)
    requires BucketOk(a, a.dataTable[BucketOf(hash)], bucket, BucketOf(hash)) && Placed(a)
    ensures BucketOk(c, c.dataTable[BucketOf(hash)], bucket + [o], BucketOf(hash))
  {
    hide BucketOk;
    BucketMember(a, a.dataTable[BucketOf(hash)], bucket, BucketOf(hash));
    GrowBucket(a, c, o, a.dataTable[BucketOf(hash)], bucket, BucketOf(hash));
  }

  lemma OtherBucket(a: Image, b: Image, c: Image, o: nat, payload: string, hash: nat, f: nat, bucket: seq<nat>, i: nat)
    requires Indexed(a, b, c, o, payload, hash, f)
    requires i < DATA_BUCKETS && i != BucketOf(hash) && BucketOk(a, a.dataTable[i], bucket, i)
    requires var t := a.dataTable[BucketOf(hash)].tail; t != 0 ==>
               t in a.hashes && BucketOf(a.hashes[t]) == BucketOf(hash)
    ensures BucketOk(c, c.dataTable[i], bucket, i)
  {
  }

  lemma IndexBuckets(a: Image, b: Image, c: Image, o: nat, s: Shape, payload: string, hash: nat, f: nat)
    requires Indexed(a, b, c, o, payload, hash, f)
    requires Placed(a) && f in s.lists && BucketsOk(a, a.dataTable, s.buckets)
    ensures BucketsOk(c, c.dataTable, DataShape(s, o, hash, f).buckets)
  {
    hide BucketOk, Placed, Extends;
    var i0 := BucketOf(hash);
    var buckets := s.buckets[i0 := s.buckets[i0] + [o]];
    assert BucketOk(a, a.dataTable[i0], s.buckets[i0], i0);
    BucketMember(a, a.dataTable[i0], s.buckets[i0], i0);
    forall i | 0 <= i < |buckets| ensures BucketOk(c, c.dataTable[i], buckets[i], i) {
      assert BucketOk(a, a.dataTable[i], s.buckets[i], i);
      if i == i0 {
        IndexBucket(a, b, c, o, payload, hash, f, s.buckets[i]);
      } else {
        OtherBucket(a, b, c, o, payload, hash, f, s.buckets[i], i);
      }
    }
    OldHashes(a, b, o);
    forall d | d in c.objects && c.objects[d].kind == DataKind
      ensures d in c.hashes && d in buckets[BucketOf(c.hashes[d])]
    {
      if d == o {
        assert buckets[i0][|s.buckets[i0]|] == o;
      } else {
        var i := BucketOf(a.hashes[d]);
        assert d in s.buckets[i] && s.buckets[i] <= buckets[i];
      }
    }
  }

  lemma OldHashes(a: Image, b: Image, o: nat)
    requires Extends(a, b, o)
    ensures forall d :: d in b.objects && d != o ==> d in a.objects && a.objects[d] == b.objects[d]
    ensures forall d :: d in a.hashes && d != o ==> d in b.hashes && a.hashes[d] == b.hashes[d]
  {
  }

  lemma BucketMember(img: Image, item: HashItem, bucket: seq<nat>, b: nat)
    requires BucketOk(img, item, bucket, b)
    ensures item.tail != 0 ==>
              && item.tail in img.hashes && BucketOf(img.hashes[item.tail]) == b
              && item.tail in img.objects && item.tail in img.nextHash
  {
  }

  lemma GrowList(a: Image, c: Image, o: nat, list: seq<nat>, f: nat)
    requires ListOk(a, list, f) && FieldName(c, f, o)
    requires f != o && SameBut(a.objects, c.objects, o) && SameBut(a.payloads, c.payloads, o)
             && SameBut(a.nextField, c.nextField, o)
    requires o in c.objects && c.objects[o].kind == DataKind
    requires f in c.headData && c.headData[f] == o && o in c.nextField && c.nextField[o] == a.headData[f]
    requires forall d :: d in a.objects ==> d < o
    ensures ListOk(c, [o] + list, f)
  {
    hide Cut;
    var more := [o] + list;
    forall k | 0 <= k < |more|
      ensures more[k] in c.objects && c.objects[more[k]].kind == DataKind && FieldName(c, f, more[k])
      ensures more[k] in c.nextField && c.nextField[more[k]] == SlotAt(more, k + 1)
    {
      if k > 0 { assert more[k] == list[k - 1] && FieldName(a, f, list[k - 1]) && list[k - 1] in a.objects; }
    }
    forall i, j | 0 <= i < j < |more| ensures more[i] > more[j] {
      assert more[j] == list[j - 1] && list[j - 1] in a.objects;
      if i > 0 { assert more[i] == list[i - 1]; }
    }
  }

  lemma IndexList(a: Image, b: Image, c: Image, o: nat, payload: string, hash: nat, f: nat, list: seq<nat>)
    requires Indexed(a, b, c, o, payload, hash, f) && Placed(a) && ListOk(a, list, f) && f in a.objects
    requires f in a.payloads && Cut(payload).Some? && Cut(payload).value.0 == a.payloads[f]
    ensures ListOk(c, [o] + list, f)
  {
    hide ListOk, Cut;
    GrowList(a, c, o, list, f);
  }

  lemma OtherList(a: Image, b: Image, c: Image, o: nat, payload: string, hash: nat, f: nat, list: seq<nat>, g: nat)
    requires Indexed(a, b, c, o, payload, hash, f) && Closed(a) && ListOk(a, list, g) && g in a.objects && g != f
    ensures ListOk(c, list, g)
  {
    ListExtend(a, b, o, list, g);
    forall k | 0 <= k < |list| ensures FieldName(c, g, list[k]) { assert FieldName(b, g, list[k]); }
  }

  /** Lists and their owners match after `o` has been put at the head of the list of `f`. */
  lemma ListsOwned(a: Image, c: Image, o: nat, s: Shape, hash: nat, f: nat)
    requires FieldsOk(a, s) && f in s.lists && |s.buckets| == DATA_BUCKETS && o !in a.objects
    requires o in c.objects && c.objects == a.objects[o := c.objects[o]]
    ensures
      var s' := DataShape(s, o, hash, f);
      && (forall g, k :: g in s'.lists && 0 <= k < |s'.lists[g]| ==>
            s'.lists[g][k] in s'.fieldOf && s'.fieldOf[s'.lists[g][k]] == g)
      && (forall d :: d in c.objects && c.objects[d].kind == DataKind ==>
            d in s'.fieldOf && s'.fieldOf[d] in s'.lists && d in s'.lists[s'.fieldOf[d]])
  {
    hide ListOk;
    var s' := DataShape(s, o, hash, f);
    forall g, k | g in s'.lists && 0 <= k < |s'.lists[g]|
      ensures s'.lists[g][k] in s'.fieldOf && s'.fieldOf[s'.lists[g][k]] == g
    {
      var d := s'.lists[g][k];
      if g != f {
        ListMember(a, s.lists[g], g, k);
      } else if k > 0 {
        assert d == s.lists[g][k - 1];
        ListMember(a, s.lists[g], g, k - 1);
      }
    }
    forall d | d in c.objects && c.objects[d].kind == DataKind
      ensures d in s'.fieldOf && s'.fieldOf[d] in s'.lists && d in s'.lists[s'.fieldOf[d]]
    {
      if d == o { assert s'.lists[f][0] == o; } else { assert d in s.lists[s.fieldOf[d]]; }
    }
  }

  lemma IndexLists(a: Image, b: Image, c: Image, o: nat, s: Shape, payload: string, hash: nat, f: nat)
    requires Indexed(a, b, c, o, payload, hash, f)
    requires Placed(a) && Closed(a) && FieldsOk(a, s) && f in s.lists && |s.buckets| == DATA_BUCKETS
    requires f in a.payloads && Cut(payload).Some? && Cut(payload).value.0 == a.payloads[f]
    ensures FieldsOk(c, DataShape(s, o, hash, f))
  {
    hide ListOk, Placed, Closed, Extends;
    var s' := DataShape(s, o, hash, f);
    OldHashes(a, b, o);
    NewObject(a, b, o);
    forall g | g in s'.lists ensures ListOk(c, s'.lists[g], g) {
      assert ListOk(a, s.lists[g], g);
      if g == f {
        IndexList(a, b, c, o, payload, hash, f, s.lists[f]);
      } else {
        OtherList(a, b, c, o, payload, hash, f, s.lists[g], g);
      }
    }
    hide ListOk, Indexed;
    ListsOwned(a, c, o, s, hash, f);
  }

  lemma NewObject(a: Image, b: Image, o: nat)
    requires Extends(a, b, o)
    ensures o !in a.objects && b.objects == a.objects[o := b.objects[o]] && a.end <= o < b.end
  {
  }

  lemma ListMember(img: Image, list: seq<nat>, f: nat, k: nat)
    requires ListOk(img, list, f) && k < |list|
    ensures list[k] in img.objects
  {
  }

  /** The chain of a data object depends on these words only. */
  lemma RefsSame(b: Image, c: Image, refs: seq<nat>, arrs: seq<nat>, d: nat)
    requires RefsOk(b, refs, arrs, d)
    requires b.objects == c.objects && b.info == c.info && b.slots == c.slots && b.next == c.next && b.end <= c.end
    ensures RefsOk(c, refs, arrs, d)
  {
    var xs := if refs == [] then [] else refs[1..];
    forall j | 0 <= j < |arrs| ensures ArrayOk(c, arrs, xs, j) { assert ArrayOk(b, arrs, xs, j); }
  }

  lemma IndexChains(a: Image, b: Image, c: Image, o: nat, s: Shape, payload: string, hash: nat, f: nat)
    requires Indexed(a, b, c, o, payload, hash, f)
    requires Closed(a) && ChainsOk(a, s) && f in s.lists && |s.buckets| == DATA_BUCKETS
    ensures ChainsOk(c, DataShape(s, o, hash, f))
  {
    hide Closed, Extends, RefsOk;
    var s' := DataShape(s, o, hash, f);
    NewObject(a, b, o);
    forall d | d in s'.refs ensures RefsOk(c, s'.refs[d], s'.arrs[d], d) {
      if d != o {
        assert d in s.refs;
        RefsExtend(a, b, o, s.refs[d], s.arrs[d], d);
        RefsSame(b, c, s.refs[d], s.arrs[d], d);
      } else {
        NoRefs(c, o);
      }
    }
  }

  lemma NoRefs(img: Image, d: nat)
    requires d in img.info && img.info[d] == EntryInfo(0, 0, 0)
    ensures RefsOk(img, [], [], d)
  {
  }

  lemma LayoutSame(b: Image, c: Image, layout: seq<nat>)
    requires Tiled(b, layout) && Placed(b) && b.objects == c.objects && b.end == c.end
    ensures Tiled(c, layout) && Placed(c)
  {
    forall i | 0 <= i < |layout| ensures Adjacent(c, layout, i) { assert Adjacent(b, layout, i); }
  }

  lemma IndexStructured(hash: string -> nat, a: Image, b: Image, c: Image, o: nat, s: Shape, payload: string, f: nat)
    requires Structured(hash, a, s) && Indexed(a, b, c, o, payload, hash(payload), f)
    requires f in s.lists && f in a.objects
    requires f in a.payloads && Cut(payload).Some? && Cut(payload).value.0 == a.payloads[f]
    ensures |s.buckets| == DATA_BUCKETS
    ensures Structured(hash, c, DataShape(s, o, hash(payload), f))
  {
    assert |s.buckets| == DATA_BUCKETS;
    hide ObjectsOk, Closed, Placed, Tiled, ChainsOk, BucketsOk, FieldsOk, Extends;
    BucketTail(a, a.dataTable, s.buckets, BucketOf(hash(payload)));
    IndexObjects(hash, a, b, c, o, payload, f);
    IndexBuckets(a, b, c, o, s, payload, hash(payload), f);
    IndexLists(a, b, c, o, s, payload, hash(payload), f);
    IndexChains(a, b, c, o, s, payload, hash(payload), f);
    LayoutExtend(a, b, o, s.layout);
    LayoutSame(b, c, s.layout + [o]);
  }
}
