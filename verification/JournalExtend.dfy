/** Adding one object at the end of the file keeps the structure of everything before it. */
module JournalExtend {
  import opened JournalImage
  import opened JournalShape
  import opened JournalWrites

  ghost predicate SameBut<T>(a: map<nat, T>, b: map<nat, T>, o: nat) {
    forall k :: k != o ==> (k in a <==> k in b) && (k in a ==> a[k] == b[k])
  }

  /** `b` is `a` with one complete object added at the next 8-byte boundary. */
  ghost predicate Extends(a: Image, b: Image, o: nat) {
    && o == Align8(a.end) && o !in a.objects
    && o in b.objects && b.objects[o].size >= OBJECT_HEADER && b.end == o + b.objects[o].size
    && SameBut(a.objects, b.objects, o) && SameBut(a.hashes, b.hashes, o)
    && SameBut(a.payloads, b.payloads, o) && SameBut(a.nextHash, b.nextHash, o)
    && SameBut(a.nextField, b.nextField, o) && SameBut(a.info, b.info, o)
    && SameBut(a.headData, b.headData, o) && SameBut(a.entries, b.entries, o)
    && SameBut(a.items, b.items, o) && SameBut(a.next, b.next, o) && SameBut(a.slots, b.slots, o)
  }

  lemma NextIsFresh(img: Image)
    requires Placed(img) && Closed(img)
    ensures Fresh(img, Align8(img.end))
  {
    var o := Align8(img.end);
    assert forall k :: k in img.objects ==> k < img.end;
    assert o !in img.objects;
  }

  lemma AddDataExtends(a: Image, payload: string, hash: nat, nextField: nat)
    requires Placed(a) && Closed(a)
    ensures Extends(a, AddData(a, payload, hash, nextField), Align8(a.end))
  {
    NextIsFresh(a);
  }

  lemma AddFieldExtends(a: Image, name: string, hash: nat)
    requires Placed(a) && Closed(a)
    ensures Extends(a, AddField(a, name, hash), Align8(a.end))
  {
    NextIsFresh(a);
  }

  lemma AddEntryExtends(a: Image, word: EntryWord, items: seq<Item>)
    requires Placed(a) && Closed(a)
    ensures Extends(a, AddEntry(a, word, items), Align8(a.end))
  {
    NextIsFresh(a);
  }

  lemma AddArrayExtends(a: Image, slots: seq<nat>)
    requires Placed(a) && Closed(a)
    ensures Extends(a, AddArray(a, slots), Align8(a.end))
  {
    NextIsFresh(a);
  }

  lemma LayoutExtend(a: Image, b: Image, o: nat, layout: seq<nat>)
    requires Extends(a, b, o) && Tiled(a, layout) && Placed(a)
    ensures Tiled(b, layout + [o]) && Placed(b)
  {
    var more := layout + [o];
    forall i | 0 <= i < |more| ensures Adjacent(b, more, i) {
      if i < |layout| { assert Adjacent(a, layout, i); }
    }
    forall k | k in b.objects ensures k in more {
      if k != o { assert k in a.objects; assert k in layout; } else { assert more[|layout|] == o; }
    }
  }

  lemma ObjectExtend(hash: string -> nat, a: Image, b: Image, o: nat, k: nat)
    requires Extends(a, b, o) && k in a.objects && ObjectOk(hash, a, k)
    ensures ObjectOk(hash, b, k)
  {
  }

  lemma ClosedExtend(a: Image, b: Image, o: nat)
    requires Extends(a, b, o) && Closed(a)
    ensures Closed(b)
  {
  }

  lemma ObjectsExtend(hash: string -> nat, a: Image, b: Image, o: nat)
    requires Extends(a, b, o) && ObjectsOk(hash, a) && Closed(a) && ObjectOk(hash, b, o)
    ensures ObjectsOk(hash, b)
  {
    forall k | k in b.objects ensures ObjectOk(hash, b, k) {
      if k != o { ObjectExtend(hash, a, b, o, k); }
    }
  }

  lemma ReadableExtend(a: Image, b: Image, o: nat, recs: seq<Record>)
    requires Extends(a, b, o) && Readable(a, recs) && Closed(a) && b.header == a.header
    ensures Readable(b, recs)
  {
    assert Grows(a, b, o);
    forall i | 0 <= i < |recs| ensures recs[i].arr != o { assert RecordOk(a, recs[i], i + 1); }
    GrowsReadable(a, b, o, recs);
  }

  lemma RefsExtend(a: Image, b: Image, o: nat, refs: seq<nat>, arrs: seq<nat>, d: nat)
    requires Extends(a, b, o) && RefsOk(a, refs, arrs, d) && Closed(a)
    ensures RefsOk(b, refs, arrs, d)
  {
    var xs := if refs == [] then [] else refs[1..];
    forall j | 0 <= j < |arrs| ensures ArrayOk(b, arrs, xs, j) { assert ArrayOk(a, arrs, xs, j); }
  }

  lemma ChainsExtend(a: Image, b: Image, o: nat, s: Shape)
    requires Extends(a, b, o) && ChainsOk(a, s) && Closed(a)
    requires b.objects[o].kind != DataKind
    ensures ChainsOk(b, s)
  {
    forall d | d in s.refs ensures RefsOk(b, s.refs[d], s.arrs[d], d) {
      RefsExtend(a, b, o, s.refs[d], s.arrs[d], d);
    }
  }

  lemma BucketsExtend(a: Image, b: Image, o: nat, table: seq<HashItem>, buckets: seq<seq<nat>>)
    requires Extends(a, b, o) && BucketsOk(a, table, buckets) && b.objects[o].kind != DataKind
    ensures BucketsOk(b, table, buckets)
  {
    forall i | 0 <= i < |buckets| ensures BucketOk(b, table[i], buckets[i], i) {
      assert BucketOk(a, table[i], buckets[i], i);
    }
  }

  lemma ListExtend(a: Image, b: Image, o: nat, list: seq<nat>, f: nat)
    requires Extends(a, b, o) && ListOk(a, list, f) && f in a.objects && Closed(a)
    ensures ListOk(b, list, f)
  {
    forall k | 0 <= k < |list| ensures FieldName(b, f, list[k]) { assert FieldName(a, f, list[k]); }
  }

  lemma FieldsExtend(a: Image, b: Image, o: nat, s: Shape)
    requires Extends(a, b, o) && FieldsOk(a, s) && Closed(a)
    requires b.objects[o].kind != DataKind && b.objects[o].kind != FieldKind
    ensures FieldsOk(b, s)
  {
    forall f | f in s.lists ensures ListOk(b, s.lists[f], f) { ListExtend(a, b, o, s.lists[f], f); }
  }

  lemma CachesExtend(hash: string -> nat, a: Image, b: Image, o: nat, dc: map<nat, nat>, fc: map<nat, nat>)
    requires Extends(a, b, o) && CachesOk(hash, a, dc, fc)
    ensures CachesOk(hash, b, dc, fc)
  {
  }
}
