/** Each operation of an append as one step from a structured file to a structured file. */
module JournalSteps {
  import opened JournalImage
  import opened JournalShape
  import opened JournalWrites
  import opened JournalExtend
  import opened JournalIndex
  import opened JournalChains

  // ----- patching chain words keeps everything else -----

  /** `c` is `a` with chain words (slots, next links, entry info) of existing objects patched. */
  ghost predicate Patched(a: Image, c: Image) {
    && c.objects == a.objects && c.hashes == a.hashes && c.payloads == a.payloads && c.nextHash == a.nextHash
    && c.nextField == a.nextField && c.headData == a.headData && c.entries == a.entries && c.items == a.items
    && c.dataTable == a.dataTable && c.end == a.end
    && c.info.Keys == a.info.Keys && c.next.Keys == a.next.Keys && c.slots.Keys == a.slots.Keys
    && (forall o :: o in a.slots ==> |c.slots[o]| == |a.slots[o]|)
  }

  lemma ObjectsPatched(hash: string -> nat, a: Image, c: Image)
    requires ObjectsOk(hash, a) && Closed(a) && Patched(a, c)
    ensures ObjectsOk(hash, c) && Closed(c)
  {
    forall o | o in c.objects ensures ObjectOk(hash, c, o) { assert ObjectOk(hash, a, o); }
  }

  lemma BucketsPatched(a: Image, c: Image, table: seq<HashItem>, buckets: seq<seq<nat>>)
    requires BucketsOk(a, table, buckets)
    requires c.objects == a.objects && c.hashes == a.hashes && c.nextHash == a.nextHash
    ensures BucketsOk(c, table, buckets)
  {
    forall b | 0 <= b < |buckets| ensures BucketOk(c, table[b], buckets[b], b) {
      assert BucketOk(a, table[b], buckets[b], b);
    }
  }

  lemma ListPatched(a: Image, c: Image, list: seq<nat>, f: nat)
    requires ListOk(a, list, f)
    requires c.objects == a.objects && c.payloads == a.payloads && c.nextField == a.nextField
             && c.headData == a.headData
    ensures ListOk(c, list, f)
  {
    forall k | 0 <= k < |list| ensures FieldName(c, f, list[k]) { assert FieldName(a, f, list[k]); }
  }

  lemma FieldsPatched(a: Image, c: Image, s: Shape, s': Shape)
    requires FieldsOk(a, s) && s'.lists == s.lists && s'.fieldOf == s.fieldOf
    requires c.objects == a.objects && c.payloads == a.payloads && c.nextField == a.nextField
             && c.headData == a.headData
    ensures FieldsOk(c, s')
  {
    hide ListOk;
    forall f | f in s'.lists ensures ListOk(c, s'.lists[f], f) {
      assert ListOk(a, s.lists[f], f);
      ListPatched(a, c, s.lists[f], f);
    }
  }

  lemma FieldsShape(img: Image, s: Shape, s': Shape)
    requires FieldsOk(img, s) && s'.lists == s.lists && s'.fieldOf == s.fieldOf
    ensures FieldsOk(img, s')
  {
  }

  lemma PatchedStructured(hash: string -> nat, a: Image, c: Image, s: Shape, s': Shape)
    requires Structured(hash, a, s) && Patched(a, c) && ChainsOk(c, s')
    requires s'.layout == s.layout && s'.buckets == s.buckets && s'.lists == s.lists && s'.fieldOf == s.fieldOf
    ensures Structured(hash, c, s')
  {
    hide ObjectsOk, Closed, Placed, Tiled, ChainsOk, BucketsOk, FieldsOk;
    ObjectsPatched(hash, a, c);
    LayoutSame(a, c, s.layout);
    BucketsPatched(a, c, a.dataTable, s.buckets);
    FieldsPatched(a, c, s, s');
  }

  /** A new entry object or entry array leaves the index structures as they are. */
  lemma AddedStructured(hash: string -> nat, a: Image, b: Image, o: nat, s: Shape, s': Shape)
    requires Structured(hash, a, s) && Extends(a, b, o) && b.dataTable == a.dataTable && ObjectOk(hash, b, o)
    requires b.objects[o].kind == EntryKind || b.objects[o].kind == ArrayKind
    requires s' == s.(layout := s.layout + [o])
    ensures Structured(hash, b, s')
  {
    hide ObjectsOk, Closed, Placed, Tiled, ChainsOk, BucketsOk, FieldsOk;
    LayoutExtend(a, b, o, s.layout);
    ObjectsExtend(hash, a, b, o);
    ClosedExtend(a, b, o);
    ChainsExtend(a, b, o, s);
    ChainsShape(b, s, s');
    BucketsExtend(a, b, o, a.dataTable, s.buckets);
    FieldsExtend(a, b, o, s);
    FieldsShape(b, s, s');
  }

  // ----- linking a data object to an entry -----

  /** How one patch of a single chain moves the file from `a` to `c`. */
  ghost predicate OneChain(a: Image, c: Image, s: Shape, d: nat, x: nat) {
    && (x != 0 ==> x in s.owner && s.owner[x] == d)
    && (forall k :: k in a.slots && k != x ==> k in c.slots && c.slots[k] == a.slots[k])
    && (forall k :: k in a.next && k != x ==> k in c.next && c.next[k] == a.next[k])
    && SameBut(a.info, c.info, d)
  }

  lemma LinkInPlace(hash: string -> nat, a: Image, c: Image, s: Shape, d: nat, e: nat, x: nat)
    requires Structured(hash, a, s) && d in s.refs && Patched(a, c) && OneChain(a, c, s, d, x)
    requires 0 !in a.objects && RefsOk(c, s.refs[d] + [e], s.arrs[d], d)
    ensures Structured(hash, c, Extended(s, d, e, 0))
  {
    assert ChainsOk(a, s);
    hide ObjectsOk, Closed, Placed, Tiled, BucketsOk, FieldsOk, RefsOk;
    ChainsGrow(a, c, s, d, e, 0, x);
    PatchedStructured(hash, a, c, s, Extended(s, d, e, 0));
  }

  lemma OwnersAreObjects(img: Image, s: Shape)
    requires ChainsOk(img, s)
    ensures s.owner.Keys <= img.objects.Keys && s.refs.Keys == s.arrs.Keys
  {
  }

  lemma LinkWithArray(hash: string -> nat, a: Image, b: Image, c: Image, s: Shape, d: nat, e: nat, o: nat, x: nat)
    requires Structured(hash, a, s) && d in s.refs && Patched(b, c) && OneChain(a, c, s, d, x)
    requires Extends(a, b, o) && b.dataTable == a.dataTable && ObjectOk(hash, b, o) && b.objects[o].kind == ArrayKind
    requires 0 !in a.objects && o != 0 && RefsOk(c, s.refs[d] + [e], s.arrs[d] + [o], d)
    ensures Structured(hash, c, Extended(s, d, e, o))
  {
    hide ObjectsOk, Closed, Placed, Tiled, ChainsOk, BucketsOk, FieldsOk, RefsOk, Extends, ObjectOk;
    AddedStructured(hash, a, b, o, s, s.(layout := s.layout + [o]));
    NewObject(a, b, o);
    OwnersAreObjects(a, s);
    ChainsGrow(a, c, s, d, e, o, x);
    PatchedStructured(hash, b, c, s.(layout := s.layout + [o]), Extended(s, d, e, o));
  }

  // ----- the global chain -----

  /** Linking a new array after the tail of the global chain leaves every data object's chain alone. */
  lemma ChainsGlobal(a: Image, c: Image, s: Shape, x: nat)
    requires ChainsOk(a, s) && Patched(a, c) && c.info == a.info && c.slots == a.slots
    requires x in s.owner && s.owner[x] == 0 && SameBut(a.next, c.next, x) && 0 !in a.objects
    ensures ChainsOk(c, s)
  {
    hide RefsOk;
    forall d | d in s.refs ensures RefsOk(c, s.refs[d], s.arrs[d], d) {
      assert RefsOk(a, s.refs[d], s.arrs[d], d);
      HasInfo(a, s.refs[d], s.arrs[d], d);
      forall j | 0 <= j < |s.arrs[d]| ensures s.arrs[d][j] != x {
        assert s.owner[s.arrs[d][j]] == d;
      }
      RefsOther(a, c, x, s.refs[d], s.arrs[d], d);
    }
  }

  ghost function GlobalShape(s: Shape, o: nat): Shape { s.(layout := s.layout + [o], owner := s.owner[o := 0]) }

  lemma ChainsOwned(img: Image, s: Shape, s': Shape, o: nat)
    requires ChainsOk(img, s) && o !in s.owner && o in img.objects
    requires s'.refs == s.refs && s'.arrs == s.arrs && s'.owner == s.owner[o := 0]
    ensures ChainsOk(img, s')
  {
  }

  /** A new array of one slot, owned by the global chain. */
  lemma GlobalAdded(hash: string -> nat, a: Image, b: Image, s: Shape, o: nat)
    requires Structured(hash, a, s) && Extends(a, b, o) && b.dataTable == a.dataTable && ObjectOk(hash, b, o)
    requires b.objects[o].kind == ArrayKind
    ensures Structured(hash, b, GlobalShape(s, o))
  {
    assert o !in s.owner;
    AddedStructured(hash, a, b, o, s, s.(layout := s.layout + [o]));
    assert o in b.objects;
    hide ObjectsOk, Closed, Placed, Tiled, ChainsOk, BucketsOk, FieldsOk, Extends;
    ChainsOwned(b, s.(layout := s.layout + [o]), GlobalShape(s, o), o);
    FieldsShape(b, s.(layout := s.layout + [o]), GlobalShape(s, o));
  }

  lemma GlobalLinked(hash: string -> nat, a: Image, c: Image, s: Shape, x: nat, o: nat)
    requires Structured(hash, a, s) && x in s.owner && s.owner[x] == 0 && x in a.next
    requires c == a.(next := a.next[x := o])
    ensures Structured(hash, c, s)
  {
    assert 0 !in a.objects && ChainsOk(a, s) by { assert Placed(a); }
    assert Patched(a, c) by { assert c.next.Keys == a.next.Keys; }
    hide ObjectsOk, Closed, Placed, Tiled, ChainsOk, BucketsOk, FieldsOk;
    ChainsGlobal(a, c, s, x);
    PatchedStructured(hash, a, c, s, s);
  }

  // ----- the header and the field table lie outside the structure -----

  lemma ChainsSame(a: Image, c: Image, s: Shape)
    requires ChainsOk(a, s)
    requires c.objects == a.objects && c.info == a.info && c.slots == a.slots && c.next == a.next && c.end == a.end
    ensures ChainsOk(c, s)
  {
    hide RefsOk;
    forall d | d in s.refs ensures RefsOk(c, s.refs[d], s.arrs[d], d) {
      RefsSame(a, c, s.refs[d], s.arrs[d], d);
    }
  }

  lemma HeaderStructured(hash: string -> nat, a: Image, c: Image, s: Shape)
    requires Structured(hash, a, s) && c == a.(header := c.header, fieldTable := c.fieldTable)
    ensures Structured(hash, c, s)
  {
    hide ObjectsOk, Closed, Placed, Tiled, ChainsOk, BucketsOk, FieldsOk;
    ChainsSame(a, c, s);
    PatchedStructured(hash, a, c, s, s);
  }
}
