/** Threading one more entry onto the entry chain of a data object. */
module JournalChains {
  import opened JournalImage
  import opened JournalShape
  import opened JournalWrites
  import opened JournalExtend
  import opened JournalIndex

  ghost function Rest(refs: seq<nat>): seq<nat> { if refs == [] then [] else refs[1..] }

  // ----- where the next entry goes -----

  /** In a chain holding `xs`, the first zero slot of the last array is slot |xs| % 16, if that array is not full. */
  lemma FreeSlot(img: Image, arrs: seq<nat>, xs: seq<nat>, i: nat)
    requires ArraysOk(img, arrs, xs) && xs != [] && i < ARRAY_SLOTS
    requires forall k :: 0 <= k < |xs| ==> xs[k] != 0
    ensures arrs != [] && ArrayOk(img, arrs, xs, |arrs| - 1)
    ensures
      var slots := img.slots[arrs[|arrs| - 1]];
      && (slots[i] == 0 <==> ARRAY_SLOTS * (|arrs| - 1) + i >= |xs|)
      && (slots[ARRAY_SLOTS - 1] != 0 <==> |xs| % ARRAY_SLOTS == 0)
  {
    var j := |arrs| - 1;
    assert ArrayOk(img, arrs, xs, j);
    assert img.slots[arrs[j]][i] == SlotAt(xs, ARRAY_SLOTS * j + i);
    assert img.slots[arrs[j]][ARRAY_SLOTS - 1] == SlotAt(xs, ARRAY_SLOTS * j + ARRAY_SLOTS - 1);
  }

  /** The slot a scan stops at is the one after the last entry of the list. */
  lemma SlotFound(img: Image, arrs: seq<nat>, xs: seq<nat>, i: nat)
    requires ArraysOk(img, arrs, xs) && xs != [] && i < ARRAY_SLOTS
    requires forall k :: 0 <= k < |xs| ==> xs[k] != 0
    requires ArrayOk(img, arrs, xs, |arrs| - 1)
    requires var slots := img.slots[arrs[|arrs| - 1]]; slots[i] == 0 && forall k :: 0 <= k < i ==> slots[k] != 0
    ensures |xs| == ARRAY_SLOTS * (|arrs| - 1) + i
  {
    FreeSlot(img, arrs, xs, i);
    if i > 0 { FreeSlot(img, arrs, xs, i - 1); }
  }

  /** Writing the first free slot appends to the list the chain holds. */
  lemma FillSlot(a: Image, c: Image, arrs: seq<nat>, xs: seq<nat>, e: nat, i: nat)
    requires ArraysOk(a, arrs, xs) && xs != [] && |xs| == ARRAY_SLOTS * (|arrs| - 1) + i && i < ARRAY_SLOTS
    requires c.objects == a.objects && c.next == a.next
    requires ArrayOk(a, arrs, xs, |arrs| - 1)
    requires var x := arrs[|arrs| - 1]; c.slots == a.slots[x := SetSlot(a.slots[x], i, e)]
    ensures ArraysOk(c, arrs, xs + [e])
  {
    var last := |arrs| - 1;
    forall j | 0 <= j < |arrs| ensures ArrayOk(c, arrs, xs + [e], j) {
      assert ArrayOk(a, arrs, xs, j);
      if j < last { assert arrs[j] < arrs[last]; }
      forall k | 0 <= k < ARRAY_SLOTS
        ensures c.slots[arrs[j]][k] == SlotAt(xs + [e], ARRAY_SLOTS * j + k)
      {
        assert a.slots[arrs[j]][k] == SlotAt(xs, ARRAY_SLOTS * j + k);
      }
    }
  }

  /** `c` adds entry array `o`, holding entry `e`, and links it after array `last` (0: nothing to link). */
  ghost predicate ArrayAppended(a: Image, b: Image, c: Image, o: nat, last: nat, e: nat) {
    && Extends(a, b, o) && b.dataTable == a.dataTable
    && b.objects[o] == Object(ArrayKind, ARRAY_HEADER + 8 * ARRAY_SLOTS)
    && o in b.slots && b.slots[o] == FirstSlots(e)
    && o in b.next && b.next[o] == 0
    && c == (if last == 0 then b else b.(next := b.next[last := o]))
  }

  /** A new array at the end of a full chain (or of no chain) holds the next entry. */
  lemma AppendArray(a: Image, b: Image, c: Image, arrs: seq<nat>, xs: seq<nat>, o: nat, e: nat)
    requires ArraysOk(a, arrs, xs) && |xs| % ARRAY_SLOTS == 0
    requires ArrayAppended(a, b, c, o, if arrs == [] then 0 else arrs[|arrs| - 1], e)
    requires forall k :: 0 <= k < |arrs| ==> 0 < arrs[k] < o
    ensures ArraysOk(c, arrs + [o], xs + [e])
  {
    var more := arrs + [o];
    var last := |arrs| - 1;
    forall j | 0 <= j < |more| ensures ArrayOk(c, more, xs + [e], j) {
      if j < |arrs| {
        assert ArrayOk(a, arrs, xs, j);
        if j < last { assert arrs[j] < arrs[last]; }
        forall k | 0 <= k < ARRAY_SLOTS
          ensures c.slots[more[j]][k] == SlotAt(xs + [e], ARRAY_SLOTS * j + k)
        {
          assert a.slots[arrs[j]][k] == SlotAt(xs, ARRAY_SLOTS * j + k);
        }
      } else {
        forall k | 0 <= k < ARRAY_SLOTS
          ensures c.slots[o][k] == SlotAt(xs + [e], ARRAY_SLOTS * j + k)
        {
          assert FirstSlots(e)[k] == SlotAt([e], k);
        }
      }
    }
  }

  // ----- chains of other data objects -----

  /** A chain none of whose arrays is `x` keeps what it holds. */
  lemma RefsOther(a: Image, c: Image, x: nat, refs: seq<nat>, arrs: seq<nat>, d: nat)
    requires RefsOk(a, refs, arrs, d) && a.end <= c.end
    requires d in c.info && c.info[d] == a.info[d]
    requires forall o :: o in a.objects ==> o in c.objects && c.objects[o] == a.objects[o]
    requires forall o :: o in a.slots && o != x ==> o in c.slots && c.slots[o] == a.slots[o]
    requires forall o :: o in a.next && o != x ==> o in c.next && c.next[o] == a.next[o]
    requires forall j :: 0 <= j < |arrs| ==> arrs[j] != x
    ensures RefsOk(c, refs, arrs, d)
  {
    var xs := Rest(refs);
    forall j | 0 <= j < |arrs| ensures ArrayOk(c, arrs, xs, j) { assert ArrayOk(a, arrs, xs, j); }
  }

  ghost function Extended(s: Shape, d: nat, e: nat, o: nat): Shape
    requires d in s.refs && d in s.arrs
  {
    if o == 0 then s.(refs := s.refs[d := s.refs[d] + [e]])
    else s.(layout := s.layout + [o], refs := s.refs[d := s.refs[d] + [e]],
            arrs := s.arrs[d := s.arrs[d] + [o]], owner := s.owner[o := d])
  }

  /** The chain of `d` grows by entry `e` while every other chain keeps its arrays. */
  lemma ChainsGrow(a: Image, c: Image, s: Shape, d: nat, e: nat, o: nat, x: nat)
    requires ChainsOk(a, s) && d in s.refs && a.end <= c.end
    requires x != 0 ==> x in s.owner && s.owner[x] == d
    requires o != 0 ==> o !in a.objects && o in c.objects && c.objects[o].kind != DataKind
    requires forall k :: k in c.objects && (o == 0 || k != o) ==> k in a.objects
    requires forall k :: k in a.objects ==> k in c.objects && c.objects[k] == a.objects[k]
    requires forall k :: k in a.slots && k != x ==> k in c.slots && c.slots[k] == a.slots[k]
    requires forall k :: k in a.next && k != x ==> k in c.next && c.next[k] == a.next[k]
    requires SameBut(a.info, c.info, d)
    requires 0 !in s.owner
    requires RefsOk(c, Extended(s, d, e, o).refs[d], Extended(s, d, e, o).arrs[d], d)
    ensures ChainsOk(c, Extended(s, d, e, o))
  {
    hide RefsOk;
    var s' := Extended(s, d, e, o);
    forall g | g in s'.refs ensures RefsOk(c, s'.refs[g], s'.arrs[g], g) {
      if g != d {
        assert RefsOk(a, s.refs[g], s.arrs[g], g);
        assert g in c.info && c.info[g] == a.info[g] by { HasInfo(a, s.refs[g], s.arrs[g], g); }
        forall j | 0 <= j < |s.arrs[g]| ensures s.arrs[g][j] != x {
          assert s.arrs[g][j] in s.owner && s.owner[s.arrs[g][j]] == g;
        }
        RefsOther(a, c, x, s.refs[g], s.arrs[g], g);
      }
    }
    forall g, j | g in s'.arrs && 0 <= j < |s'.arrs[g]|
      ensures s'.arrs[g][j] in s'.owner && s'.owner[s'.arrs[g][j]] == g
    {
      if j < |s.arrs[g]| {
        assert s'.arrs[g][j] == s.arrs[g][j];
        assert s.arrs[g][j] in s.owner && s.owner[s.arrs[g][j]] == g;
        assert s.arrs[g][j] in a.objects;
      }
    }
  }

  lemma HasInfo(img: Image, refs: seq<nat>, arrs: seq<nat>, d: nat)
    requires RefsOk(img, refs, arrs, d)
    ensures d in img.info && img.info[d] == EntryInfo(SlotAt(refs, 0), SlotAt(arrs, 0), |refs|)
  {
  }

  // ----- the four ways an entry is linked -----

  /** The first entry is stored in the data object itself. */
  lemma LinkFirst(a: Image, c: Image, d: nat, e: nat)
    requires RefsOk(a, [], [], d) && 0 < e < c.end
    requires c.info == a.info[d := EntryInfo(e, 0, 1)]
    ensures RefsOk(c, [e], [], d)
  {
  }

  /** The second entry starts the first array; a later one that finds no free slot starts the next. */
  lemma LinkNewArray(a: Image, b: Image, m: Image, c: Image, refs: seq<nat>, arrs: seq<nat>, d: nat, e: nat, o: nat)
    requires RefsOk(a, refs, arrs, d) && refs != [] && |Rest(refs)| % ARRAY_SLOTS == 0
    requires ArrayAppended(a, b, m, o, if arrs == [] then 0 else arrs[|arrs| - 1], e)
    requires c == m.(info := m.info[d := EntryInfo(refs[0], SlotAt(arrs + [o], 0), |refs| + 1)])
    requires forall k :: 0 <= k < |arrs| ==> 0 < arrs[k] < o
    requires refs[|refs| - 1] < e < c.end && a.end <= c.end
    ensures RefsOk(c, refs + [e], arrs + [o], d)
  {
    AppendArray(a, b, m, arrs, Rest(refs), o, e);
    assert Rest(refs + [e]) == Rest(refs) + [e];
    ArraysInfo(m, c, arrs + [o], Rest(refs) + [e]);
  }

  lemma LinkSlot(a: Image, m: Image, c: Image, refs: seq<nat>, arrs: seq<nat>, d: nat, e: nat, i: nat)
    requires RefsOk(a, refs, arrs, d) && |refs| > 1 && i < ARRAY_SLOTS && arrs != []
    requires |Rest(refs)| == ARRAY_SLOTS * (|arrs| - 1) + i
    requires
      var x := arrs[|arrs| - 1];
      x in a.slots && |a.slots[x]| == ARRAY_SLOTS && m == a.(slots := a.slots[x := SetSlot(a.slots[x], i, e)])
    requires c == m.(info := m.info[d := EntryInfo(refs[0], arrs[0], |refs| + 1)])
    requires refs[|refs| - 1] < e < c.end
    ensures RefsOk(c, refs + [e], arrs, d)
  {
    assert ArrayOk(a, arrs, Rest(refs), |arrs| - 1);
    FillSlot(a, m, arrs, Rest(refs), e, i);
    assert Rest(refs + [e]) == Rest(refs) + [e];
    ArraysInfo(m, c, arrs, Rest(refs) + [e]);
  }

  lemma ArraysInfo(m: Image, c: Image, arrs: seq<nat>, xs: seq<nat>)
    requires ArraysOk(m, arrs, xs) && c.objects == m.objects && c.slots == m.slots && c.next == m.next
    ensures ArraysOk(c, arrs, xs)
  {
    forall j | 0 <= j < |arrs| ensures ArrayOk(c, arrs, xs, j) { assert ArrayOk(m, arrs, xs, j); }
  }
}
