/** Linking a data object to the entry being written: the writer's state after each of the three ways
    `linkDataToEntry` can go. */
module JournalLinks {
  import opened JournalImage
  import opened JournalShape
  import opened JournalWrites
  import opened JournalExtend
  import opened JournalIndex
  import opened JournalChains
  import opened JournalSteps
  import opened JournalQuiet

  /** Objects, payloads and entries are kept; chain words may have been patched. */
  ghost predicate Keeps(a: Image, b: Image) {
    && a.end <= b.end
    && (forall o :: o in a.objects ==> o in b.objects && b.objects[o] == a.objects[o])
    && (forall o :: o in a.payloads ==> o in b.payloads && b.payloads[o] == a.payloads[o])
    && (forall o :: o in a.entries ==> o in b.entries && b.entries[o] == a.entries[o])
    && (forall o :: o in a.items ==> o in b.items && b.items[o] == a.items[o])
  }

  /** What `linkDataToEntry` relies on: the chain of `d` as it stands. */
  lemma ChainFacts(hash: string -> nat, img: Image, s: Shape, recs: seq<Record>, m: Memory, d: nat)
    requires Quiet(hash, img, s, recs, m, 1) && d in s.refs
    ensures d in s.arrs && RefsOk(img, s.refs[d], s.arrs[d], d) && d != 0 && 0 !in img.objects
    ensures d in img.info && img.info[d] == EntryInfo(SlotAt(s.refs[d], 0), SlotAt(s.arrs[d], 0), |s.refs[d]|)
    ensures forall j :: 0 <= j < |s.arrs[d]| ==>
              s.arrs[d][j] in img.objects && 0 < s.arrs[d][j] < img.end && s.arrs[d][j] in s.owner
                  && s.owner[s.arrs[d][j]] == d
    ensures forall i, j :: 0 <= i < |recs| && 0 <= j < |s.arrs[d]| ==> recs[i].arr != s.arrs[d][j]
    ensures ZeroWords(s.refs[d], img.info[d])
  {
    hide ObjectsOk, Tiled, BucketsOk, FieldsOk, CachesOk, Counted, Readable, RefsOk;
    assert d in s.arrs && RefsOk(img, s.refs[d], s.arrs[d], d);
    assert d in img.objects && 0 !in img.objects;
    HasInfo(img, s.refs[d], s.arrs[d], d);
    forall j | 0 <= j < |s.arrs[d]|
      ensures s.arrs[d][j] in img.objects && 0 < s.arrs[d][j] < img.end && s.arrs[d][j] in s.owner
              && s.owner[s.arrs[d][j]] == d
    {
      assert s.arrs[d][j] in s.owner;
      assert img.objects[s.arrs[d][j]].size >= 16;
    }
    FirstZero(img, s.refs[d], s.arrs[d], d);
  }

  /** A zero word says there is nothing to follow. */
  ghost predicate ZeroWords(refs: seq<nat>, info: EntryInfo) {
    && (info.first == 0 <==> refs == [])
    && (info.arr == 0 <==> |refs| <= 1)
  }

  lemma FirstZero(img: Image, refs: seq<nat>, arrs: seq<nat>, d: nat)
    requires RefsOk(img, refs, arrs, d)
    requires forall j :: 0 <= j < |arrs| ==> 0 < arrs[j]
    ensures ZeroWords(refs, img.info[d])
  {
  }

  /** The log, the ownership, the caches and the counters do not depend on chain words. */
  lemma PartsPatched(hash: string -> nat, a: Image, c: Image, s: Shape, recs: seq<Record>, m: Memory, x: nat)
    requires Readable(a, recs) && CachesOk(hash, a, m.dataCache, m.fieldCache) && Counted(a, m.header, 1)
    requires Patched(a, c) && c.header == a.header
    requires forall o :: o in a.slots && o != x ==> c.slots[o] == a.slots[o]
    requires forall o :: o in a.next && o != x ==> c.next[o] == a.next[o]
    requires forall i :: 0 <= i < |recs| ==> recs[i].arr != x
    ensures Readable(c, recs) && CachesOk(hash, c, m.dataCache, m.fieldCache) && Counted(c, m.header, 1) && Keeps(a, c)
  {
    hide Readable;
    ArrayKeeps(a, c, recs, x);
  }

  lemma NotGlobal(recs: seq<Record>, s: Shape, d: nat, x: nat)
    requires GlobalOwned(s, recs) && d != 0 && (x != 0 ==> x in s.owner && s.owner[x] == d)
    requires x == 0 ==> forall i :: 0 <= i < |recs| ==> recs[i].arr != 0
    ensures forall i :: 0 <= i < |recs| ==> recs[i].arr != x
  {
  }

  lemma ArraysNonZero(img: Image, recs: seq<Record>)
    requires Readable(img, recs)
    ensures forall i :: 0 <= i < |recs| ==> recs[i].arr != 0
  {
    forall i | 0 <= i < |recs| ensures recs[i].arr != 0 { assert RecordOk(img, recs[i], i + 1); }
  }

  /** The chain of `d` was extended in place: first entry, or a free slot of array `x`. */
  lemma QuietInPlace(hash: string -> nat, a: Image, c: Image, s: Shape, recs: seq<Record>, m: Memory, d: nat, e: nat,
          x: nat)
    requires Quiet(hash, a, s, recs, m, 1) && d in s.refs && d != 0 && 0 !in a.objects
    requires Patched(a, c) && c.header == a.header && c.fieldTable == a.fieldTable && OneChain(a, c, s, d, x)
    requires d in s.arrs && RefsOk(c, s.refs[d] + [e], s.arrs[d], d)
    ensures Quiet(hash, c, Extended(s, d, e, 0), recs, m, 1) && Keeps(a, c)
  {
    hide Structured, Readable, CachesOk, Counted, RefsOk, Keeps;
    ArraysNonZero(a, recs);
    NotGlobal(recs, s, d, x);
    PartsPatched(hash, a, c, s, recs, m, x);
    LinkInPlace(hash, a, c, s, d, e, x);
  }

  function ArrayMemory(m: Memory, o: nat): Memory {
    m.(header := m.header.(nObjects := m.header.nObjects + 1, nEntryArrays := m.header.nEntryArrays + 1,
        tailObject := o))
  }

  lemma ArrayAccounts(hash: string -> nat, a: Image, b: Image, o: nat, recs: seq<Record>, m: Memory)
    requires Extends(a, b, o) && Closed(a) && b.header == a.header && b.objects[o].kind == ArrayKind
    requires Readable(a, recs) && CachesOk(hash, a, m.dataCache, m.fieldCache) && Counted(a, m.header, 1)
    ensures Readable(b, recs) && CachesOk(hash, b, m.dataCache, m.fieldCache) && Counted(b, ArrayMemory(m, o).header, 1)
            && Keeps(a, b)
  {
    hide Readable, CachesOk;
    ReadableExtend(a, b, o, recs);
    OthersAccounts(hash, a, b, o, m.dataCache, m.fieldCache);
    ExtendsGrows(a, b, o);
  }

  lemma KeepsThen(a: Image, b: Image, c: Image)
    requires Keeps(a, b) && Keeps(b, c)
    ensures Keeps(a, c)
  {
  }

  lemma OwnedMore(s: Shape, recs: seq<Record>, d: nat, e: nat, o: nat)
    requires GlobalOwned(s, recs) && o !in s.owner && d in s.refs && d in s.arrs
    ensures GlobalOwned(Extended(s, d, e, o), recs)
  {
  }

  lemma ChainWords(a: Image, c: Image, s: Shape, d: nat, x: nat)
    requires OneChain(a, c, s, d, x)
    ensures x != 0 ==> x in s.owner && s.owner[x] == d
    ensures forall k :: k in a.slots && k != x ==> k in c.slots && c.slots[k] == a.slots[k]
    ensures forall k :: k in a.next && k != x ==> k in c.next && c.next[k] == a.next[k]
  {
  }

  lemma PartsWithArray(hash: string -> nat, a: Image, b: Image, c: Image, s: Shape, recs: seq<Record>, m: Memory,
          d: nat, o: nat, x: nat)
    requires Extends(a, b, o) && Closed(a) && b.header == a.header && b.objects[o].kind == ArrayKind
    requires Readable(a, recs) && CachesOk(hash, a, m.dataCache, m.fieldCache) && Counted(a, m.header, 1)
    requires Patched(b, c) && c.header == b.header && OneChain(b, c, s, d, x)
    requires forall i :: 0 <= i < |recs| ==> recs[i].arr != x
    ensures Readable(c, recs) && CachesOk(hash, c, m.dataCache, m.fieldCache) && Counted(c, ArrayMemory(m, o).header, 1)
            && Keeps(a, c)
  {
    hide Readable, CachesOk, Counted, Keeps, Extends, Closed, Patched;
    ChainWords(b, c, s, d, x);
    ArrayAccounts(hash, a, b, o, recs, m);
    PartsPatched(hash, b, c, s, recs, ArrayMemory(m, o), x);
    KeepsThen(a, b, c);
  }

  /** The chain of `d` got a new array `o`, linked after array `x` (0 if it is the first). */
  lemma QuietWithArray(hash: string -> nat, a: Image, b: Image, c: Image, s: Shape, recs: seq<Record>, m: Memory,
          d: nat, e: nat, o: nat, x: nat)
    requires Quiet(hash, a, s, recs, m, 1) && d in s.refs && d != 0 && 0 !in a.objects
    requires Extends(a, b, o) && b.dataTable == a.dataTable && b.fieldTable == a.fieldTable && b.header == a.header
             && o != 0
    requires ObjectOk(hash, b, o) && b.objects[o].kind == ArrayKind
    requires Patched(b, c) && c.header == b.header && c.fieldTable == b.fieldTable
    requires OneChain(a, c, s, d, x) && OneChain(b, c, s, d, x)
    requires d in s.arrs && RefsOk(c, s.refs[d] + [e], s.arrs[d] + [o], d)
    ensures Quiet(hash, c, Extended(s, d, e, o), recs, ArrayMemory(m, o), 1) && Keeps(a, c)
  {
    assert Closed(a) && ChainsOk(a, s);
    OwnersAreObjects(a, s);
    NewObject(a, b, o);
    ChainWords(b, c, s, d, x);
    hide Structured, Readable, CachesOk, Counted, RefsOk, Keeps, Extends, Closed, ChainsOk, OneChain, Patched,
        GlobalOwned, Extended, ObjectOk;
    ArraysNonZero(a, recs);
    NotGlobal(recs, s, d, x);
    PartsWithArray(hash, a, b, c, s, recs, m, d, o, x);
    LinkWithArray(hash, a, b, c, s, d, e, o, x);
    OwnedMore(s, recs, d, e, o);
  }

  // ----- the outcomes of `linkDataToEntry` -----

  ghost predicate NextRef(img: Image, refs: seq<nat>, e: nat) {
    0 < e < img.end && (refs != [] ==> refs[|refs| - 1] < e)
  }

  lemma FirstLinked(hash: string -> nat, a: Image, c: Image, s: Shape, recs: seq<Record>, m: Memory, d: nat, e: nat)
    requires Quiet(hash, a, s, recs, m, 1) && d in s.refs && s.refs[d] == [] && 0 < e < a.end
    requires c == a.(info := a.info[d := EntryInfo(e, 0, 1)])
    ensures Quiet(hash, c, Extended(s, d, e, 0), recs, m, 1) && Keeps(a, c) && c.header == a.header
            && c.payloads == a.payloads
  {
    hide Quiet, Extended, Keeps;
    ChainFacts(hash, a, s, recs, m, d);
    assert s.arrs[d] == [];
    LinkFirst(a, c, d, e);
    assert s.refs[d] + [e] == [e];
    assert c.info.Keys == a.info.Keys;
    QuietInPlace(hash, a, c, s, recs, m, d, e, 0);
  }

  lemma SlotLinked(hash: string -> nat, a: Image, n: Image, c: Image, s: Shape, recs: seq<Record>, m: Memory, d: nat,
          e: nat, i: nat)
    requires Quiet(hash, a, s, recs, m, 1) && d in s.refs && d in s.arrs && NextRef(a, s.refs[d], e) && |s.refs[d]| > 1
    requires s.arrs[d] != [] && i < ARRAY_SLOTS && |Rest(s.refs[d])| == ARRAY_SLOTS * (|s.arrs[d]| - 1) + i
    requires var x := s.arrs[d][|s.arrs[d]| - 1];
             x in a.slots && |a.slots[x]| == ARRAY_SLOTS && n == a.(slots := a.slots[x := SetSlot(a.slots[x], i, e)])
    requires c == n.(info := n.info[d := EntryInfo(s.refs[d][0], s.arrs[d][0], |s.refs[d]| + 1)])
    ensures Quiet(hash, c, Extended(s, d, e, 0), recs, m, 1) && Keeps(a, c) && c.header == a.header
            && c.payloads == a.payloads
  {
    hide Quiet, Extended, Keeps, RefsOk;
    ChainFacts(hash, a, s, recs, m, d);
    LinkSlot(a, n, c, s.refs[d], s.arrs[d], d, e, i);
    assert c.info.Keys == a.info.Keys && c.slots.Keys == a.slots.Keys;
    QuietInPlace(hash, a, c, s, recs, m, d, e, s.arrs[d][|s.arrs[d]| - 1]);
  }

  /** Adding an array leaves the other words alone. */
  lemma NewArrayFacts(hash: string -> nat, a: Image, slots: seq<nat>)
    requires Placed(a) && Closed(a)
    ensures
      var o := Align8(a.end);
      var b := AddArray(a, slots);
      && Extends(a, b, o) && o !in a.objects && a.end <= o && a.end <= b.end
      && b.objects[o] == Object(ArrayKind, ARRAY_HEADER + 8 * |slots|)
      && b.slots == a.slots[o := slots] && b.next == a.next[o := 0] && o !in a.slots && o !in a.next
      && b.info == a.info
      && b.dataTable == a.dataTable && b.fieldTable == a.fieldTable && b.header == a.header
      && b.payloads == a.payloads && ObjectOk(hash, b, o)
  {
    NextIsFresh(a);
    AddArrayExtends(a, slots);
  }

  lemma ArrayLinked(hash: string -> nat, a: Image, n: Image, c: Image, s: Shape, recs: seq<Record>, m: Memory, d: nat,
          e: nat, o: nat)
    requires Quiet(hash, a, s, recs, m, 1) && d in s.refs && d in s.arrs && NextRef(a, s.refs[d], e) && |s.refs[d]| > 0
    requires |Rest(s.refs[d])| % ARRAY_SLOTS == 0 && o == Align8(a.end)
    requires n == if s.arrs[d] == [] then AddArray(a, FirstSlots(e))
             else LinkArray(AddArray(a, FirstSlots(e)), s.arrs[d][|s.arrs[d]| - 1], o)
    requires c == n.(info := n.info[d := EntryInfo(s.refs[d][0], SlotAt(s.arrs[d] + [o], 0), |s.refs[d]| + 1)])
    ensures Quiet(hash, c, Extended(s, d, e, o), recs, ArrayMemory(m, o), 1) && Keeps(a, c) && c.header == a.header
            && c.payloads == a.payloads
  {
    hide Quiet, Extended, Keeps, RefsOk, AddArray, Extends, ObjectOk, ArrayMemory, FirstSlots, ArrayAppended, ZeroWords,
        Placed, Closed, Fresh;
    ChainFacts(hash, a, s, recs, m, d);
    var b := AddArray(a, FirstSlots(e));
    QuietFresh(hash, a, s, recs, m, 1);
    NewArrayFacts(hash, a, FirstSlots(e));
    var last := if s.arrs[d] == [] then 0 else s.arrs[d][|s.arrs[d]| - 1];
    Appended(a, b, n, o, last, e);
    assert forall k :: 0 <= k < |s.arrs[d]| ==> 0 < s.arrs[d][k] < o;
    LinkNewArray(a, b, n, c, s.refs[d], s.arrs[d], d, e, o);
    LastHasNext(a, s.refs[d], s.arrs[d], d);
    ArrayPatches(a, b, n, c, s, d, e, o, last);
    QuietWithArray(hash, a, b, c, s, recs, m, d, e, o, last);
  }

  lemma Appended(a: Image, b: Image, n: Image, o: nat, last: nat, e: nat)
    requires Extends(a, b, o) && b.dataTable == a.dataTable
             && b.objects[o] == Object(ArrayKind, ARRAY_HEADER + 8 * ARRAY_SLOTS)
    requires b.slots == a.slots[o := FirstSlots(e)] && b.next == a.next[o := 0]
    requires n == if last == 0 then b else LinkArray(b, last, o)
    ensures ArrayAppended(a, b, n, o, last, e)
  {
  }

  lemma ArrayPatches(a: Image, b: Image, n: Image, c: Image, s: Shape, d: nat, e: nat, o: nat, last: nat)
    requires o !in a.slots && o !in a.next && b.info == a.info && d in a.info
    requires b.slots == a.slots[o := FirstSlots(e)] && b.next == a.next[o := 0]
    requires n == if last == 0 then b else LinkArray(b, last, o)
    requires c == n.(info := c.info) && SameBut(n.info, c.info, d) && d in c.info
    requires last != 0 ==> last in a.next && last in s.owner && s.owner[last] == d
    ensures Patched(b, c) && OneChain(a, c, s, d, last) && OneChain(b, c, s, d, last)
  {
    assert c.info.Keys == b.info.Keys && c.next.Keys == b.next.Keys;
  }

  lemma LastHasNext(img: Image, refs: seq<nat>, arrs: seq<nat>, d: nat)
    requires RefsOk(img, refs, arrs, d)
    ensures arrs != [] ==> arrs[|arrs| - 1] in img.next
  {
    if arrs != [] { assert ArrayOk(img, arrs, Rest(refs), |arrs| - 1); }
  }

  lemma ChainNonEmpty(img: Image, refs: seq<nat>, arrs: seq<nat>, d: nat)
    requires RefsOk(img, refs, arrs, d) && |refs| > 1
    ensures ArraysOk(img, arrs, Rest(refs)) && arrs != [] && Rest(refs) != []
    ensures forall k :: 0 <= k < |Rest(refs)| ==> Rest(refs)[k] != 0
  {
  }

  /** Where the reference to entry `e` was stored: inline, in slot `i` of the last array, or in new array `o`. */
  ghost predicate Stored(a: Image, n: Image, s: Shape, d: nat, e: nat, info: EntryInfo, o: nat, i: nat) {
    && d in s.refs && d in s.arrs
    && var refs, arrs := s.refs[d], s.arrs[d];
    if refs == [] then n == a && o == 0 && info == EntryInfo(e, 0, 0)
    else if o == 0 then
      && |refs| > 1 && arrs != [] && i < ARRAY_SLOTS && |Rest(refs)| == ARRAY_SLOTS * (|arrs| - 1) + i
      && var x := arrs[|arrs| - 1];
      && x in a.slots && |a.slots[x]| == ARRAY_SLOTS && n == a.(slots := a.slots[x := SetSlot(a.slots[x], i, e)])
      && info == EntryInfo(refs[0], arrs[0], |refs|)
    else
      && |Rest(refs)| % ARRAY_SLOTS == 0 && o == Align8(a.end)
      && n == (if arrs == [] then AddArray(a, FirstSlots(e))
          else LinkArray(AddArray(a, FirstSlots(e)), arrs[|arrs| - 1], o))
      && info == EntryInfo(refs[0], SlotAt(arrs + [o], 0), |refs|)
  }

  function StoredMemory(m: Memory, o: nat): Memory { if o == 0 then m else ArrayMemory(m, o) }

  lemma StoredFirst(a: Image, n: Image, s: Shape, d: nat, e: nat, info: EntryInfo, o: nat, i: nat)
    requires Stored(a, n, s, d, e, info, o, i) && s.refs[d] == []
    ensures n == a && o == 0 && info == EntryInfo(e, 0, 0)
  {
  }

  lemma StoredSlot(a: Image, n: Image, s: Shape, d: nat, e: nat, info: EntryInfo, o: nat, i: nat)
    requires Stored(a, n, s, d, e, info, o, i) && s.refs[d] != [] && o == 0
    ensures
      var refs, arrs := s.refs[d], s.arrs[d];
      && d in s.arrs && |refs| > 1 && arrs != [] && i < ARRAY_SLOTS && |Rest(refs)| == ARRAY_SLOTS * (|arrs| - 1) + i
      && var x := arrs[|arrs| - 1];
      && x in a.slots && |a.slots[x]| == ARRAY_SLOTS && n == a.(slots := a.slots[x := SetSlot(a.slots[x], i, e)])
      && info == EntryInfo(refs[0], arrs[0], |refs|)
  {
  }

  lemma StoredArray(a: Image, n: Image, s: Shape, d: nat, e: nat, info: EntryInfo, o: nat, i: nat)
    requires Stored(a, n, s, d, e, info, o, i) && s.refs[d] != [] && o != 0
    ensures
      var refs, arrs := s.refs[d], s.arrs[d];
      && d in s.arrs && |Rest(refs)| % ARRAY_SLOTS == 0 && o == Align8(a.end)
      && n == (if arrs == [] then AddArray(a, FirstSlots(e))
          else LinkArray(AddArray(a, FirstSlots(e)), arrs[|arrs| - 1], o))
      && info == EntryInfo(refs[0], SlotAt(arrs + [o], 0), |refs|)
  {
  }

  lemma InfoOnly(n: Image, c: Image, d: nat, info: EntryInfo, info': EntryInfo)
    requires c == n.(info := n.info[d := info.(count := info.count + 1)]) && info' == info.(count := info.count + 1)
    ensures c == n.(info := n.info[d := info'])
  {
  }

  lemma InFile(img: Image, refs: seq<nat>, e: nat)
    requires NextRef(img, refs, e)
    ensures 0 < e < img.end
  {
  }

  lemma MoreMemory(m: Memory, o: nat)
    requires o != 0
    ensures StoredMemory(m, o) == ArrayMemory(m, o)
  {
  }

  lemma NoMemory(m: Memory)
    ensures StoredMemory(m, 0) == m
  {
  }

  lemma LinkedFirst(hash: string -> nat, a: Image, n: Image, c: Image, s: Shape, recs: seq<Record>, m: Memory, d: nat,
          e: nat,
          info: EntryInfo, o: nat, i: nat)
    requires Quiet(hash, a, s, recs, m, 1) && Stored(a, n, s, d, e, info, o, i) && NextRef(a, s.refs[d], e)
             && s.refs[d] == []
    requires c == n.(info := n.info[d := info.(count := info.count + 1)])
    ensures Quiet(hash, c, Extended(s, d, e, o), recs, StoredMemory(m, o), 1) && Keeps(a, c) && c.header == a.header
            && c.payloads == a.payloads
  {
    hide *;
    StoredDomain(a, n, s, d, e, info, o, i);
    StoredFirst(a, n, s, d, e, info, o, i);
    InFile(a, s.refs[d], e);
    InfoOnly(n, c, d, info, EntryInfo(e, 0, 1));
    NoMemory(m);
    FirstLinked(hash, a, c, s, recs, m, d, e);
  }

  lemma LinkedSlot(hash: string -> nat, a: Image, n: Image, c: Image, s: Shape, recs: seq<Record>, m: Memory, d: nat,
          e: nat,
          info: EntryInfo, o: nat, i: nat)
    requires Quiet(hash, a, s, recs, m, 1) && Stored(a, n, s, d, e, info, o, i) && NextRef(a, s.refs[d], e)
             && s.refs[d] != [] && o == 0
    requires c == n.(info := n.info[d := info.(count := info.count + 1)])
    ensures Quiet(hash, c, Extended(s, d, e, o), recs, StoredMemory(m, o), 1) && Keeps(a, c) && c.header == a.header
            && c.payloads == a.payloads
  {
    StoredDomain(a, n, s, d, e, info, o, i);
    StoredSlot(a, n, s, d, e, info, o, i);
    hide Quiet, Extended, Keeps, AddArray, LinkArray, Stored, Rest, SetSlot, FirstSlots, NextRef;
    SlotLinked(hash, a, n, c, s, recs, m, d, e, i);
  }

  lemma LinkedArray(hash: string -> nat, a: Image, n: Image, c: Image, s: Shape, recs: seq<Record>, m: Memory, d: nat,
          e: nat,
          info: EntryInfo, o: nat, i: nat)
    requires Quiet(hash, a, s, recs, m, 1) && Stored(a, n, s, d, e, info, o, i) && NextRef(a, s.refs[d], e)
             && s.refs[d] != [] && o != 0
    requires c == n.(info := n.info[d := info.(count := info.count + 1)])
    ensures Quiet(hash, c, Extended(s, d, e, o), recs, StoredMemory(m, o), 1) && Keeps(a, c) && c.header == a.header
            && c.payloads == a.payloads
  {
    hide *;
    StoredDomain(a, n, s, d, e, info, o, i);
    StoredArray(a, n, s, d, e, info, o, i);
    InfoOnly(n, c, d, info, EntryInfo(s.refs[d][0], SlotAt(s.arrs[d] + [o], 0), |s.refs[d]| + 1));
    MoreMemory(m, o);
    ArrayLinked(hash, a, n, c, s, recs, m, d, e, o);
  }

  lemma StoredLinked(hash: string -> nat, a: Image, n: Image, c: Image, s: Shape, recs: seq<Record>, m: Memory, d: nat,
          e: nat,
          info: EntryInfo, o: nat, i: nat)
    requires Quiet(hash, a, s, recs, m, 1) && Stored(a, n, s, d, e, info, o, i) && NextRef(a, s.refs[d], e)
    requires c == n.(info := n.info[d := info.(count := info.count + 1)])
    ensures Quiet(hash, c, Extended(s, d, e, o), recs, StoredMemory(m, o), 1) && Keeps(a, c) && c.header == a.header
            && c.payloads == a.payloads
  {
    hide *;
    StoredDomain(a, n, s, d, e, info, o, i);
    if s.refs[d] == [] {
      LinkedFirst(hash, a, n, c, s, recs, m, d, e, info, o, i);
    } else if o == 0 {
      LinkedSlot(hash, a, n, c, s, recs, m, d, e, info, o, i);
    } else {
      LinkedArray(hash, a, n, c, s, recs, m, d, e, info, o, i);
    }
  }

  lemma StoredDomain(a: Image, n: Image, s: Shape, d: nat, e: nat, info: EntryInfo, o: nat, i: nat)
    requires Stored(a, n, s, d, e, info, o, i)
    ensures d in s.refs && d in s.arrs
  {
  }
}
