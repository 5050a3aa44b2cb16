/** Writing the entry object and committing it through the global entry array chain. */
module JournalCommit {
  import opened JournalImage
  import opened JournalShape
  import opened JournalWrites
  import opened JournalExtend
  import opened JournalIndex
  import opened JournalChains
  import opened JournalSteps
  import opened JournalQuiet
  import opened JournalLinks

  // ----- the entry object -----

  /** The entry object at `o` is complete and its items lead to complete data objects. */
  ghost predicate EntryReady(img: Image, o: nat, items: seq<Item>, payloads: seq<string>, stamp: Stamp, seqnum: nat) {
    && o in img.objects && img.objects[o] == Object(EntryKind, ENTRY_HEADER + ENTRY_ITEM * |items|)
    && o in img.entries && img.entries[o] == EntryWord(seqnum, stamp)
    && o in img.items && img.items[o] == items
    && 0 < o < img.end && ItemsOk(img, items, payloads)
  }

  lemma ReadyKept(a: Image, b: Image, o: nat, items: seq<Item>, payloads: seq<string>, stamp: Stamp, seqnum: nat)
    requires EntryReady(a, o, items, payloads, stamp, seqnum) && Keeps(a, b)
    ensures EntryReady(b, o, items, payloads, stamp, seqnum)
  {
    ItemsKept(a, b, items, payloads);
  }

  lemma ItemsKept(a: Image, b: Image, items: seq<Item>, payloads: seq<string>)
    requires ItemsOk(a, items, payloads) && Keeps(a, b)
    ensures ItemsOk(b, items, payloads)
  {
    forall k | 0 <= k < |items| ensures HoldsPayload(b, items[k].data, payloads[k]) {
      assert HoldsPayload(a, items[k].data, payloads[k]);
    }
  }

  function EntryMemory(m: Memory): Memory { m.(header := m.header.(tailSeqnum := m.header.tailSeqnum + 1)) }

  ghost function EntryShape(s: Shape, o: nat): Shape { s.(layout := s.layout + [o]) }

  lemma QuietEntry(hash: string -> nat, a: Image, b: Image, s: Shape, recs: seq<Record>, m: Memory, word: EntryWord,
          items: seq<Item>)
    requires Quiet(hash, a, s, recs, m, 0) && b == AddEntry(a, word, items)
    ensures Quiet(hash, b, EntryShape(s, Align8(a.end)), recs, EntryMemory(m), 1) && Grows(a, b, 0)
            && b.header == a.header
    ensures Keeps(a, b) && b.payloads == a.payloads
  {
    hide ObjectsOk, Placed, Tiled, ChainsOk, BucketsOk, FieldsOk, CachesOk, Closed, Readable, Extends;
    var o := Align8(a.end);
    AddEntryExtends(a, word, items);
    EntryParts(hash, a, b, o, word, items);
    AddedStructured(hash, a, b, o, s, EntryShape(s, o));
    ReadableExtend(a, b, o, recs);
    OthersAccounts(hash, a, b, o, m.dataCache, m.fieldCache);
    ExtendsGrows(a, b, o);
  }

  lemma EntryParts(hash: string -> nat, a: Image, b: Image, o: nat, word: EntryWord, items: seq<Item>)
    requires b == AddEntry(a, word, items) && o == Align8(a.end)
    ensures o in b.objects && ObjectOk(hash, b, o) && b.objects[o].kind == EntryKind
    ensures b.dataTable == a.dataTable && b.fieldTable == a.fieldTable && b.header == a.header
  {
  }

  lemma NewEntryReady(a: Image, b: Image, items: seq<Item>, payloads: seq<string>, stamp: Stamp, seqnum: nat)
    requires b == AddEntry(a, EntryWord(seqnum, stamp), items) && ItemsOk(a, items, payloads) && Keeps(a, b)
             && 0 < a.end
    ensures EntryReady(b, Align8(a.end), items, payloads, stamp, seqnum)
  {
    ItemsKept(a, b, items, payloads);
  }

  // ----- the global entry array -----

  /** The tail of the committed chain, which the next array is linked after. */
  ghost function TailArray(recs: seq<Record>): nat { if recs == [] then 0 else recs[|recs| - 1].arr }

  /** The write that commits an entry: its offset put into the first global array, or else its array linked
      after the tail. */
  ghost predicate IsCommit(prev: Image, next: Image, recs: seq<Record>, o: nat, entry: nat) {
    next == if recs == [] then PutSlots(prev, o, [entry]) else LinkArray(prev, TailArray(recs), o)
  }

  /** `h` and `l` continue `h0` and `l0`. Every image added commits `recs`, except the last: that one was made
      by the committing write and commits one record more. */
  ghost predicate CommitsLast(h0: seq<Image>, h: seq<Image>, l0: seq<seq<Record>>, l: seq<seq<Record>>,
          recs: seq<Record>,
          recs': seq<Record>) {
    && |recs'| == |recs| + 1 && recs'[..|recs|] == recs
    && h0 <= h && l0 <= l && |h0| == |l0| < |h| == |l| && |h| > 1
    && (forall t :: |l0| <= t < |l| - 1 ==> l[t] == recs) && l[|l| - 1] == recs'
    && IsCommit(h[|h| - 2], h[|h| - 1], recs, recs'[|recs|].arr, recs'[|recs|].entry)
  }

  lemma CommitsNow(h0: seq<Image>, h: seq<Image>, l0: seq<seq<Record>>, l: seq<seq<Record>>, recs: seq<Record>,
          img: Image,
          r: Record)
    requires Since(h0, h, l0, l, recs) && h != [] && IsCommit(h[|h| - 1], img, recs, r.arr, r.entry)
    ensures CommitsLast(h0, h + [img], l0, l + [recs + [r]], recs, recs + [r])
  {
  }

  lemma CommitsThen(h0: seq<Image>, h1: seq<Image>, h: seq<Image>, l0: seq<seq<Record>>, l1: seq<seq<Record>>,
          l: seq<seq<Record>>, recs: seq<Record>, recs': seq<Record>)
    requires Since(h0, h1, l0, l1, recs) && CommitsLast(h1, h, l1, l, recs, recs')
    ensures CommitsLast(h0, h, l0, l, recs, recs')
  {
  }

  /** The log may be extended by an entry at `o`. */
  ghost predicate After(recs: seq<Record>, o: nat) {
    forall i :: 0 <= i < |recs| ==> recs[i].entry < o && recs[i].arr < o
  }

  /** With an empty log, writing the slot of the first array commits the first entry. */
  lemma CommitFirst(a: Image, c: Image, o: nat, r: Record)
    requires EntryReady(a, r.entry, r.items, r.payloads, r.stamp, 1) && r.entry < o && r.arr == o
    requires o in a.objects && a.objects[o] == Object(ArrayKind, ARRAY_HEADER + 8) && o in a.next && a.next[o] == 0
             && o < a.end
    requires Readable(a, []) && c == PutSlots(a, o, [r.entry])
    ensures Readable(c, [r])
  {
    assert Keeps(a, c);
    ReadyKept(a, c, r.entry, r.items, r.payloads, r.stamp, 1);
  }

  /** Otherwise the link from the old tail is the one write that commits the entry. */
  lemma CommitLink(a: Image, c: Image, recs: seq<Record>, r: Record)
    requires recs != [] && Readable(a, recs) && After(recs, r.entry) && r.entry < r.arr < a.end
    requires EntryReady(a, r.entry, r.items, r.payloads, r.stamp, |recs| + 1)
    requires r.arr in a.objects && a.objects[r.arr] == Object(ArrayKind, ARRAY_HEADER + 8)
    requires r.arr in a.slots && a.slots[r.arr] == [r.entry] && r.arr in a.next && a.next[r.arr] == 0
    requires c == LinkArray(a, TailArray(recs), r.arr)
    ensures Readable(c, recs + [r])
  {
    var more := recs + [r];
    ReadyKept(a, c, r.entry, r.items, r.payloads, r.stamp, |recs| + 1);
    forall i | 0 <= i < |more| ensures RecordOk(c, more[i], i + 1) && Linked(c, more, i) {
      if i < |recs| {
        assert RecordOk(a, recs[i], i + 1) && Linked(a, recs, i);
        ItemsKept(a, c, recs[i].items, recs[i].payloads);
        if i + 1 < |recs| { assert recs[i].arr < recs[|recs| - 1].arr; }
      }
    }
  }

  /** The header in memory once the array is in place. */
  function CommitHeader(h: Header, o: nat, entry: nat, stamp: Stamp, end: nat): Header
    requires end >= HEADER_SIZE
  {
    h.(nObjects := h.nObjects + 2, nEntryArrays := h.nEntryArrays + 1,
       entryArray := if h.entryArray == 0 then o else h.entryArray,
       tailArray := o % 0x1_0000_0000, tailArrayEntries := 1, tailObject := o,
       nEntries := h.nEntries + 1, tailEntry := entry, tailStamp := stamp,
       headSeqnum := if h.headSeqnum == 0 then h.tailSeqnum else h.headSeqnum,
       headRealtime := if h.headSeqnum == 0 then stamp.realtime else h.headRealtime,
       arenaSize := end - HEADER_SIZE)
  }

  /** After the array object is complete, before it is linked. */
  lemma ArrayStructured(hash: string -> nat, a: Image, b: Image, s: Shape, o: nat, recs: seq<Record>, m: Memory,
          entry: nat)
    requires Quiet(hash, a, s, recs, m, 1) && b == AddArray(a, [entry]) && o == Align8(a.end)
    ensures Structured(hash, b, GlobalShape(s, o)) && CachesOk(hash, b, m.dataCache, m.fieldCache)
    ensures b.dataTable == a.dataTable && b.fieldTable == a.fieldTable && b.header == a.header
    ensures o !in s.owner && Keeps(a, b)
    ensures o in b.objects && b.objects[o] == Object(ArrayKind, ARRAY_HEADER + 8) && o in b.slots
            && b.slots[o] == [entry]
    ensures o in b.next && b.next[o] == 0 && b.end == o + ARRAY_HEADER + 8
    ensures |b.objects| == |a.objects| + 1
    ensures forall k :: |OfKind(b.objects, k)| == |OfKind(a.objects, k)| + (if k == ArrayKind then 1 else 0)
  {
    assert ChainsOk(a, s);
    OwnersAreObjects(a, s);
    hide ObjectsOk, Placed, Tiled, ChainsOk, BucketsOk, FieldsOk, CachesOk, Closed, Readable, Extends, AddArray,
        ObjectOk, Counted, Keeps, Grows, Structured;
    StructuredParts(hash, a, s);
    NewArrayFacts(hash, a, [entry]);
    GlobalAdded(hash, a, b, s, o);
    OthersAccounts(hash, a, b, o, m.dataCache, m.fieldCache);
    ExtendsGrows(a, b, o);
    GrowsKeeps(a, b);
    AddArrayWords(a, [entry]);
  }

  lemma StructuredParts(hash: string -> nat, img: Image, s: Shape)
    requires Structured(hash, img, s)
    ensures Closed(img) && Placed(img) && Tiled(img, s.layout) && ChainsOk(img, s)
  {
  }

  lemma GrowsKeeps(a: Image, b: Image)
    requires Grows(a, b, 0)
    ensures Keeps(a, b)
  {
  }

  lemma AddArrayWords(a: Image, slots: seq<nat>)
    ensures
      var o := Align8(a.end);
      var b := AddArray(a, slots);
      o in b.next && b.next[o] == 0 && o in b.slots && b.slots[o] == slots && b.end == o + ARRAY_HEADER + 8 * |slots|
  {
  }

  lemma OwnedRecords(s: Shape, recs: seq<Record>, r: Record)
    requires GlobalOwned(s, recs)
    ensures GlobalOwned(GlobalShape(s, r.arr), recs + [r])
  {
    var more := recs + [r];
    forall i | 0 <= i < |more| ensures more[i].arr in GlobalShape(s, r.arr).owner
        && GlobalShape(s, r.arr).owner[more[i].arr] == 0 {
      if i < |recs| { assert more[i] == recs[i]; }
    }
  }

  /** The commit as seen by the writer: one more record, everything complete and counted. */
  lemma QuietCommit(hash: string -> nat, a: Image, b: Image, c: Image, s: Shape, recs: seq<Record>, m: Memory,
          r: Record)
    requires Quiet(hash, a, s, recs, m, 1) && b == AddArray(a, [r.entry]) && r.arr == Align8(a.end)
    requires c == (if recs == [] then b else LinkArray(b, TailArray(recs), r.arr)) && Readable(c, recs + [r])
    requires c.end >= HEADER_SIZE
    ensures Quiet(hash, c, GlobalShape(s, r.arr), recs + [r],
            m.(header := CommitHeader(m.header, r.arr, r.entry, r.stamp, c.end)), 0)
    ensures Keeps(a, c) && c.header == a.header
  {
    hide Structured, CachesOk, Readable, AddArray, Keeps, GlobalShape;
    ArrayStructured(hash, a, b, s, r.arr, recs, m, r.entry);
    OwnedRecords(s, recs, r);
    var h := CommitHeader(m.header, r.arr, r.entry, r.stamp, c.end);
    assert Counted(b, h, 0);
    if recs != [] {
      var x := TailArray(recs);
      TailLinked(a, recs);
      TailOwned(s, recs, r.arr);
      KeptNext(a, b, [r.entry], x);
      GlobalLinked(hash, b, c, GlobalShape(s, r.arr), x, r.arr);
      CachesSame(hash, b, c, m.dataCache, m.fieldCache);
      LinkKeeps(a, b, c);
    }
  }

  lemma TailLinked(a: Image, recs: seq<Record>)
    requires Readable(a, recs) && recs != []
    ensures TailArray(recs) in a.next && TailArray(recs) in a.objects
  {
    assert RecordOk(a, recs[|recs| - 1], |recs|);
  }

  lemma TailOwned(s: Shape, recs: seq<Record>, o: nat)
    requires GlobalOwned(s, recs) && recs != []
    ensures var x := TailArray(recs); x in GlobalShape(s, o).owner && GlobalShape(s, o).owner[x] == 0
  {
  }

  lemma KeptNext(a: Image, b: Image, slots: seq<nat>, x: nat)
    requires b == AddArray(a, slots) && x in a.next
    ensures x in b.next
  {
  }

  lemma LinkKeeps(a: Image, b: Image, c: Image)
    requires Keeps(a, b) && c == b.(next := c.next)
    ensures Keeps(a, c)
  {
  }

  lemma HeaderKept(a: Image)
    requires Fresh(a, Align8(a.end))
    ensures
      var o := Align8(a.end);
      var b := PutArrayHeader(Pad(a), ARRAY_HEADER + 8);
      Keeps(a, b) && o in b.objects && b.objects[o] == Object(ArrayKind, ARRAY_HEADER + 8)
      && o in b.next && b.next[o] == 0 && o !in b.slots && o < b.end && a.end <= o && b.header == a.header
  {
  }

  lemma SlotsKept(b: Image, o: nat, slots: seq<nat>)
    ensures
      var c := PutSlots(b, o, slots);
      && Keeps(b, c) && c.slots == b.slots[o := slots] && b.end <= c.end && c.header == b.header
          && c.objects == b.objects
      && c.payloads == b.payloads && c.entries == b.entries && c.items == b.items && c.next == b.next
  {
  }

  lemma AddArraySplit(a: Image, entry: nat)
    ensures PutSlots(PutArrayHeader(Pad(a), ARRAY_HEADER + 8), Align8(a.end), [entry]) == AddArray(a, [entry])
    ensures PutSlots(PutArrayHeader(Pad(a), ARRAY_HEADER + 8), Align8(a.end), [entry]).header == a.header
  {
  }

  lemma FreshPad(a: Image)
    requires Fresh(a, Align8(a.end))
    ensures Fresh(Pad(a), Align8(a.end))
  {
  }

  lemma ReadyBefore(a: Image, o: nat, items: seq<Item>, payloads: seq<string>, stamp: Stamp, seqnum: nat)
    requires EntryReady(a, o, items, payloads, stamp, seqnum)
    ensures 0 < o < a.end
  {
  }

  lemma LinkAdvances(a: Image, last: nat, o: nat)
    ensures LinkArray(a, last, o).header == a.header
  {
  }

  // ----- references of the entry's data objects -----

  ghost predicate Mentions(items: seq<Item>, d: nat) { exists k :: 0 <= k < |items| && items[k].data == d }

  /** Every data object among `items` refers to entry `e` as well. */
  ghost function Referred(refs: map<nat, seq<nat>>, items: seq<Item>, e: nat): map<nat, seq<nat>> {
    map d | d in refs :: refs[d] + (if Mentions(items, d) then [e] else [])
  }

  ghost predicate Distinct(items: seq<Item>) {
    forall i, j :: 0 <= i < j < |items| ==> items[i].data != items[j].data
  }

  lemma ReferNone(refs: map<nat, seq<nat>>, e: nat)
    ensures Referred(refs, [], e) == refs
  {
    assert forall d :: d in refs ==> refs[d] + [] == refs[d];
  }

  lemma ReferOne(refs: map<nat, seq<nat>>, items: seq<Item>, k: nat, e: nat)
    requires k < |items| && Distinct(items) && items[k].data in refs
    ensures
      var d := items[k].data;
      var before := Referred(refs, items[..k], e);
      && before[d] == refs[d]
      && Referred(refs, items[..k + 1], e) == before[d := before[d] + [e]]
  {
    var d := items[k].data;
    forall g | g in refs ensures Mentions(items[..k + 1], g) == (Mentions(items[..k], g) || g == d) {
      assert items[..k + 1] == items[..k] + [items[k]];
      if Mentions(items[..k], g) {
        var i :| 0 <= i < k && items[..k][i].data == g;
        assert items[..k + 1][i].data == g;
      }
      if g == d { assert items[..k + 1][k].data == g; }
      if Mentions(items[..k + 1], g) && g != d {
        var i :| 0 <= i < k + 1 && items[..k + 1][i].data == g;
        assert items[..k][i].data == g;
      }
    }
    forall i | 0 <= i < k ensures items[..k][i].data != d {
      assert items[i].data != items[k].data;
    }
  }

  lemma CommitRefs(s: Shape, s': Shape, recs: seq<Record>, r: Record)
    requires RefsMatch(s, recs) && s'.refs == Referred(s.refs, r.items, r.entry)
    ensures RefsMatch(s', recs + [r])
  {
    forall d | d in s'.refs ensures s'.refs[d] == RefsIn(recs + [r], d) {
      assert (recs + [r])[..|recs|] == recs;
      assert Refers(r, d) == Mentions(r.items, d);
    }
  }

  /** Entries refer to places before the end of the file. */
  ghost predicate Below(refs: map<nat, seq<nat>>, end: nat) {
    forall d :: d in refs ==> (refs[d] != [] ==> refs[d][|refs[d]| - 1] < end)
  }

  lemma RefsBelow(hash: string -> nat, img: Image, s: Shape, recs: seq<Record>, m: Memory)
    requires Quiet(hash, img, s, recs, m, 0)
    ensures Below(s.refs, img.end) && After(recs, img.end)
  {
    hide ObjectsOk, Placed, Tiled, BucketsOk, FieldsOk, CachesOk, Closed, Counted;
    assert ChainsOk(img, s);
    forall d | d in s.refs ensures s.refs[d] != [] ==> s.refs[d][|s.refs[d]| - 1] < img.end {
      assert RefsOk(img, s.refs[d], s.arrs[d], d);
    }
    forall i | 0 <= i < |recs| ensures recs[i].entry < img.end && recs[i].arr < img.end {
      assert RecordOk(img, recs[i], i + 1);
    }
  }

  lemma ReferDomain(refs: map<nat, seq<nat>>, items: seq<Item>, e: nat)
    ensures Referred(refs, items, e).Keys == refs.Keys
  {
  }

  lemma SelfKeeps(a: Image)
    ensures Keeps(a, a)
  {
  }

  lemma KeepsEnd(a: Image, b: Image)
    requires Keeps(a, b)
    ensures a.end <= b.end
  {
  }

  lemma BelowEntry(refs: map<nat, seq<nat>>, recs: seq<Record>, end: nat, entry: nat)
    requires Below(refs, end) && After(recs, end) && end <= entry
    ensures Below(refs, entry) && After(recs, entry)
  {
  }

  lemma CommitEnd(a: Image, c: Image, slots: seq<nat>, last: nat, o: nat)
    requires c == AddArray(a, slots) || c == LinkArray(AddArray(a, slots), last, o)
    ensures a.end <= c.end && c.payloads == a.payloads
  {
  }

  lemma SameRefs(s: Shape, o: nat)
    ensures GlobalShape(s, o).refs == s.refs && GlobalShape(s, o).layout == s.layout + [o]
  {
  }

  /** The header after the commit describes the longer log. */
  lemma CommitLog(h: Header, recs: seq<Record>, r: Record, end: nat)
    requires HeaderOk(h, recs, 1) && end >= HEADER_SIZE && (recs != [] ==> recs[0].arr != 0)
    ensures HeaderOk(CommitHeader(h, r.arr, r.entry, r.stamp, end), recs + [r], 0)
  {
  }
}
