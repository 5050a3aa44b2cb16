/** What `AppendEntry` relies on: gathering the items of an entry, header writes, and the hash assumption. */
module JournalAppend {
  import opened JournalImage
  import opened JournalShape
  import opened JournalWrites
  import opened JournalExtend
  import opened JournalIndex
  import opened JournalSteps
  import opened JournalQuiet
  import opened JournalLinks
  import opened JournalCommit

  // ----- payloads and hashes -----

  ghost function StoredTexts(img: Image, kind: Kind): set<string> {
    set o | o in img.objects && img.objects[o].kind == kind && o in img.payloads :: img.payloads[o]
  }

  function Texts(fields: map<string, string>): set<string> {
    set k | k in fields :: Payload(k, fields[k])
  }

  /** The 64-bit hash does not collide on what the file holds and what is being added; deduplication
      goes by the hash alone. */
  ghost predicate HashOk(hash: string -> nat, img: Image, fields: map<string, string>) {
    && InjectiveOn(hash, StoredTexts(img, DataKind) + Texts(fields))
    && InjectiveOn(hash, StoredTexts(img, FieldKind) + fields.Keys)
  }

  lemma HashNoClash(hash: string -> nat, img: Image, fields: map<string, string>)
    requires HashOk(hash, img, fields)
    ensures NoClash(hash, img, StoredTexts(img, DataKind) + Texts(fields), StoredTexts(img, FieldKind) + fields.Keys)
  {
  }

  ghost predicate PlainKeys(fields: map<string, string>) { forall k :: k in fields ==> '=' !in k }

  /** A cached data object holds the payload it is looked up by. */
  lemma CachedData(hash: string -> nat, img: Image, s: Shape, recs: seq<Record>, m: Memory, text: string,
          texts: set<string>, names: set<string>)
    requires Quiet(hash, img, s, recs, m, 0) && NoClash(hash, img, texts, names) && text in texts
             && hash(text) in m.dataCache
    ensures IsData(hash, img, m.dataCache[hash(text)], text) && m.dataCache[hash(text)] in s.refs
  {
    assert ChainsOk(img, s);
    assert ObjectOk(hash, img, m.dataCache[hash(text)]);
  }

  lemma QuietCache(hash: string -> nat, img: Image, s: Shape, recs: seq<Record>, m: Memory, text: string, o: nat)
    requires Quiet(hash, img, s, recs, m, 0) && IsData(hash, img, o, text)
    ensures Quiet(hash, img, s, recs, m.(dataCache := m.dataCache[hash(text) := o]), 0)
  {
    hide Structured, Readable;
  }

  // ----- items gathered so far -----

  ghost function Done(fields: map<string, string>, todo: set<string>): map<string, string> {
    map k | k in fields && k !in todo :: fields[k]
  }

  lemma NoneDone(fields: map<string, string>)
    ensures Texts(Done(fields, fields.Keys)) == {} && fields.Keys - fields.Keys == {}
  {
  }

  lemma OneDone(fields: map<string, string>, todo: set<string>, k: string)
    requires k in todo && todo <= fields.Keys
    ensures Texts(Done(fields, todo - {k})) == Texts(Done(fields, todo)) + {Payload(k, fields[k])}
    ensures fields.Keys - (todo - {k}) == fields.Keys - todo + {k}
  {
    var more := Done(fields, todo - {k});
    forall t | t in Texts(Done(fields, todo)) + {Payload(k, fields[k])} ensures t in Texts(more) {
      if t == Payload(k, fields[k]) {
        assert k in more;
      } else {
        var j :| j in Done(fields, todo) && t == Payload(j, fields[j]);
        assert j in more;
      }
    }
  }

  lemma AllDone(fields: map<string, string>)
    ensures Done(fields, {}) == fields && fields.Keys - {} == fields.Keys
  {
  }

  /** The items lead to the payloads of the fields handled so far, each to its own data object. */
  ghost predicate Gathered(img: Image, refs: map<nat, seq<nat>>, fields: map<string, string>, todo: set<string>,
          items: seq<Item>, payloads: seq<string>) {
    && ItemsOk(img, items, payloads) && Distinct(items)
    && (forall k :: 0 <= k < |items| ==> items[k].data in refs)
    && (forall k :: 0 <= k < |payloads| ==>
          Cut(payloads[k]).Some? && Cut(payloads[k]).value.0 in fields && Cut(payloads[k]).value.0 !in todo)
    && FieldsOf(payloads) == Done(fields, todo)
  }

  /** Each item carries the hash of its payload. */
  ghost predicate HashesOk(hash: string -> nat, items: seq<Item>, payloads: seq<string>) {
    |items| == |payloads| && forall k :: 0 <= k < |items| ==> items[k].hash == hash(payloads[k])
  }

  lemma GatherKept(a: Image, b: Image,
          refs: map<nat, seq<nat>>, refs': map<nat, seq<nat>>, fields: map<string, string>, todo: set<string>,
          items: seq<Item>, payloads: seq<string>)
    requires Gathered(a, refs, fields, todo, items, payloads) && Keeps(a, b) && refs.Keys <= refs'.Keys
    ensures Gathered(b, refs', fields, todo, items, payloads)
  {
    ItemsKept(a, b, items, payloads);
  }

  lemma GatherOne(hash: string -> nat, img: Image,
          refs: map<nat, seq<nat>>, fields: map<string, string>, todo: set<string>,
          items: seq<Item>, payloads: seq<string>, k: string, o: nat)
    requires Gathered(img, refs, fields, todo, items, payloads) && k in todo && k in fields && '=' !in k
    requires IsData(hash, img, o, Payload(k, fields[k])) && o in refs
    ensures Gathered(img, refs, fields, todo - {k}, items + [Item(o, hash(Payload(k, fields[k])))],
            payloads + [Payload(k, fields[k])])
  {
    var text := Payload(k, fields[k]);
    var items' := items + [Item(o, hash(text))];
    var payloads' := payloads + [text];
    CutPayload(k, fields[k]);
    forall i | 0 <= i < |items| ensures items[i].data != o {
      assert HoldsPayload(img, items[i].data, payloads[i]);
      assert Cut(payloads[i]).value.0 !in todo;
    }
    assert payloads'[..|payloads|] == payloads;
    assert text[|k|] == '=';
    assert Done(fields, todo - {k}) == Done(fields, todo)[k := fields[k]];
  }

  // ----- header writes -----

  ghost predicate SameCounts(h: Header, h': Header) {
    && h'.nObjects == h.nObjects && h'.nData == h.nData && h'.nFields == h.nFields
    && h'.nEntries == h.nEntries && h'.nEntryArrays == h.nEntryArrays
  }

  lemma QuietHeader(hash: string -> nat, a: Image, b: Image, s: Shape, recs: seq<Record>, m: Memory, m': Memory)
    requires Quiet(hash, a, s, recs, m, 0) && b == a.(header := b.header) && Announced(b.header, recs)
    requires m' == m.(header := m'.header) && SameCounts(m.header, m'.header)
    ensures Quiet(hash, b, s, recs, m', 0) && Keeps(a, b) && Readable(b, recs)
  {
    hide Structured, Readable, CachesOk, Keeps, Announced;
    HeaderReadable(a, b, recs);
    HeaderStructured(hash, a, b, s);
    CachesSame(hash, a, b, m.dataCache, m.fieldCache);
  }

  lemma HeaderReadable(a: Image, b: Image, recs: seq<Record>)
    requires Readable(a, recs) && b == a.(header := b.header) && Announced(b.header, recs)
    ensures Readable(b, recs) && Keeps(a, b)
  {
    assert Grows(a, b, 0);
    ArraysNonZero(a, recs);
    GrowsReadable(a, b, 0, recs);
  }

  lemma NewDataRefs(img: Image, s: Shape, recs: seq<Record>, s': Shape, o: nat)
    requires Readable(img, recs) && RefsMatch(s, recs) && o !in img.objects && s'.refs == s.refs[o := []]
    ensures RefsMatch(s', recs)
  {
    NoRefsYet(img, recs, o);
  }

  lemma AnnouncedState(a: Image, recs: seq<Record>)
    requires Readable(a, recs)
    ensures Announced(a.header.(state := Online), recs)
  {
  }

  lemma TailBelow(img: Image, recs: seq<Record>)
    requires Readable(img, recs)
    ensures TailArray(recs) <= img.end
  {
    if recs != [] { assert RecordOk(img, recs[|recs| - 1], |recs|); }
  }

  lemma SameClash(hash: string -> nat, a: Image, b: Image, texts: set<string>, names: set<string>)
    requires NoClash(hash, a, texts, names) && b.objects == a.objects && b.payloads == a.payloads
    ensures NoClash(hash, b, texts, names)
  {
  }

  lemma PayloadHasEquals(key: string, value: string)
    ensures '=' in Payload(key, value)
  {
    assert Payload(key, value)[|key|] == '=';
  }

  lemma TextIn(fields: map<string, string>, k: string)
    requires k in fields
    ensures Payload(k, fields[k]) in Texts(fields)
  {
  }

  lemma GatherNone(img: Image, refs: map<nat, seq<nat>>, fields: map<string, string>)
    ensures Gathered(img, refs, fields, fields.Keys, [], [])
  {
    assert Done(fields, fields.Keys) == map[];
  }

  lemma GatherAll(img: Image,
          refs: map<nat, seq<nat>>, fields: map<string, string>, items: seq<Item>, payloads: seq<string>)
    requires Gathered(img, refs, fields, {}, items, payloads)
    ensures ItemsOk(img, items, payloads) && Distinct(items) && forall k :: 0 <= k < |items| ==> items[k].data in refs
    ensures FieldsOf(payloads) == fields
  {
    assert Done(fields, {}) == fields;
  }

  lemma LogGrown(recs: seq<Record>, recs': seq<Record>)
    requires |recs'| == |recs| + 1 && recs'[..|recs|] == recs
    ensures Views(recs') == Views(recs) + [Entry(|recs| + 1, recs'[|recs|].stamp, FieldsOf(recs'[|recs|].payloads))]
  {
    forall i | 0 <= i < |recs| ensures Views(recs')[i] == Views(recs)[i] { assert recs'[i] == recs'[..|recs|][i]; }
  }

  // ----- files between sessions -----

  ghost predicate LoggedAs(h: Header, end: nat, s: Shape, recs: seq<Record>) {
    && HeaderOk(h, recs, 0) && RefsMatch(s, recs)
    && |s.layout| > 0 && h.tailObject == s.layout[|s.layout| - 1]
    && end >= HEADER_SIZE && h.arenaSize == end - HEADER_SIZE
  }

  /** What a writer that opens the file starts from: the tables on disk and empty caches. */
  function Reopened(img: Image): Memory {
    Memory(img.header, img.dataTable, img.fieldTable, map[], map[])
  }

  /** A file no writer has open: its header on disk describes all of it. */
  ghost predicate AtRest(hash: string -> nat, img: Image, s: Shape, recs: seq<Record>) {
    && Quiet(hash, img, s, recs, Reopened(img), 0) && LoggedAs(img.header, img.end, s, recs)
    && FieldTableOk(hash, img, img.fieldTable)
  }

  lemma QuietAtRest(hash: string -> nat, img: Image, s: Shape, recs: seq<Record>, m: Memory)
    requires Quiet(hash, img, s, recs, m, 0) && LoggedAs(m.header, img.end, s, recs) && img.header == m.header
    requires FieldTableOk(hash, img, m.fieldTable)
    ensures AtRest(hash, img, s, recs)
  {
    hide Structured, Readable, LoggedAs, FieldBucketOk;
  }

  // ----- a new file -----

  const NEW_HEADER: Header :=
    Header(Offline, ARENA - HEADER_SIZE, FIELD_TABLE, 2, 0, 0, 0, 0, 0, Stamp(0, 0, 0), 0, 0, 0, 0, 0, 0)

  function NewTable(n: nat): seq<HashItem> { seq(n, i => HashItem(0, 0)) }

  /** The file `initialize` leaves: header, data hash table, field hash table. */
  function NewImage(): Image {
    Image(NEW_HEADER,
          map[DATA_TABLE := Object(DataTableKind, FIELD_TABLE - DATA_TABLE),
              FIELD_TABLE := Object(FieldTableKind, ARENA - FIELD_TABLE)],
          map[], map[], map[], map[], map[], map[], map[], map[], map[], map[],
          NewTable(DATA_BUCKETS), NewTable(FIELD_BUCKETS), ARENA)
  }

  ghost function NewShape(): Shape {
    Shape([DATA_TABLE, FIELD_TABLE], map[], map[], map[], seq(DATA_BUCKETS, i => []), map[], map[])
  }

  lemma NewStructured(hash: string -> nat)
    ensures Structured(hash, NewImage(), NewShape())
  {
    var img, s := NewImage(), NewShape();
    assert Adjacent(img, s.layout, 0) && Adjacent(img, s.layout, 1);
    forall o | o in img.objects ensures o in s.layout {
      assert s.layout[0] == DATA_TABLE && s.layout[1] == FIELD_TABLE;
    }
    forall b | 0 <= b < DATA_BUCKETS ensures BucketOk(img, img.dataTable[b], s.buckets[b], b) {
    }
  }

  lemma NewCounted()
    ensures Counted(NewImage(), NEW_HEADER, 0)
  {
    var objects := NewImage().objects;
    CountOne(map[], DATA_TABLE, Object(DataTableKind, FIELD_TABLE - DATA_TABLE));
    var one: map<nat, Object> := map[][DATA_TABLE := Object(DataTableKind, FIELD_TABLE - DATA_TABLE)];
    CountOne(one, FIELD_TABLE, Object(FieldTableKind, ARENA - FIELD_TABLE));
    assert objects == one[FIELD_TABLE := Object(FieldTableKind, ARENA - FIELD_TABLE)];
    forall k ensures OfKind(map[], k) == {} {}
  }

  lemma NewAtRest(hash: string -> nat)
    ensures AtRest(hash, NewImage(), NewShape(), []) && Readable(NewImage(), [])
  {
    hide Structured;
    NewStructured(hash);
    NewCounted();
  }

  lemma AnnouncedAll(h: Header, recs: seq<Record>)
    requires HeaderOk(h, recs, 0) && (recs != [] ==> recs[0].arr != 0)
    ensures Announced(h, recs)
  {
  }

  lemma HeaderAdvances(a: Image, h: Header, recs: seq<Record>)
    requires Readable(a, recs) && HeaderOk(h, recs, 0)
    ensures Advances(a.header, h)
  {
  }

  /** Writing the entry adds no payloads. */
  lemma ClashKept(hash: string -> nat, b: Image, s: Shape, recs: seq<Record>, m: Memory, c: Image,
          texts: set<string>, names: set<string>)
    requires Quiet(hash, b, s, recs, m, 0) && NoClash(hash, b, texts, names)
    requires Keeps(b, c) && c.payloads == b.payloads
    ensures StoredTexts(c, DataKind) <= texts && StoredTexts(c, FieldKind) <= names
  {
    assert Closed(b);
    hide Structured, Readable, Counted, CachesOk;
    forall o | o in c.payloads ensures o in b.objects && c.objects[o] == b.objects[o] {}
  }
}
