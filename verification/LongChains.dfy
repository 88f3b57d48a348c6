/** Snapshots with long dependency paths that the validator of `crates/ink-format/src/snapshot.rs` accepts. */
module LongChains {
  import opened Bytes
  import opened Results
  import opened CborValue
  import opened CborCodec
  import opened CborPreflight
  import opened Fields
  import opened Lists
  import opened Records
  import opened Bodies
  import opened Geometries
  import opened Profiles
  import opened Documents
  import opened TypedRecords
  import opened SnapshotSpec
  import opened FirstPaths
  import opened SnapshotGraph
  import opened Snapshots

  // ----- values that are sure to encode

  /** A well-formed tidy value of bounded count, length and nesting. */
  predicate Small(v: Value, nodes: nat, bytes: nat, nesting: nat) {
    Valid(v) && Tidy(v) && Nodes(v) <= nodes && |Write(v)| <= bytes && Nesting(v) <= nesting
  }

  lemma SmallerStill(v: Value, n: nat, b: nat, k: nat, nodes: nat, bytes: nat, nesting: nat)
    requires Small(v, n, b, k) && n <= nodes && b <= bytes && k <= nesting
    ensures Small(v, nodes, bytes, nesting)
  {
    hide Valid, Tidy, Nodes, Write, Nesting;
  }

  lemma SmallLeaves(n: U64, s: seq<Byte>)
    requires |s| < 0x1_0000
    ensures Small(Int(n), 1, 9, 0) && Small(Bstr(s), 1, 9 + |s|, 0) && Small(Map([]), 1, 9, 1) && Small(Array([]), 1, 9, 1)
  {
    assert |Head(0, n)| <= 9 && |Head(2, |s|)| <= 9;
  }

  lemma SmallText(s: seq<Byte>)
    requires |s| < 0x1_0000 && Utf8(s)
    ensures Small(Text(s), 1, 9 + |s|, 0)
  {
    assert |Head(3, |s|)| <= 9;
  }

  predicate AllSmall(items: seq<Value>, n: nat, b: nat, k: nat) { forall v :: v in items ==> Small(v, n, b, k) }

  lemma {:induction false} ItemsSmall(items: seq<Value>, n: nat, b: nat, k: nat)
    requires AllSmall(items, n, b, k)
    ensures AllValid(items) && TidyItems(items) && NodesIn(items) <= |items| * n
    ensures |WriteItems(items)| <= |items| * b && NestingItems(items) <= k
  {
    hide Valid, Tidy, Nodes, Write, Nesting;
    if items != [] {
      Uncons(items);
      ItemsSmall(items[1..], n, b, k);
      OneMore(|items| - 1, n);
      OneMore(|items| - 1, b);
    }
  }

  lemma OneMore(m: nat, c: nat)
    ensures (m + 1) * c == m * c + c
  {
  }

  lemma ArraySmall(items: seq<Value>, n: nat, b: nat, k: nat)
    requires AllSmall(items, n, b, k) && |items| < WORD
    ensures Small(Array(items), 1 + |items| * n, 9 + |items| * b, k + 1)
  {
    hide AllSmall, WriteItems, NodesIn, NestingItems;
    ItemsSmall(items, n, b, k);
    assert |Head(4, |items|)| <= 9;
  }

  predicate FieldSmall(f: Field, n: nat, b: nat, k: nat) { Small(f.key, 1, 25, 0) && Small(f.val, n, b, k) }

  predicate FieldsAreSmall(fields: seq<Field>, n: nat, b: nat, k: nat) { forall f :: f in fields ==> FieldSmall(f, n, b, k) }

  lemma {:induction false} FieldsSmall(fields: seq<Field>, n: nat, b: nat, k: nat)
    requires FieldsAreSmall(fields, n, b, k)
    ensures AllFieldsValid(fields) && NodesInFields(fields) <= |fields| * (n + 1)
    ensures |WriteFields(fields)| <= |fields| * (b + 25) && NestingFields(fields) <= k
  {
    hide Valid, Tidy, Nodes, Write, Nesting;
    if fields != [] {
      Uncons(fields);
      FieldsSmall(fields[1..], n, b, k);
      OneMore(|fields| - 1, n + 1);
      OneMore(|fields| - 1, b + 25);
    }
  }

  lemma MapSmall(fields: seq<Field>, n: nat, b: nat, k: nat)
    requires FieldsAreSmall(fields, n, b, k) && |fields| < WORD && Tidy(Map(fields))
    ensures Small(Map(fields), 1 + |fields| * (n + 1), 9 + |fields| * (b + 25), k + 1)
  {
    hide FieldsAreSmall, WriteFields, NodesInFields, NestingFields, Tidy;
    FieldsSmall(fields, n, b, k);
    assert |Head(5, |fields|)| <= 9;
  }

  lemma {:induction false} TidyIsCanonical(v: Value, depth: nat)
    requires Tidy(v) && depth + Nesting(v) <= MAX_DEPTH
    ensures IsCanonical(v, depth)
    decreases v, 1
  {
    hide Ascending;
    match v {
      case Map(fields) => TidyFieldsAreCanonical(fields, depth + 1);
      case Array(items) => TidyItemsAreCanonical(items, depth + 1);
      case _ =>
    }
  }

  lemma {:induction false} TidyItemsAreCanonical(items: seq<Value>, depth: nat)
    requires TidyItems(items) && depth + NestingItems(items) <= MAX_DEPTH
    ensures AreCanonical(items, depth)
    decreases items, 0
  {
    if items != [] {
      TidyIsCanonical(items[0], depth);
      TidyItemsAreCanonical(items[1..], depth);
    }
  }

  lemma {:induction false} TidyFieldsAreCanonical(fields: seq<Field>, depth: nat)
    requires TidyFields(fields) && depth + NestingFields(fields) <= MAX_DEPTH
    ensures AreCanonicalFields(fields, depth)
    decreases fields, 0
  {
    if fields != [] {
      assert fields[0].key < fields[0] && fields[0].val < fields[0];
      TidyIsCanonical(fields[0].key, depth);
      TidyIsCanonical(fields[0].val, depth);
      TidyFieldsAreCanonical(fields[1..], depth);
    }
  }

  lemma SmallEncodes(v: Value, n: nat, b: nat, k: nat)
    requires Small(v, n, b, k) && n <= MAX_ITEMS && b <= MAX_RECORD && k <= MAX_DEPTH
    ensures Encode(v).Ok? && |Encode(v).value| <= b
  {
    hide Valid, Tidy, Nodes, Write, Nesting, Encode, IsCanonical, Canonical;
    TidyIsCanonical(v, 0);
    CanonicalFixed(v);
    EncodeSucceedsExactly(v);
  }

  // ----- bodies and envelopes

  lemma {:induction false} AllPresent(slots: seq<Slot>)
    requires forall s :: s in slots ==> s.val.Some?
    ensures |Present(slots)| == |slots|
    ensures forall i :: 0 <= i < |slots| ==> Present(slots)[i] == Extra(slots[i].key, slots[i].val.value)
  {
    if slots != [] {
      Uncons(slots);
      AllPresent(slots[1..]);
    }
  }

  /** The fields of a body without extension fields in which every field is present. */
  lemma BodyFieldsAre(vals: seq<Option<Value>>) returns (fields: seq<Field>)
    requires |vals| <= 8 && forall i :: 0 <= i < |vals| ==> vals[i].Some?
    ensures Body(vals, []) == Ok(Map(fields)) && |fields| == |vals|
    ensures forall i :: 0 <= i < |vals| ==> fields[i] == Field(Int(i), vals[i].value)
  {
    hide Present, AsFields;
    var slots := Numbered(vals);
    forall s | s in slots
      ensures s.val.Some?
    {
      var i :| 0 <= i < |slots| && slots[i] == s;
    }
    AllPresent(slots);
    var own := Present(slots);
    assert own + [] == own;
    fields := AsFields(own);
    forall i | 0 <= i < |vals|
      ensures fields[i] == Field(Int(i), vals[i].value)
    {
      AsFieldsAt(own, i);
    }
  }

  lemma NumberedSmall(fields: seq<Field>, n: nat, b: nat, k: nat)
    requires |fields| <= 8 && forall i :: 0 <= i < |fields| ==> fields[i].key == Int(i) && Small(fields[i].val, n, b, k)
    ensures FieldsAreSmall(fields, n, b, k) && NumberKeyed(Map(fields))
  {
    hide Small;
    forall f | f in fields
      ensures FieldSmall(f, n, b, k) && U64Of(f.key).Ok?
    {
      var i :| 0 <= i < |fields| && fields[i] == f;
      SmallLeaves(i, []);
      SmallerStill(f.key, 1, 9, 0, 1, 25, 0);
    }
  }

  lemma BodySmall(vals: seq<Option<Value>>, n: nat, b: nat, k: nat)
    requires |vals| <= 8 && forall i :: 0 <= i < |vals| ==> vals[i].Some? && Small(vals[i].value, n, b, k)
    ensures Body(vals, []).Ok? && NumberKeyed(Body(vals, []).value)
    ensures Small(Body(vals, []).value, 1 + |vals| * (n + 1), 9 + |vals| * (b + 25), k + 1)
  {
    hide Small, Body, ExtrasTidy, Tidy, NumberKeyed, FieldsAreSmall;
    NoExtras(vals);
    forall i: nat | i < |vals|
      ensures Tidy(vals[i].value)
    {
      SmallIsTidy(vals[i].value, n, b, k);
    }
    BodyIsTidy(vals, []);
    var fields := BodyFieldsAre(vals);
    NumberedSmall(fields, n, b, k);
    MapSmall(fields, n, b, k);
  }

  lemma PrintedIds(ids: seq<Id>)
    ensures AllSmall(PrintAll(ids, IdValue), 1, 25, 0)
  {
    hide Small;
    forall v | v in PrintAll(ids, IdValue)
      ensures Small(v, 1, 25, 0)
    {
      var i :| 0 <= i < |ids| && PrintAll(ids, IdValue)[i] == v;
      PrintedAt(ids, IdValue, i);
      SmallLeaves(0, ids[i]);
    }
  }

  lemma {:induction false} PrintedAt<T>(xs: seq<T>, g: T -> Value, i: nat)
    requires i < |xs|
    ensures PrintAll(xs, g)[i] == g(xs[i])
  {
    if i > 0 {
      PrintedAt(xs[1..], g, i - 1);
    }
  }

  /** The envelope of a record with one feature, no resources and no extensions. */
  lemma EnvelopeSmall(r: Record, n: nat, b: nat, k: nat)
    requires r.features == [1] && r.resources == [] && r.extensions == Map([]) && Small(r.body, n, b, k)
    requires |r.dependencies| < 0x1_0000 && 2 + |r.dependencies| <= n && 25 + |r.dependencies| * 25 <= b && k > 0
    ensures Small(Envelope(r), 1 + 7 * (n + 1), 9 + 7 * (b + 25), k + 1)
  {
    hide Valid, Nodes, Write, Nesting, Tidy, PrintAll, AsFields, Small;
    SmallIsTidy(r.body, n, b, k);
    EmptyMapTidy();
    EnvelopeTidy(r);
    SmallLeaves(r.kind, r.id);
    SmallLeaves(1, []);
    PrintedIds(r.dependencies);
    ArraySmall(PrintAll(r.dependencies, IdValue), 1, 25, 0);
    OneNumber();
    ArraySmall([Int(1)], 1, 9, 0);
    NoHashes();
    var fields := EnvelopeFields(r);
    var vals := [Int(r.kind), Bstr(r.id), r.body, Array(PrintAll(r.features, NumberValue)), r.extensions,
                 Array(PrintAll(r.dependencies, IdValue)), Array(PrintAll(r.resources, HashValue))];
    SmallerStill(vals[0], 1, 9, 0, n, b, k);
    SmallerStill(vals[1], 1, 25, 0, n, b, k);
    SmallerStill(vals[3], 2, 18, 1, n, b, k);
    SmallerStill(vals[4], 1, 9, 1, n, b, k);
    SmallerStill(vals[5], 1 + |r.dependencies|, 9 + |r.dependencies| * 25, 1, n, b, k);
    SmallerStill(vals[6], 1, 9, 1, n, b, k);
    forall f | f in AsFields(fields)
      ensures FieldSmall(f, n, b, k)
    {
      var i :| 0 <= i < |fields| && AsFields(fields)[i] == f;
      AsFieldsAt(fields, i);
      assert fields[i] == Extra(i, vals[i]);
      SmallLeaves(i, []);
      SmallerStill(f.key, 1, 9, 0, 1, 25, 0);
    }
    MapSmall(AsFields(fields), n, b, k);
  }

  lemma SmallIsTidy(v: Value, n: nat, b: nat, k: nat)
    requires Small(v, n, b, k)
    ensures Tidy(v)
  {
  }

  lemma OneNumber()
    ensures PrintAll<U64>([1], NumberValue) == [Int(1)] && AllSmall([Int(1)], 1, 9, 0)
  {
    var one: seq<U64> := [1];
    assert one[1..] == [];
    SmallLeaves(1, []);
  }

  lemma NoHashes()
    ensures PrintAll<Hash>([], HashValue) == []
  {
  }

  // ----- the chain

  const CHAIN_LIMIT: nat := 2_000

  /** Identifiers for a chain: ascending, none of them zero or the root's. */
  predicate ChainIds(ids: seq<Id>, root: Id) {
    && 0 < |ids| <= CHAIN_LIMIT && root != ZERO_ID && root !in ids && ZERO_ID !in ids
    && forall a, b :: 0 <= a < b < |ids| ==> LexLt(ids[a], ids[b])
  }

  lemma ChainIdsDiffer(ids: seq<Id>, root: Id)
    requires ChainIds(ids, root)
    ensures forall a, b :: 0 <= a < b < |ids| ==> ids[a] != ids[b]
  {
    hide LexLt;
    forall a, b | 0 <= a < b < |ids|
      ensures ids[a] != ids[b]
    {
      LexIrreflexive(ids[a]);
    }
  }

  const PLAIN := Brush([0x61], 1, Map([]), [])

  lemma PlainBrush()
    ensures BrushValue(PLAIN).Ok? && BrushOf(BrushValue(PLAIN).value) == Ok(PLAIN)
    ensures NumberKeyed(BrushValue(PLAIN).value) && Small(BrushValue(PLAIN).value, 7, 114, 2)
  {
    hide Body, Small, BrushOf, NumberKeyed;
    SmallText([0x61]);
    SmallLeaves(1, []);
    SmallerStill(Text([0x61]), 1, 10, 0, 1, 10, 1);
    SmallerStill(Int(1), 1, 9, 0, 1, 10, 1);
    SmallerStill(Map([]), 1, 9, 1, 1, 10, 1);
    BodySmall(BrushVals(PLAIN), 1, 10, 1);
    BrushReads(PLAIN);
  }

  /** Link `i`: a plain brush that declares a dependency on the link before. */
  function Link(ids: seq<Id>, i: nat): Record
    requires i < |ids|
  {
    Record(BRUSH, ids[i], BrushValue(PLAIN).value, [1], Map([]), if i == 0 then [] else [ids[i - 1]], [])
  }

  lemma LinkEncodes(ids: seq<Id>, root: Id, i: nat)
    requires ChainIds(ids, root) && i < |ids|
    ensures EncodeRecord(Link(ids, i)).Ok? && |EncodeRecord(Link(ids, i)).value| <= 982
  {
    hide Small, Envelope, Encode, BrushValue, NumberKeyed;
    PlainBrush();
    ChainIdsDiffer(ids, root);
    var r := Link(ids, i);
    EnvelopeSmall(r, 7, 114, 2);
    SmallEncodes(Envelope(r), 57, 982, 3);
    assert NumberKeyed(Map([])) by { NoKeysNumbered(); }
    assert i > 0 ==> ids[i - 1] in ids;
    assert RecordOk(r);
  }

  lemma NoKeysNumbered()
    ensures NumberKeyed(Map([]))
  {
  }

  function LinkBytes(ids: seq<Id>, i: nat): seq<Byte>
    requires i < |ids|
  {
    if EncodeRecord(Link(ids, i)).Ok? then EncodeRecord(Link(ids, i)).value else []
  }

  /** The catalog entry of link `i`. */
  function LinkEntry(w: World, ids: seq<Id>, i: nat): Pair<Id, BlobRef>
    requires i < |ids|
  {
    var b := LinkBytes(ids, i);
    Pair(ids[i], BlobRef(w.sha(b), if |b| < WORD then |b| else 0))
  }

  function LinkEntries(w: World, ids: seq<Id>): (s: seq<Pair<Id, BlobRef>>)
    ensures |s| == |ids| && forall i :: 0 <= i < |ids| ==> s[i] == LinkEntry(w, ids, i)
  {
    seq(|ids|, i requires 0 <= i < |ids| => LinkEntry(w, ids, i))
  }

  function Links(ids: seq<Id>, n: nat): map<Id, Record>
    requires n <= |ids|
  {
    if n == 0 then map[] else Links(ids, n - 1)[ids[n - 1] := Link(ids, n - 1)]
  }

  lemma {:induction false} LinksAre(ids: seq<Id>, root: Id, n: nat)
    requires ChainIds(ids, root) && n <= |ids|
    ensures forall x :: x in Links(ids, n) <==> x in ids[..n]
    ensures forall i :: 0 <= i < n ==> ids[i] in Links(ids, n) && Links(ids, n)[ids[i]] == Link(ids, i)
  {
    hide Link, LexLt;
    ChainIdsDiffer(ids, root);
    hide ChainIds;
    if n > 0 {
      LinksAre(ids, root, n - 1);
      assert ids[..n] == ids[..n - 1] + [ids[n - 1]];
    }
  }

  function ChainDocument(w: World, ids: seq<Id>, doc: Id): Document {
    Document(doc, [], [], [], LinkEntries(w, ids), [], [])
  }

  function ChainRoot(w: World, ids: seq<Id>, doc: Id, root: Id): Record
    requires DocumentValue(ChainDocument(w, ids, doc)).Ok?
  {
    Record(DOCUMENT, root, DocumentValue(ChainDocument(w, ids, doc)).value, [1], Map([]), ids, [])
  }

  lemma EntriesInOrder(w: World, ids: seq<Id>, root: Id)
    requires ChainIds(ids, root)
    ensures Catalog(LinkEntries(w, ids), IdKeys()) && NoZeroKey(LinkEntries(w, ids))
  {
    hide LinkBytes, LexLt;
    forall i | 0 <= i < |ids|
      ensures ids[i] != ZERO_ID
    {
      assert ids[i] in ids;
    }
  }

  lemma EntrySmall(e: BlobRef)
    ensures Small(BlobValue(e), 3, 91, 1)
  {
    hide Small;
    SmallLeaves(e.length, e.hash);
    SmallerStill(Int(e.length), 1, 9, 0, 1, 41, 0);
    var items := [Bstr(e.hash), Int(e.length)];
    ArraySmall(items, 1, 41, 0);
  }

  lemma CatalogSmall(w: World, ids: seq<Id>, root: Id)
    requires ChainIds(ids, root)
    ensures Small(CatalogValue(LinkEntries(w, ids), IdKeys(), BlobValue), 1 + 4 * |ids|, 9 + 116 * |ids|, 2)
  {
    hide Small, LinkEntry, Tidy, Catalog, Orderly;
    var s := LinkEntries(w, ids);
    EntriesInOrder(w, ids, root);
    KeysInOrder();
    forall e | e in s
      ensures Tidy(BlobValue(e.val))
    {
      EntrySmall(e.val);
      SmallIsTidy(BlobValue(e.val), 3, 91, 1);
    }
    PrintedPairsTidy(s, IdKeys(), BlobValue);
    var fields := PrintPairs(s, IdKeys(), BlobValue);
    forall f | f in fields
      ensures FieldSmall(f, 3, 91, 1)
    {
      var i :| 0 <= i < |fields| && fields[i] == f;
      PrintedPairAt(s, IdKeys(), BlobValue, i);
      SmallLeaves(0, s[i].key);
      EntrySmall(s[i].val);
    }
    MapSmall(fields, 3, 91, 1);
  }

  lemma EmptyCatalogs()
    ensures CatalogValue<Id, BlobRef>([], IdKeys(), BlobValue) == Map([])
    ensures CatalogValue<Id, SegmentRef>([], IdKeys(), SegmentValue) == Map([])
    ensures CatalogValue<Hash, U64>([], HashKeys(), NumberValue) == Map([])
    ensures RefsValue([]) == Array([])
  {
  }

  lemma DocumentSmall(w: World, ids: seq<Id>, doc: Id, root: Id)
    requires ChainIds(ids, root) && doc != ZERO_ID
    ensures var d := ChainDocument(w, ids, doc);
            && DocumentValue(d).Ok? && DocumentOf(DocumentValue(d).value) == Ok(d) && NumberKeyed(DocumentValue(d).value)
            && Small(DocumentValue(d).value, 17 + 32 * |ids|, 409 + 928 * |ids|, 3)
  {
    hide Small, Body, LinkEntry, CatalogValue, DocumentOf, Catalog, NoZeroKey, RefsValue, NumberKeyed;
    var d := ChainDocument(w, ids, doc);
    var n, b := 1 + 4 * |ids|, 25 + 116 * |ids|;
    EntriesInOrder(w, ids, root);
    CatalogSmall(w, ids, root);
    EmptyCatalogs();
    SmallLeaves(1, doc);
    SmallLeaves(0, []);
    SmallerStill(Bstr(doc), 1, 25, 0, n, b, 2);
    SmallerStill(Int(1), 1, 9, 0, n, b, 2);
    SmallerStill(Int(0), 1, 9, 0, n, b, 2);
    SmallerStill(Map([]), 1, 9, 1, n, b, 2);
    SmallerStill(Array([]), 1, 9, 1, n, b, 2);
    SmallerStill(CatalogValue(LinkEntries(w, ids), IdKeys(), BlobValue), n, 9 + 116 * |ids|, 2, n, b, 2);
    BodySmall(DocumentVals(d), n, b, 2);
    EmptyInOrder();
    DocumentReads(d);
  }

  lemma EmptyInOrder()
    ensures Catalog<Id, BlobRef>([], IdKeys()) && Catalog<Id, SegmentRef>([], IdKeys()) && Catalog<Hash, U64>([], HashKeys())
    ensures NoZeroKey<BlobRef>([]) && NoZeroKey<SegmentRef>([])
  {
  }

  lemma RootOk(w: World, ids: seq<Id>, doc: Id, root: Id)
    requires ChainIds(ids, root) && DocumentValue(ChainDocument(w, ids, doc)).Ok?
    requires NumberKeyed(DocumentValue(ChainDocument(w, ids, doc)).value)
    ensures RecordOk(ChainRoot(w, ids, doc, root))
  {
    hide DocumentValue, LexLt, ChainDocument;
    NoKeysNumbered();
  }

  /** A body bound that fits a document of at most 2,000 links leaves room for the envelope. */
  lemma RootSize(m: nat)
    requires m <= CHAIN_LIMIT
    ensures var n, b := 17 + 32 * m, 409 + 928 * m;
            2 + m <= n && 25 + m * 25 <= b && 1 + 7 * (n + 1) <= MAX_ITEMS && 9 + 7 * (b + 25) <= MAX_RECORD
  {
  }

  lemma RootEncodes(w: World, ids: seq<Id>, doc: Id, root: Id)
    requires ChainIds(ids, root) && doc != ZERO_ID
    ensures DocumentValue(ChainDocument(w, ids, doc)).Ok? && EncodeRecord(ChainRoot(w, ids, doc, root)).Ok?
  {
    hide Small, Envelope, Encode, DocumentValue, NumberKeyed, RecordOk, ChainDocument, DocumentOf, LexLt;
    DocumentSmall(w, ids, doc, root);
    RootOk(w, ids, doc, root);
    var r := ChainRoot(w, ids, doc, root);
    var n, b := 17 + 32 * |ids|, 409 + 928 * |ids|;
    RootSize(|ids|);
    EnvelopeSmall(r, n, b, 3);
    SmallEncodes(Envelope(r), 1 + 7 * (n + 1), 9 + 7 * (b + 25), 4);
  }

  /** A snapshot whose root declares every link of the chain, first to last. */
  function ChainSnapshot(w: World, ids: seq<Id>, doc: Id, root: Id): Snapshot
    requires DocumentValue(ChainDocument(w, ids, doc)).Ok?
  {
    Snapshot(ChainRoot(w, ids, doc, root), Links(ids, |ids|), map[], map[])
  }

  lemma RootReads(w: World, ids: seq<Id>, doc: Id, root: Id)
    requires ChainIds(ids, root) && doc != ZERO_ID
    ensures DocumentValue(ChainDocument(w, ids, doc)).Ok?
    ensures ReadDocument(w, ChainRoot(w, ids, doc, root)) == Ok(ChainDocument(w, ids, doc))
  {
    hide DocumentValue, DocumentOf, Small, NumberKeyed, PageOf, StrokeOf, GeometryOf, ProfileOf, SessionOf, BrushOf;
    DocumentSmall(w, ids, doc, root);
  }

  lemma LinkReads(w: World, ids: seq<Id>, i: nat)
    requires i < |ids|
    ensures ReadBrush(w, Link(ids, i)) == Ok(PLAIN)
  {
    hide DocumentOf, PageOf, StrokeOf, GeometryOf, ProfileOf, SessionOf, BrushOf, BrushValue, Small, NumberKeyed;
    PlainBrush();
  }

  lemma {:induction false} EntriesAre(w: World, ids: seq<Id>, root: Id, i: nat)
    requires ChainIds(ids, root) && i < |ids|
    ensures ids[i] in Entries(LinkEntries(w, ids)) && Entries(LinkEntries(w, ids))[ids[i]] == LinkEntry(w, ids, i).val
  {
    hide LinkEntry, LexLt;
    ChainIdsDiffer(ids, root);
    forall k | 0 <= k < |ids|
      ensures LinkEntries(w, ids)[k].key == ids[k]
    {
      EntryKey(w, ids, k);
    }
    EntryAt(LinkEntries(w, ids), i);
  }

  lemma {:induction false} EntryAt<V>(s: seq<Pair<Id, V>>, i: nat)
    requires i < |s| && forall a, b :: 0 <= a < b < |s| ==> s[a].key != s[b].key
    ensures s[i].key in Entries(s) && Entries(s)[s[i].key] == s[i].val
  {
    if i > 0 {
      assert forall k :: 0 <= k < |s| - 1 ==> s[1..][k] == s[k + 1];
      EntryAt(s[1..], i - 1);
    }
  }

  lemma EntryIds(w: World, ids: seq<Id>)
    ensures forall x :: x in Entries(LinkEntries(w, ids)) ==> x in ids
  {
    hide LinkEntry, Entries;
    EntryKeys(LinkEntries(w, ids));
    forall e | e in LinkEntries(w, ids)
      ensures e.key in ids
    {
      var i :| 0 <= i < |ids| && LinkEntries(w, ids)[i] == e;
      EntryKey(w, ids, i);
    }
  }

  lemma EntryKey(w: World, ids: seq<Id>, i: nat)
    requires i < |ids|
    ensures LinkEntry(w, ids, i).key == ids[i]
  {
  }

  lemma ChainCatalogs(w: World, ids: seq<Id>, doc: Id, root: Id, supported: seq<U64>)
    requires ChainIds(ids, root) && doc != ZERO_ID && 1 in supported
    ensures DocumentValue(ChainDocument(w, ids, doc)).Ok?
    ensures CatalogsExact(w, ChainSnapshot(w, ids, doc, root), ChainDocument(w, ids, doc), supported)
  {
    hide DocumentValue, EncodeRecord, Link, Links, LexLt, LinkEntry, LinkEntries, Entries, Matches;
    RootReads(w, ids, doc, root);
    var s, d := ChainSnapshot(w, ids, doc, root), ChainDocument(w, ids, doc);
    LinksAre(ids, root, |ids|);
    assert ids[..|ids|] == ids;
    EntryIds(w, ids);
    NoEntries();
    forall x | x in ids
      ensures x in Entries(d.records) && x in s.records && RecordMatches(w, s, d, supported, x)
    {
      var i :| 0 <= i < |ids| && ids[i] == x;
      EntriesAre(w, ids, root, i);
      LinkEncodes(ids, root, i);
      LinkMatches(w, ids, i);
    }
    assert Entries(d.records).Keys == s.records.Keys;
  }

  lemma NoEntries()
    ensures Entries<Id, BlobRef>([]).Keys == {} && Entries<Hash, U64>([]).Keys == {} && Entries<Id, SegmentRef>([]).Keys == {}
  {
  }

  lemma LinkMatches(w: World, ids: seq<Id>, i: nat)
    requires i < |ids| && EncodeRecord(Link(ids, i)).Ok? && |EncodeRecord(Link(ids, i)).value| <= 982
    ensures Matches(w, EncodeRecord(Link(ids, i)).value, LinkEntry(w, ids, i).val)
    ensures Link(ids, i).id == ids[i] && Link(ids, i).features == [1]
  {
    hide EncodeRecord, BrushValue;
  }

  lemma LinkFits(w: World, s: Snapshot, ids: seq<Id>, i: nat)
    requires i < |ids|
    ensures NodeFits(w, s, Link(ids, i)) && Link(ids, i).resources == [] && Link(ids, i).kind == BRUSH
    ensures forall d :: d in Link(ids, i).dependencies ==> d in ids
  {
    hide BrushValue, ReadBrush, PageFits, StrokeFits, GeometryFits;
    LinkReads(w, ids, i);
  }

  lemma RootPath(s: Snapshot, x: Id)
    requires x in s.root.dependencies
    ensures Reachable(s, x)
  {
    assert Path(s, [x]);
  }

  lemma ChainMetadata(w: World, ids: seq<Id>, doc: Id, root: Id)
    requires ChainIds(ids, root) && doc != ZERO_ID
    ensures DocumentValue(ChainDocument(w, ids, doc)).Ok?
    ensures MetadataExact(w, ChainSnapshot(w, ids, doc, root), ChainDocument(w, ids, doc))
  {
    hide DocumentValue, Links, LexLt, NodeFits, Link, Reachable, LinkEntries, PlacedPage;
    RootReads(w, ids, doc, root);
    var s := ChainSnapshot(w, ids, doc, root);
    LinksAre(ids, root, |ids|);
    assert ids[..|ids|] == ids;
    forall x | x in s.records
      ensures NodeFits(w, s, s.records[x]) && Reachable(s, x) && s.records[x].resources == []
      ensures forall d :: d in s.records[x].dependencies ==> d in s.records
    {
      var i :| 0 <= i < |ids| && ids[i] == x;
      LinkFits(w, s, ids, i);
      RootPath(s, x);
    }
  }

  /** No geometry, no segments, no chunks. */
  lemma ChainPoints(w: World, ids: seq<Id>, doc: Id, root: Id)
    requires ChainIds(ids, root) && doc != ZERO_ID
    ensures DocumentValue(ChainDocument(w, ids, doc)).Ok?
    ensures var s, st := ChainSnapshot(w, ids, doc, root), StoreOf(w, ChainSnapshot(w, ids, doc, root), ChainDocument(w, ids, doc));
            GeometriesSound(w, s, st) && SegmentsExact(w, s, st)
  {
    hide DocumentValue, Links, LexLt, Small, NumberKeyed, BrushValue, GeometrySound, ReadGeometry;
    RootReads(w, ids, doc, root);
    var s := ChainSnapshot(w, ids, doc, root);
    LinksAre(ids, root, |ids|);
    assert ids[..|ids|] == ids;
    forall x | x in s.records
      ensures s.records[x].kind == BRUSH
    {
      var i :| 0 <= i < |ids| && ids[i] == x;
    }
  }

  lemma ChainExact(w: World, ids: seq<Id>, doc: Id, root: Id, supported: seq<U64>)
    requires ChainIds(ids, root) && doc != ZERO_ID && 1 in supported
    ensures DocumentValue(ChainDocument(w, ids, doc)).Ok? && Exact(w, ChainSnapshot(w, ids, doc, root), supported)
  {
    hide DocumentValue, EncodeRecord, Links, CatalogsExact, MetadataExact, GeometriesSound, SegmentsExact, ReadDocument;
    RootReads(w, ids, doc, root);
    RootEncodes(w, ids, doc, root);
    ChainCatalogs(w, ids, doc, root, supported);
    ChainMetadata(w, ids, doc, root);
    ChainPoints(w, ids, doc, root);
  }

  // ----- its paths

  function Backwards(ids: seq<Id>): (p: seq<Id>)
    ensures |p| == |ids| && forall i :: 0 <= i < |ids| ==> p[i] == ids[|ids| - 1 - i]
  {
    seq(|ids|, i requires 0 <= i < |ids| => ids[|ids| - 1 - i])
  }

  lemma ChainIsPath(w: World, ids: seq<Id>, doc: Id, root: Id)
    requires ChainIds(ids, root) && DocumentValue(ChainDocument(w, ids, doc)).Ok?
    ensures Path(ChainSnapshot(w, ids, doc, root), Backwards(ids))
  {
    hide DocumentValue, Links, BrushValue, LexLt;
    LinksAre(ids, root, |ids|);
    var s, p := ChainSnapshot(w, ids, doc, root), Backwards(ids);
    assert p[0] == ids[|ids| - 1] && ids[|ids| - 1] in ids;
    forall i | 0 <= i < |p| - 1
      ensures p[i] in s.records && p[i + 1] in s.records[p[i]].dependencies
    {
      var j := |ids| - 1 - i;
      assert p[i] == ids[j] && p[i + 1] == ids[j - 1] && s.records[ids[j]] == Link(ids, j);
    }
  }

  /** Every first path of the chain has one record: the link before is an earlier dependency of the root. */
  lemma ChainIsShallow(w: World, ids: seq<Id>, doc: Id, root: Id, p: seq<Id>)
    requires ChainIds(ids, root) && DocumentValue(ChainDocument(w, ids, doc)).Ok?
    requires First(ChainSnapshot(w, ids, doc, root), p)
    ensures !TooDeep(p)
  {
    hide DocumentValue, ChainSnapshot, Forestalled;
    if |p| > 1 {
      LongIsForestalled(w, ids, doc, root, p);
    } else {
      assert p[..|p| - 1] == [];
    }
  }

  lemma LongIsForestalled(w: World, ids: seq<Id>, doc: Id, root: Id, p: seq<Id>)
    requires ChainIds(ids, root) && DocumentValue(ChainDocument(w, ids, doc)).Ok?
    requires Path(ChainSnapshot(w, ids, doc, root), p) && |p| > 1
    ensures Forestalled(ChainSnapshot(w, ids, doc, root), p, p[|p| - 1])
  {
    hide DocumentValue, Links, BrushValue, LexLt, Leads, Link;
    var s := ChainSnapshot(w, ids, doc, root);
    var i :| 0 <= i < |ids| && ids[i] == p[0];
    SecondIsEarlier(w, ids, doc, root, p, i);
    ChainIdsDiffer(ids, root);
    PriorIs(ids, i);
    PathLeads(s, p, 1);
    assert ids[..i][i - 1] == ids[i - 1] && p[..0] == [];
    assert Skipped(s, p, 0, ids[i - 1]);
  }

  lemma SecondIsEarlier(w: World, ids: seq<Id>, doc: Id, root: Id, p: seq<Id>, i: nat)
    requires ChainIds(ids, root) && DocumentValue(ChainDocument(w, ids, doc)).Ok?
    requires Path(ChainSnapshot(w, ids, doc, root), p) && |p| > 1 && i < |ids| && p[0] == ids[i]
    ensures i > 0 && p[1] == ids[i - 1]
  {
    hide DocumentValue, Links, BrushValue, LexLt;
    LinksAre(ids, root, |ids|);
    var s := ChainSnapshot(w, ids, doc, root);
    assert s.records[ids[i]] == Link(ids, i) && p[0 + 1] in s.records[p[0]].dependencies;
  }

  /** Acceptance does not bound dependency paths: the chain of any number of links up to 2,000 is a snapshot the validator
      accepts, and a dependency path of that length. */
  method AcceptChain(w: World, ids: seq<Id>, doc: Id, root: Id, supported: seq<U64>) returns (v: Verdict)
    requires ChainIds(ids, root) && doc != ZERO_ID && 1 in supported
    ensures v.Accepted? && DocumentValue(ChainDocument(w, ids, doc)).Ok?
    ensures Exact(w, ChainSnapshot(w, ids, doc, root), supported) && Path(ChainSnapshot(w, ids, doc, root), Backwards(ids))
  {
    hide DocumentValue, Exact, ChainSnapshot, Path, First, TooDeep;
    ChainExact(w, ids, doc, root, supported);
    var s := ChainSnapshot(w, ids, doc, root);
    ChainIsPath(w, ids, doc, root);
    forall p | First(s, p)
      ensures !TooDeep(p)
    {
      ChainIsShallow(w, ids, doc, root, p);
    }
    ghost var bad;
    v, bad := Validate(w, s, supported);
  }
}
