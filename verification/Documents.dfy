/** Document bodies of `crates/ink-format/src/model.rs`: the root of a snapshot and its four catalogs. */
module Documents {
  import opened Bytes
  import opened Results
  import opened CborValue
  import opened CborCodec
  import opened Fields
  import opened Lists
  import opened Records
  import opened Bodies

  datatype BlobRef = BlobRef(hash: Hash, length: U64)
  datatype SegmentRef = SegmentRef(chunk: Id, index: U32)

  datatype Document = Document(id: Id, pages: seq<ObjectRef>, chunks: seq<Pair<Id, BlobRef>>,
                               segments: seq<Pair<Id, SegmentRef>>, records: seq<Pair<Id, BlobRef>>,
                               resources: seq<Pair<Hash, U64>>, extra: Extras)

  function BlobValue(b: BlobRef): Value { Array([Bstr(b.hash), Int(b.length)]) }

  function BlobOf(v: Value): Result<BlobRef> {
    if !v.Array? || |v.items| != 2 then Err(InvalidData)
    else
      var hash :- HashOf(v.items[0]);
      var length :- U64Of(v.items[1]);
      Ok(BlobRef(hash, length))
  }

  function SegmentValue(s: SegmentRef): Value { Array([Bstr(s.chunk), Int(s.index)]) }

  function SegmentOf(v: Value): Result<SegmentRef> {
    if !v.Array? || |v.items| != 2 then Err(InvalidData)
    else
      var chunk :- IdOf(v.items[0]);
      var index :- U32Of(v.items[1]);
      Ok(SegmentRef(chunk, index))
  }

  lemma BlobRewrites(v: Value)
    requires BlobOf(v).Ok?
    ensures BlobValue(BlobOf(v).value) == v
  {
    assert v.items == [v.items[0], v.items[1]];
  }

  lemma SegmentRewrites(v: Value)
    requires SegmentOf(v).Ok?
    ensures SegmentValue(SegmentOf(v).value) == v
  {
    assert v.items == [v.items[0], v.items[1]];
  }

  // ----- documents

  predicate NoZeroKey<V>(s: seq<Pair<Id, V>>) {
    forall i :: 0 <= i < |s| ==> s[i].key != ZERO_ID
  }

  predicate DocumentOk(d: Document) {
    && d.id != ZERO_ID && UniqueObjects(d.pages)
    && NoZeroKey(d.chunks) && NoZeroKey(d.segments) && NoZeroKey(d.records)
  }

  function DocumentVals(d: Document): seq<Option<Value>> {
    [Some(Bstr(d.id)), Some(Int(1)), Some(Int(0)), Some(RefsValue(d.pages)),
     Some(CatalogValue(d.chunks, IdKeys(), BlobValue)), Some(CatalogValue(d.segments, IdKeys(), SegmentValue)),
     Some(CatalogValue(d.records, IdKeys(), BlobValue)), Some(CatalogValue(d.resources, HashKeys(), NumberValue))]
  }

  function DocumentValue(d: Document): Result<Value> {
    if DocumentOk(d) then Body(DocumentVals(d), d.extra) else Err(InvalidData)
  }

  function DocumentOf(v: Value): Result<Document> {
    var major :- U64At(v, 1);
    if major != 1 then Err(InvalidData)
    else
      var minor :- U64At(v, 2);
      if minor != 0 then Err(InvalidData)
      else
        var id :- IdAt(v, 0);
        var pagesValue :- Require(v, 3);
        var pages :- RefsOf(pagesValue);
        var chunksValue :- Require(v, 4);
        var chunks :- CatalogOf(chunksValue, IdKeys(), BlobOf);
        var segmentsValue :- Require(v, 5);
        var segments :- CatalogOf(segmentsValue, IdKeys(), SegmentOf);
        var recordsValue :- Require(v, 6);
        var records :- CatalogOf(recordsValue, IdKeys(), BlobOf);
        var resourcesValue :- Require(v, 7);
        var resources :- CatalogOf(resourcesValue, HashKeys(), U64Of);
        var extra :- ExtrasOf(v, Upto(8));
        var d := Document(id, pages, chunks, segments, records, resources, extra);
        if DocumentValue(d).Ok? then Ok(d) else Err(InvalidData)
  }

  /** The catalogs are maps. */
  predicate Catalogued(d: Document) {
    && Catalog(d.chunks, IdKeys()) && Catalog(d.segments, IdKeys()) && Catalog(d.records, IdKeys())
    && Catalog(d.resources, HashKeys())
  }

  /** Every catalogued segment names a chunk: printing does not check this, reading does. */
  predicate ChunksNamed(d: Document) { forall e :: e in d.segments ==> e.val.chunk != ZERO_ID }

  lemma DocumentInOrder(v: Value)
    requires DocumentOf(v).Ok?
    ensures Catalogued(DocumentOf(v).value)
  {
    hide Lookup, DocumentValue, ExtrasOf, RefsOf, CatalogOf, Linear, Catalog;
    KeysLinear();
    CatalogInOrder(Lookup(v, 4).value, IdKeys(), BlobOf);
    CatalogInOrder(Lookup(v, 5).value, IdKeys(), SegmentOf);
    CatalogInOrder(Lookup(v, 6).value, IdKeys(), BlobOf);
    CatalogInOrder(Lookup(v, 7).value, HashKeys(), U64Of);
  }

  lemma BlobsRead(s: seq<Pair<Id, BlobRef>>)
    requires Catalog(s, IdKeys()) && NoZeroKey(s)
    ensures CatalogOf(CatalogValue(s, IdKeys(), BlobValue), IdKeys(), BlobOf) == Ok(s)
    ensures Tidy(CatalogValue(s, IdKeys(), BlobValue))
  {
    hide Orderly, Catalog, CatalogOf, PrintPairs, Tidy;
    KeysInOrder();
    CatalogReads(s, IdKeys(), BlobOf, BlobValue);
    forall e | e in s
      ensures Tidy(BlobValue(e.val))
    {
      Leaves(e.val.hash, e.val.length);
    }
    PrintedPairsTidy(s, IdKeys(), BlobValue);
  }

  lemma Leaves(b: seq<Byte>, n: int)
    ensures Tidy(Array([Bstr(b), Int(n)]))
  {
    PairTidy(Bstr(b), Int(n));
  }

  lemma SegmentsRead(s: seq<Pair<Id, SegmentRef>>)
    requires Catalog(s, IdKeys()) && NoZeroKey(s) && forall e :: e in s ==> e.val.chunk != ZERO_ID
    ensures CatalogOf(CatalogValue(s, IdKeys(), SegmentValue), IdKeys(), SegmentOf) == Ok(s)
  {
    hide Orderly, Catalog, CatalogOf, CatalogValue;
    KeysInOrder();
    CatalogReads(s, IdKeys(), SegmentOf, SegmentValue);
  }

  lemma SegmentsTidy(s: seq<Pair<Id, SegmentRef>>)
    requires Catalog(s, IdKeys())
    ensures Tidy(CatalogValue(s, IdKeys(), SegmentValue))
  {
    hide Orderly, Catalog, PrintPairs, Tidy;
    KeysInOrder();
    forall e | e in s
      ensures Tidy(SegmentValue(e.val))
    {
      Leaves(e.val.chunk, e.val.index);
    }
    PrintedPairsTidy(s, IdKeys(), SegmentValue);
  }

  lemma ResourcesRead(s: seq<Pair<Hash, U64>>)
    requires Catalog(s, HashKeys())
    ensures CatalogOf(CatalogValue(s, HashKeys(), NumberValue), HashKeys(), U64Of) == Ok(s)
    ensures Tidy(CatalogValue(s, HashKeys(), NumberValue))
  {
    hide Orderly, Catalog, CatalogOf, PrintPairs;
    KeysInOrder();
    CatalogReads(s, HashKeys(), U64Of, NumberValue);
    PrintedPairsTidy(s, HashKeys(), NumberValue);
  }

  /** A written document is read back exactly when no catalogued segment names the zero chunk. */
  lemma DocumentReads(d: Document)
    requires DocumentValue(d).Ok? && Catalogued(d)
    ensures DocumentOf(DocumentValue(d).value).Ok? <==> ChunksNamed(d)
    ensures ChunksNamed(d) ==> DocumentOf(DocumentValue(d).value) == Ok(d)
  {
    hide Lookup, Body, ExtrasOf, Upto, RefsValue, RefsOf, CatalogValue, CatalogOf, Catalog, RefOk, Tidy, NoZeroKey;
    var vals, v := DocumentVals(d), DocumentValue(d).value;
    BodyFields(vals, d.extra);
    assert Lookup(v, 0) == vals[0] && Lookup(v, 1) == vals[1] && Lookup(v, 2) == vals[2] && Lookup(v, 3) == vals[3];
    assert Lookup(v, 4) == vals[4] && Lookup(v, 5) == vals[5] && Lookup(v, 6) == vals[6] && Lookup(v, 7) == vals[7];
    RefsRead(d.pages);
    BlobsRead(d.chunks);
    BlobsRead(d.records);
    ResourcesRead(d.resources);
    if ChunksNamed(d) {
      SegmentsRead(d.segments);
    } else {
      ZeroChunkSpoils(d);
    }
  }

  lemma ZeroChunkSpoils(d: Document)
    requires !ChunksNamed(d)
    ensures CatalogOf(CatalogValue(d.segments, IdKeys(), SegmentValue), IdKeys(), SegmentOf).Err?
  {
    var e :| e in d.segments && e.val.chunk == ZERO_ID;
    var i :| 0 <= i < |d.segments| && d.segments[i] == e;
    CatalogSpoiled(d.segments, IdKeys(), SegmentOf, SegmentValue, [], i);
  }

  /** And such a document is written: one segment, stored in the zero chunk. */
  lemma LostDocument(id: Id, segment: Id)
    requires id != ZERO_ID && segment != ZERO_ID
    ensures var d := Document(id, [], [], [Pair(segment, SegmentRef(ZERO_ID, 0))], [], [], []);
            DocumentValue(d).Ok? && DocumentOf(DocumentValue(d).value).Err?
  {
    hide Body, CatalogValue, DocumentOf;
    var d := Document(id, [], [], [Pair(segment, SegmentRef(ZERO_ID, 0))], [], [], []);
    NoExtras(DocumentVals(d));
    assert d.segments[0] in d.segments && !ChunksNamed(d);
    DocumentReads(d);
  }

  lemma BlobsRewrite(v: Value)
    requires Tidy(v) && CatalogOf(v, IdKeys(), BlobOf).Ok?
    ensures CatalogValue(CatalogOf(v, IdKeys(), BlobOf).value, IdKeys(), BlobValue) == v
  {
    hide Orderly, CatalogValue, BlobOf, BlobValue, TidyFields, Ascending;
    KeysInOrder();
    forall x | x in v.fields && BlobOf(x.val).Ok?
      ensures BlobValue(BlobOf(x.val).value) == x.val
    {
      BlobRewrites(x.val);
    }
    CatalogRewrites(v, IdKeys(), BlobOf, BlobValue);
  }

  lemma SegmentsRewrite(v: Value)
    requires Tidy(v) && CatalogOf(v, IdKeys(), SegmentOf).Ok?
    ensures CatalogValue(CatalogOf(v, IdKeys(), SegmentOf).value, IdKeys(), SegmentValue) == v
  {
    hide Orderly, CatalogValue, SegmentOf, SegmentValue, TidyFields, Ascending;
    KeysInOrder();
    forall x | x in v.fields && SegmentOf(x.val).Ok?
      ensures SegmentValue(SegmentOf(x.val).value) == x.val
    {
      SegmentRewrites(x.val);
    }
    CatalogRewrites(v, IdKeys(), SegmentOf, SegmentValue);
  }

  lemma ResourcesRewrite(v: Value)
    requires Tidy(v) && CatalogOf(v, HashKeys(), U64Of).Ok?
    ensures CatalogValue(CatalogOf(v, HashKeys(), U64Of).value, HashKeys(), NumberValue) == v
  {
    hide Orderly, CatalogValue;
    KeysInOrder();
    CatalogRewrites(v, HashKeys(), U64Of, NumberValue);
  }

  lemma DocumentRewrites(v: Value)
    requires Tidy(v) && DocumentOf(v).Ok?
    ensures DocumentValue(DocumentOf(v).value) == Ok(v)
  {
    hide Lookup, Body, ExtrasOf, Upto, RefsValue, RefsOf, CatalogValue, CatalogOf, Tidy, DocumentOk;
    var d := DocumentOf(v).value;
    RefsRewrite(Lookup(v, 3).value);
    LookupTidy(v, 4);
    BlobsRewrite(Lookup(v, 4).value);
    LookupTidy(v, 5);
    SegmentsRewrite(Lookup(v, 5).value);
    LookupTidy(v, 6);
    BlobsRewrite(Lookup(v, 6).value);
    LookupTidy(v, 7);
    ResourcesRewrite(Lookup(v, 7).value);
    BodyAgain(v, DocumentVals(d));
  }

  lemma DocumentTidy(d: Document)
    requires DocumentValue(d).Ok? && Catalogued(d) && ExtrasTidy(d.extra)
    ensures Tidy(DocumentValue(d).value)
  {
    hide Body, ExtrasTidy, CatalogValue, CatalogOf, Catalog, RefsValue, RefsOf, NoZeroKey, RefOk;
    RefsRead(d.pages);
    BlobsRead(d.chunks);
    BlobsRead(d.records);
    ResourcesRead(d.resources);
    SegmentsTidy(d.segments);
    BodyIsTidy(DocumentVals(d), d.extra);
  }
}
