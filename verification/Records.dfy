/** The metadata envelope of `crates/ink-format/src/record.rs`. */
module Records {
  import opened Bytes
  import opened Results
  import opened CborValue
  import opened CborCodec
  import opened Fields
  import opened Lists

  const DOCUMENT: U64 := 1
  const PAGE: U64 := 2
  const STROKE: U64 := 3
  const GEOMETRY: U64 := 4
  const SOURCE_PROFILE: U64 := 5
  const SESSION: U64 := 6
  const BRUSH: U64 := 7

  datatype Record = Record(kind: U64, id: Id, body: Value, features: seq<U64>, extensions: Value,
                           dependencies: seq<Id>, resources: seq<Hash>)

  // ----- object references

  datatype ObjectRef = ObjectRef(objectId: Id, recordId: Id)

  predicate RefOk(r: ObjectRef) { r.objectId != ZERO_ID && r.recordId != ZERO_ID }

  function RefValue(r: ObjectRef): Value { Array([Bstr(r.objectId), Bstr(r.recordId)]) }

  function RefOf(v: Value): Result<ObjectRef> {
    if !v.Array? || |v.items| != 2 then Err(InvalidData)
    else
      var objectId :- IdOf(v.items[0]);
      var recordId :- IdOf(v.items[1]);
      Ok(ObjectRef(objectId, recordId))
  }

  lemma RefReads(r: ObjectRef)
    requires RefOk(r)
    ensures RefOf(RefValue(r)) == Ok(r)
  {
  }

  lemma RefRewrites(v: Value)
    requires RefOf(v).Ok?
    ensures RefValue(RefOf(v).value) == v && RefOk(RefOf(v).value)
  {
    assert v.items == [v.items[0], v.items[1]];
  }

  // ----- the envelope

  predicate NumberKeyed(v: Value) {
    v.Map? && forall f :: f in v.fields ==> U64Of(f.key).Ok?
  }

  /** `Record::validate`. */
  predicate RecordOk(r: Record) {
    && r.kind > 0 && r.id != ZERO_ID
    && NumberKeyed(r.body) && NumberKeyed(r.extensions)
    && (forall i :: 0 <= i < |r.features| - 1 ==> r.features[i] < r.features[i + 1])
    && (forall i :: 0 <= i < |r.dependencies| - 1 ==> LexLt(r.dependencies[i], r.dependencies[i + 1]))
    && (forall d :: d in r.dependencies ==> d != ZERO_ID && d != r.id)
    && (forall i :: 0 <= i < |r.resources| - 1 ==> LexLt(r.resources[i], r.resources[i + 1]))
  }

  function NumberValue(n: U64): Value { Int(n) }
  function BytesValue(b: seq<Byte>): Value { Bstr(b) }
  function IdValue(b: Id): Value { Bstr(b) }
  function HashValue(b: Hash): Value { Bstr(b) }

  function EnvelopeFields(r: Record): seq<Extra> {
    [Extra(0, Int(r.kind)), Extra(1, Bstr(r.id)), Extra(2, r.body),
     Extra(3, Array(PrintAll(r.features, NumberValue))), Extra(4, r.extensions),
     Extra(5, Array(PrintAll(r.dependencies, IdValue))), Extra(6, Array(PrintAll(r.resources, HashValue)))]
  }

  function Envelope(r: Record): Value { Map(AsFields(EnvelopeFields(r))) }

  function EncodeRecord(r: Record): Result<seq<Byte>> {
    if RecordOk(r) then Encode(Envelope(r)) else Err(InvalidData)
  }

  function RecordOf(value: Value): Result<Record> {
    if !value.Map? || |value.fields| != 7 then Err(InvalidData)
    else
      var kindValue :- Require(value, 0);
      var kind :- U64Of(kindValue);
      var idValue :- Require(value, 1);
      var id :- IdOf(idValue);
      var body :- Require(value, 2);
      var featureValue :- Require(value, 3);
      var featureItems :- ItemsOf(featureValue);
      var features :- ParseAll(featureItems, U64Of);
      var extensions :- Require(value, 4);
      var dependencyValue :- Require(value, 5);
      var dependencyItems :- ItemsOf(dependencyValue);
      var dependencies :- ParseAll(dependencyItems, IdOf);
      var resourceValue :- Require(value, 6);
      var resourceItems :- ItemsOf(resourceValue);
      var resources :- ParseAll(resourceItems, HashOf);
      var r := Record(kind, id, body, features, extensions, dependencies, resources);
      if RecordOk(r) then Ok(r) else Err(InvalidData)
  }

  function DecodeRecord(b: seq<Byte>): Result<Record> {
    var value :- Decode(b);
    RecordOf(value)
  }

  // ----- reading back an envelope

  lemma EnvelopeReads(r: Record)
    requires RecordOk(r)
    ensures RecordOf(Envelope(r)) == Ok(r)
  {
    hide AsFields, Find, PrintAll, ParseAll, RecordOk;
    var s := EnvelopeFields(r);
    assert KeysAscend(s);
    FindInFields(s, 0, 0);
    FindInFields(s, 1, 1);
    FindInFields(s, 2, 2);
    FindInFields(s, 3, 3);
    FindInFields(s, 4, 4);
    FindInFields(s, 5, 5);
    FindInFields(s, 6, 6);
    ListsRead(r);
    RecordIds(r);
    assert Record(r.kind, r.id, r.body, r.features, r.extensions, r.dependencies, r.resources) == r;
  }

  lemma RecordIds(r: Record)
    requires RecordOk(r)
    ensures r.id != ZERO_ID
  {
  }

  lemma ListsRead(r: Record)
    requires RecordOk(r)
    ensures ParseAll(PrintAll(r.features, NumberValue), U64Of) == Ok(r.features)
    ensures ParseAll(PrintAll(r.dependencies, IdValue), IdOf) == Ok(r.dependencies)
    ensures ParseAll(PrintAll(r.resources, HashValue), HashOf) == Ok(r.resources)
  {
    ParsePrinted(r.features, U64Of, NumberValue);
    ParsePrinted(r.dependencies, IdOf, IdValue);
    ParsePrinted(r.resources, HashOf, HashValue);
  }

  lemma ListsRewrite(features: seq<Value>, dependencies: seq<Value>, resources: seq<Value>)
    requires ParseAll(features, U64Of).Ok? && ParseAll(dependencies, IdOf).Ok? && ParseAll(resources, HashOf).Ok?
    ensures PrintAll(ParseAll(features, U64Of).value, NumberValue) == features
    ensures PrintAll(ParseAll(dependencies, IdOf).value, IdValue) == dependencies
    ensures PrintAll(ParseAll(resources, HashOf).value, HashValue) == resources
  {
    PrintParsed(features, U64Of, NumberValue);
    PrintParsed(dependencies, IdOf, IdValue);
    PrintParsed(resources, HashOf, HashValue);
  }

  lemma {:induction false} Found(fields: seq<Field>, k: nat) returns (i: nat)
    requires Find(fields, k).Some?
    ensures i < |fields| && fields[i] == Field(Int(k), Find(fields, k).value)
  {
    if fields[0].key == Int(k) {
      i := 0;
    } else {
      var j := Found(fields[1..], k);
      i := j + 1;
    }
  }

  lemma PlacedInOrder(fields: seq<Field>, i: nat, j: nat, a: U64, b: U64)
    requires Ascending(fields) && i < |fields| && j < |fields| && fields[i].key == Int(a) && fields[j].key == Int(b) && a < b
    ensures i < j
  {
    hide Write, LexLt;
    if j < i {
      assert LexLt(Write(fields[j].key), Write(fields[i].key));
      NumberKeyOrder(b, a);
    }
  }

  /** Seven entries under seven known keys leave no room for any other entry. */
  lemma SevenFields(fields: seq<Field>)
    requires Ascending(fields) && |fields| == 7
    requires forall k :: 0 <= k < 7 ==> Find(fields, k).Some?
    ensures forall k :: 0 <= k < 7 ==> fields[k] == Field(Int(k), Find(fields, k).value)
  {
    hide Find, Ascending;
    var p0 := Found(fields, 0);
    var p1 := Found(fields, 1);
    var p2 := Found(fields, 2);
    var p3 := Found(fields, 3);
    var p4 := Found(fields, 4);
    var p5 := Found(fields, 5);
    var p6 := Found(fields, 6);
    PlacedInOrder(fields, p0, p1, 0, 1);
    PlacedInOrder(fields, p1, p2, 1, 2);
    PlacedInOrder(fields, p2, p3, 2, 3);
    PlacedInOrder(fields, p3, p4, 3, 4);
    PlacedInOrder(fields, p4, p5, 4, 5);
    PlacedInOrder(fields, p5, p6, 5, 6);
  }

  /** A tidy value read as a record is the envelope of that record: nothing is dropped or reordered. */
  lemma EnvelopeRewrites(v: Value)
    requires Tidy(v) && RecordOf(v).Ok?
    ensures Envelope(RecordOf(v).value) == v
  {
    hide AsFields, Find, PrintAll, ParseAll, RecordOk, Ascending, TidyFields;
    var r := RecordOf(v).value;
    var fields := v.fields;
    assert forall k :: 0 <= k < 7 ==> Find(fields, k).Some? by {
      assert Lookup(v, 0).Some? && Lookup(v, 1).Some? && Lookup(v, 2).Some? && Lookup(v, 3).Some?;
      assert Lookup(v, 4).Some? && Lookup(v, 5).Some? && Lookup(v, 6).Some?;
    }
    SevenFields(fields);
    ListsRewrite(Find(fields, 3).value.items, Find(fields, 5).value.items, Find(fields, 6).value.items);
    var s := EnvelopeFields(r);
    forall i | 0 <= i < 7
      ensures AsFields(s)[i] == fields[i]
    {
      AsFieldsAt(s, i);
    }
    assert AsFields(s) == fields;
  }

  lemma EnvelopeTidy(r: Record)
    requires Tidy(r.body) && Tidy(r.extensions)
    ensures Tidy(Envelope(r))
  {
    hide AsFields, PrintAll;
    PrintedTidy(r.features, NumberValue);
    PrintedTidy(r.dependencies, IdValue);
    PrintedTidy(r.resources, HashValue);
    NumberedTidy(EnvelopeFields(r));
  }

  // ----- records and bytes

  /** An encoded record decodes to itself when its free-form values are tidy and nest within reach of
      the reader. */
  lemma RecordRoundTrip(r: Record)
    requires Valid(Envelope(r)) && Tidy(r.body) && Tidy(r.extensions)
    requires EncodeRecord(r).Ok? && Nesting(Envelope(r)) <= RECURSION_LIMIT
    ensures DecodeRecord(EncodeRecord(r).value) == Ok(r)
  {
    hide Canonical, Decode, Tidy, Valid, Nesting, Envelope, RecordOf, Write, Encode;
    EnvelopeTidy(r);
    EncodeSucceedsExactly(Envelope(r));
    TidyUnchanged(Envelope(r), 0);
    RoundTrip(Envelope(r));
    EnvelopeReads(r);
  }

  /** A decoded record encodes to the very bytes it was read from, and its free-form values are tidy. */
  lemma RecordDecodesCanonically(b: seq<Byte>)
    requires DecodeRecord(b).Ok?
    ensures EncodeRecord(DecodeRecord(b).value) == Ok(b)
    ensures Tidy(DecodeRecord(b).value.body) && Tidy(DecodeRecord(b).value.extensions)
  {
    hide Encode, Decode, Tidy, Valid, Nesting, Envelope, RecordOf, IsCanonical, RecordOk;
    DecodedIsCanonical(b);
    var v := Decode(b).value;
    CanonicalIsTidy(v, 0);
    EnvelopeRewrites(v);
    ReadsOk(v);
    PartsTidy(v);
  }

  lemma ReadsOk(v: Value)
    requires RecordOf(v).Ok?
    ensures RecordOk(RecordOf(v).value)
  {
    hide RecordOk, ParseAll, Find;
  }

  lemma PartsTidy(v: Value)
    requires Tidy(v) && RecordOf(v).Ok?
    ensures Tidy(RecordOf(v).value.body) && Tidy(RecordOf(v).value.extensions)
  {
    hide RecordOk, ParseAll, Find, TidyFields;
    var i := Found(v.fields, 2);
    TidyField(v.fields, i);
    var j := Found(v.fields, 4);
    TidyField(v.fields, j);
  }
}
