/** `Body::record` and `Body::read` of `crates/ink-format/src/model.rs`: bodies through every layer. */
module TypedRecords {
  import opened Bytes
  import opened Results
  import opened CborValue
  import opened CborCodec
  import opened Fields
  import opened Lists
  import opened Records
  import opened Bodies
  import opened Geometries
  import opened Profiles
  import opened Documents

  datatype Typed =
    | OfDocument(document: Document)
    | OfPage(page: Page)
    | OfStroke(stroke: Stroke)
    | OfGeometry(geometry: Geometry)
    | OfProfile(profile: SourceProfile)
    | OfSession(session: Session)
    | OfBrush(brush: Brush)

  function KindOf(t: Typed): U64 {
    match t
    case OfDocument(_) => DOCUMENT
    case OfPage(_) => PAGE
    case OfStroke(_) => STROKE
    case OfGeometry(_) => GEOMETRY
    case OfProfile(_) => SOURCE_PROFILE
    case OfSession(_) => SESSION
    case OfBrush(_) => BRUSH
  }

  function ValueOf(t: Typed, arith: Arith): Result<Value> {
    match t
    case OfDocument(d) => DocumentValue(d)
    case OfPage(p) => PageValue(p)
    case OfStroke(s) => StrokeValue(s, arith)
    case OfGeometry(g) => GeometryValue(g, arith)
    case OfProfile(p) => ProfileValue(p, arith)
    case OfSession(s) => SessionValue(s)
    case OfBrush(b) => BrushValue(b)
  }

  /** `from_value` of the body type with this kind. */
  function BodyOf(kind: U64, v: Value, arith: Arith): Result<Typed>
    requires DOCUMENT <= kind <= BRUSH
  {
    if kind == DOCUMENT then var d :- DocumentOf(v); Ok(OfDocument(d))
    else if kind == PAGE then var p :- PageOf(v); Ok(OfPage(p))
    else if kind == STROKE then var s :- StrokeOf(v, arith); Ok(OfStroke(s))
    else if kind == GEOMETRY then var g :- GeometryOf(v, arith); Ok(OfGeometry(g))
    else if kind == SOURCE_PROFILE then var p :- ProfileOf(v, arith); Ok(OfProfile(p))
    else if kind == SESSION then var s :- SessionOf(v); Ok(OfSession(s))
    else var b :- BrushOf(v); Ok(OfBrush(b))
  }

  function RecordIdsOf(refs: seq<ObjectRef>): (ids: seq<Id>)
    ensures |ids| == |refs| && forall i :: 0 <= i < |refs| ==> ids[i] == refs[i].recordId
  {
    if refs == [] then [] else [refs[0].recordId] + RecordIdsOf(refs[1..])
  }

  function Dependencies(t: Typed): seq<Id> {
    match t
    case OfDocument(d) => RecordIdsOf(d.pages)
    case OfPage(p) => RecordIdsOf(p.objects) + p.recognition + p.corrections
    case OfStroke(s) => [s.geometry, s.brush]
    case OfGeometry(g) => [g.profile] + (if g.timing.Some? then [g.timing.value.session] else [])
    case OfProfile(_) => []
    case OfSession(_) => []
    case OfBrush(_) => []
  }

  // ----- sorted dependencies

  function InsertId(d: Id, s: seq<Id>): seq<Id> {
    if s == [] || LexLt(d, s[0]) then [d] + s
    else if d == s[0] then s
    else [s[0]] + InsertId(d, s[1..])
  }

  /** `sort_unstable` and `dedup`. */
  function SortedIds(ids: seq<Id>): seq<Id> {
    if ids == [] then [] else InsertId(ids[0], SortedIds(ids[1..]))
  }

  predicate StrictlySorted(ids: seq<Id>) {
    forall i :: 0 <= i < |ids| - 1 ==> LexLt(ids[i], ids[i + 1])
  }

  lemma {:induction false} InsertIdSorts(d: Id, s: seq<Id>)
    requires StrictlySorted(s)
    ensures StrictlySorted(InsertId(d, s))
    ensures forall x :: x in InsertId(d, s) <==> x == d || x in s
  {
    if s != [] && !LexLt(d, s[0]) && d != s[0] {
      assert forall i :: 0 <= i < |s[1..]| ==> s[1..][i] == s[i + 1];
      InsertIdSorts(d, s[1..]);
      LexTrichotomy(d, s[0]);
      var r := InsertId(d, s[1..]);
      assert LexLt(s[0], r[0]) by {
        if s[1..] != [] {
          assert LexLt(s[0], s[1]);
        }
      }
    }
  }

  lemma {:induction false} SortedIdsExactly(ids: seq<Id>)
    ensures StrictlySorted(SortedIds(ids))
    ensures forall x :: x in SortedIds(ids) <==> x in ids
  {
    if ids != [] {
      SortedIdsExactly(ids[1..]);
      InsertIdSorts(ids[0], SortedIds(ids[1..]));
    }
  }

  // ----- records

  /** `Body::record`. */
  function RecordFor(t: Typed, id: Id, arith: Arith): Result<Record> {
    var v :- ValueOf(t, arith);
    var r := Record(KindOf(t), id, v, [1], Map([]), SortedIds(Dependencies(t)), []);
    var _ :- EncodeRecord(r);
    Ok(r)
  }

  predicate Declares(r: Record, t: Typed) { forall d :: d in Dependencies(t) ==> d in r.dependencies }

  /** `Body::read` for the body type with this kind. */
  function Read(kind: U64, r: Record, arith: Arith): Result<Typed>
    requires DOCUMENT <= kind <= BRUSH
  {
    if r.kind != kind then Err(InvalidData)
    else
      var t :- BodyOf(kind, r.body, arith);
      if Declares(r, t) then Ok(t) else Err(InvalidData)
  }

  // ----- the two directions

  /** Maps of the body are in key order without repetition. */
  predicate MapsInOrder(t: Typed) {
    match t
    case OfDocument(d) => Catalogued(d)
    case OfPage(p) => Catalog(p.selection, HashKeys())
    case OfProfile(p) => Catalog(p.axes, AxisKeys())
    case _ => true
  }

  /** Free-form values inside the body are canonical. */
  predicate FreeFormTidy(t: Typed) {
    match t
    case OfDocument(d) => ExtrasTidy(d.extra)
    case OfPage(p) => ExtrasTidy(p.extra) && ExtrasTidy(p.background.extra)
    case OfStroke(s) => ExtrasTidy(s.extra)
    case OfGeometry(g) => ExtrasTidy(g.extra) && (g.provenance.Some? ==> Tidy(g.provenance.value))
    case OfProfile(p) => ExtrasTidy(p.extra) && AxesTidy(p.axes) && Tidy(p.provenance)
    case OfSession(s) => ExtrasTidy(s.extra) && (s.wallAnchor.Some? ==> Tidy(s.wallAnchor.value))
    case OfBrush(b) => ExtrasTidy(b.extra) && Tidy(b.parameters)
  }

  /** What reading demands of a document beyond what writing demands. */
  predicate Readable(t: Typed) { t.OfDocument? ==> ChunksNamed(t.document) }

  lemma ValueReads(t: Typed, arith: Arith)
    requires ValueOf(t, arith).Ok? && MapsInOrder(t)
    ensures BodyOf(KindOf(t), ValueOf(t, arith).value, arith).Ok? <==> Readable(t)
    ensures Readable(t) ==> BodyOf(KindOf(t), ValueOf(t, arith).value, arith) == Ok(t)
  {
    hide DocumentValue, DocumentOf, PageValue, PageOf, StrokeValue, StrokeOf, GeometryValue, GeometryOf, ProfileValue,
         ProfileOf, SessionValue, SessionOf, BrushValue, BrushOf, Catalog, ChunksNamed;
    match t
    case OfDocument(d) => DocumentReads(d);
    case OfPage(p) => PageReads(p);
    case OfStroke(s) => StrokeReads(s, arith);
    case OfGeometry(g) => GeometryReads(g, arith);
    case OfProfile(p) => ProfileReads(p, arith);
    case OfSession(s) => SessionReads(s);
    case OfBrush(b) => BrushReads(b);
  }

  lemma ValueTidy(t: Typed, arith: Arith)
    requires ValueOf(t, arith).Ok? && MapsInOrder(t) && FreeFormTidy(t)
    ensures Tidy(ValueOf(t, arith).value)
  {
    hide DocumentValue, PageValue, StrokeValue, GeometryValue, ProfileValue, SessionValue, BrushValue, Catalog,
         ExtrasTidy, AxesTidy, Tidy;
    match t
    case OfDocument(d) => DocumentTidy(d);
    case OfPage(p) => PageTidy(p);
    case OfStroke(s) => StrokeTidy(s, arith);
    case OfGeometry(g) => GeometryTidy(g, arith);
    case OfProfile(p) => ProfileTidy(p, arith);
    case OfSession(s) => SessionTidy(s);
    case OfBrush(b) => BrushTidy(b);
  }

  lemma ValueRewrites(kind: U64, v: Value, arith: Arith)
    requires DOCUMENT <= kind <= BRUSH && Tidy(v) && BodyOf(kind, v, arith).Ok?
    ensures KindOf(BodyOf(kind, v, arith).value) == kind
    ensures ValueOf(BodyOf(kind, v, arith).value, arith) == Ok(v)
  {
    hide DocumentValue, DocumentOf, PageValue, PageOf, StrokeValue, StrokeOf, GeometryValue, GeometryOf, ProfileValue,
         ProfileOf, SessionValue, SessionOf, BrushValue, BrushOf, Tidy;
    if kind == DOCUMENT {
      DocumentRewrites(v);
    } else if kind == PAGE {
      PageRewrites(v);
    } else if kind == STROKE {
      StrokeRewrites(v, arith);
    } else if kind == GEOMETRY {
      GeometryRewrites(v, arith);
    } else if kind == SOURCE_PROFILE {
      ProfileRewrites(v, arith);
    } else if kind == SESSION {
      SessionRewrites(v);
    } else {
      BrushRewrites(v);
    }
  }

  lemma EmptyMapTidy()
    ensures Tidy(Map([]))
  {
  }

  // ----- free-form values of a tidy body

  lemma {:induction false} TidyExtra(s: seq<Extra>, e: Extra)
    requires TidyFields(AsFields(s)) && e in s
    ensures Tidy(e.val)
  {
    hide Tidy;
    var i :| 0 <= i < |s| && s[i] == e;
    AsFieldsAt(s, i);
    TidyField(AsFields(s), i);
  }

  /** In a tidy body the extension fields and every field of its own are tidy. */
  lemma BodyParts(vals: seq<Option<Value>>, extra: Extras)
    requires |vals| < FIRST_EXTRA && Body(vals, extra).Ok? && Tidy(Body(vals, extra).value)
    ensures ExtrasTidy(extra) && forall i: nat :: i < |vals| && vals[i].Some? ==> Tidy(vals[i].value)
  {
    hide Lookup, Upto, ExtrasOf, Present, AsFields, Ascending, TidyFields;
    var v := Body(vals, extra).value;
    forall e | e in extra
      ensures Tidy(e.val)
    {
      TidyExtra(Present(Numbered(vals)) + extra, e);
    }
    BodyFields(vals, extra);
    forall i: nat | i < |vals| && vals[i].Some?
      ensures Tidy(vals[i].value)
    {
      LookupTidy(v, i);
    }
  }

  lemma PageParts(p: Page)
    requires PageValue(p).Ok? && Tidy(PageValue(p).value)
    ensures ExtrasTidy(p.extra) && ExtrasTidy(p.background.extra)
  {
    hide Body, Tidy, PageOk, ExtrasTidy, BackgroundOk, CatalogValue;
    BodyParts(PageVals(p), p.extra);
    assert PageVals(p)[4] == Some(BackgroundValue(p.background).value);
    BodyParts(BackgroundVals(p.background), p.background.extra);
  }

  lemma GeometryParts(g: Geometry, arith: Arith)
    requires GeometryValue(g, arith).Ok? && Tidy(GeometryValue(g, arith).value)
    ensures ExtrasTidy(g.extra) && (g.provenance.Some? ==> Tidy(g.provenance.value))
  {
    hide Body, Tidy, GeometryOk, ExtrasTidy, TimingValue, PrintAll;
    BodyParts(GeometryVals(g), g.extra);
    assert GeometryVals(g)[6] == g.provenance;
  }

  lemma ProfileParts(p: SourceProfile, arith: Arith)
    requires ProfileValue(p, arith).Ok? && Tidy(ProfileValue(p, arith).value)
    ensures ExtrasTidy(p.extra) && AxesTidy(p.axes) && Tidy(p.provenance)
  {
    hide Body, Tidy, ExtrasTidy, PrintPairs, HasAxis, PressureOk, AxisOk, TextAt;
    var vals := ProfileVals(p, arith);
    BodyParts(vals, p.extra);
    assert vals[1] == Some(p.provenance) && vals[0] == Some(CatalogValue(p.axes, AxisKeys(), AxisPrinter(arith)));
    forall e | e in p.axes
      ensures ExtrasTidy(e.val.extra)
    {
      var i :| 0 <= i < |p.axes| && p.axes[i] == e;
      AxisParts(p.axes, arith, i);
    }
  }

  lemma AxisParts(axes: seq<Pair<U16, Axis>>, arith: Arith, i: nat)
    requires Tidy(CatalogValue(axes, AxisKeys(), AxisPrinter(arith))) && i < |axes| && AxisValue(axes[i].val, arith).Ok?
    ensures ExtrasTidy(axes[i].val.extra)
  {
    hide Body, ExtrasTidy, PrintPairs, AxisOk, Ascending, TidyFields;
    var fields := PrintPairs(axes, AxisKeys(), AxisPrinter(arith));
    PrintedPairAt(axes, AxisKeys(), AxisPrinter(arith), i);
    TidyField(fields, i);
    BodyParts(AxisVals(axes[i].val), axes[i].val.extra);
  }

  /** A body prints a tidy value only if its free-form values are tidy. */
  lemma TidyIsFreeFormTidy(t: Typed, arith: Arith)
    requires ValueOf(t, arith).Ok? && Tidy(ValueOf(t, arith).value)
    ensures FreeFormTidy(t)
  {
    hide Body, Tidy, ExtrasTidy, AxesTidy, PageValue, GeometryValue, ProfileValue, DocumentOk, StrokeOk, AnchorOk;
    match t
    case OfDocument(d) => BodyParts(DocumentVals(d), d.extra);
    case OfPage(p) => PageParts(p);
    case OfStroke(s) => BodyParts(StrokeVals(s), s.extra);
    case OfGeometry(g) => GeometryParts(g, arith);
    case OfProfile(p) => ProfileParts(p, arith);
    case OfSession(s) =>
      BodyParts(SessionVals(s), s.extra);
      assert SessionVals(s)[2] == s.wallAnchor;
    case OfBrush(b) =>
      BodyParts(BrushVals(b), b.extra);
      assert BrushVals(b)[2] == Some(b.parameters);
  }

  // ----- bodies and bytes

  /** A body survives value, record and bytes, and back, for every kind and with its extension fields, exactly when its
      free-form values are in canonical order, the record nests within the reader's limit, and, a document, names a
      chunk for every segment. Whatever comes back is the same record with the entries of its maps in order. */
  lemma BodyRoundTrip(t: Typed, id: Id, arith: Arith)
    requires RecordFor(t, id, arith).Ok? && MapsInOrder(t) && Valid(Envelope(RecordFor(t, id, arith).value))
    ensures var r := RecordFor(t, id, arith).value;
      && EncodeRecord(r).Ok?
      && var d := DecodeRecord(EncodeRecord(r).value);
         && (d.Ok? ==> Reordered(Envelope(r), Envelope(d.value)))
         && (d.Ok? && Read(KindOf(t), d.value, arith) == Ok(t)
             <==> Readable(t) && FreeFormTidy(t) && Nesting(Envelope(r)) <= RECURSION_LIMIT)
  {
    hide ValueOf, BodyOf, EncodeRecord, DecodeRecord, Valid, Nesting, Envelope, Tidy, MapsInOrder, FreeFormTidy,
         Readable, SortedIds, Dependencies, Reordered;
    var r := RecordFor(t, id, arith).value;
    var d := DecodeRecord(EncodeRecord(r).value);
    Kinds(t);
    if d.Ok? {
      ComesBackReordered(r);
    }
    if Readable(t) && FreeFormTidy(t) && Nesting(Envelope(r)) <= RECURSION_LIMIT {
      TidyBodyReturns(t, id, arith);
    }
    if d.Ok? && Read(KindOf(t), d.value, arith) == Ok(t) {
      ReturnedIsTidy(t, id, arith);
    }
  }

  lemma ComesBackReordered(r: Record)
    requires Valid(Envelope(r)) && EncodeRecord(r).Ok? && DecodeRecord(EncodeRecord(r).value).Ok?
    ensures Reordered(Envelope(r), Envelope(DecodeRecord(EncodeRecord(r).value).value))
  {
    hide Canonical, Decode, Tidy, Valid, Nesting, Envelope, RecordOf, Write, Encode, Reordered, IsCanonical, RecordOk;
    EncodeSucceedsExactly(Envelope(r));
    RoundTrip(Envelope(r));
    var c := Canonical(Envelope(r), 0).value;
    CanonicalIsTidy(c, 0);
    EnvelopeRewrites(c);
  }

  lemma TidyBodyReturns(t: Typed, id: Id, arith: Arith)
    requires RecordFor(t, id, arith).Ok? && MapsInOrder(t) && FreeFormTidy(t) && Readable(t)
    requires Valid(Envelope(RecordFor(t, id, arith).value))
    requires Nesting(Envelope(RecordFor(t, id, arith).value)) <= RECURSION_LIMIT
    ensures var r := RecordFor(t, id, arith).value;
      && EncodeRecord(r).Ok? && DecodeRecord(EncodeRecord(r).value) == Ok(r)
      && DOCUMENT <= KindOf(t) <= BRUSH && Read(KindOf(t), r, arith) == Ok(t)
  {
    hide ValueOf, BodyOf, EncodeRecord, DecodeRecord, Valid, Nesting, Envelope, Tidy, MapsInOrder, FreeFormTidy,
         Readable, SortedIds, Dependencies;
    var r := RecordFor(t, id, arith).value;
    ValueTidy(t, arith);
    EmptyMapTidy();
    RecordRoundTrip(r);
    ValueReads(t, arith);
    SortedIdsExactly(Dependencies(t));
    Kinds(t);
  }

  lemma ReturnedIsTidy(t: Typed, id: Id, arith: Arith)
    requires RecordFor(t, id, arith).Ok? && MapsInOrder(t) && Valid(Envelope(RecordFor(t, id, arith).value))
    requires DOCUMENT <= KindOf(t) <= BRUSH
    requires var r := RecordFor(t, id, arith).value;
      EncodeRecord(r).Ok? && DecodeRecord(EncodeRecord(r).value).Ok?
      && Read(KindOf(t), DecodeRecord(EncodeRecord(r).value).value, arith) == Ok(t)
    ensures Readable(t) && FreeFormTidy(t) && Nesting(Envelope(RecordFor(t, id, arith).value)) <= RECURSION_LIMIT
  {
    hide ValueOf, BodyOf, EncodeRecord, DecodeRecord, Valid, Nesting, Envelope, Tidy, MapsInOrder, FreeFormTidy,
         Readable, SortedIds, Dependencies, Declares;
    var r := RecordFor(t, id, arith).value;
    var b := EncodeRecord(r).value;
    RecordDecodesCanonically(b);
    ReadRewrites(b, KindOf(t), arith);
    TidyIsFreeFormTidy(t, arith);
    ValueReads(t, arith);
    EmptyMapTidy();
    EnvelopeTidy(r);
    ShallowIfDecoded(r);
  }

  /** A tidy record that decodes nests within the reader's limit. */
  lemma ShallowIfDecoded(r: Record)
    requires Valid(Envelope(r)) && Tidy(Envelope(r)) && EncodeRecord(r).Ok? && DecodeRecord(EncodeRecord(r).value).Ok?
    ensures Nesting(Envelope(r)) <= RECURSION_LIMIT
  {
    hide Canonical, Decode, Tidy, Valid, Nesting, Envelope, RecordOf, Write, Encode, RecordOk;
    EncodeSucceedsExactly(Envelope(r));
    TidyUnchanged(Envelope(r), 0);
    RoundTrip(Envelope(r));
  }

  lemma Kinds(t: Typed)
    ensures DOCUMENT <= KindOf(t) <= BRUSH
  {
  }

  /** A record read from bytes as a typed body: the body prints the same value, the record the same
      bytes, and every strong reference of the body is declared. */
  lemma ReadRewrites(b: seq<Byte>, kind: U64, arith: Arith)
    requires DecodeRecord(b).Ok? && DOCUMENT <= kind <= BRUSH && Read(kind, DecodeRecord(b).value, arith).Ok?
    ensures var r, t := DecodeRecord(b).value, Read(kind, DecodeRecord(b).value, arith).value;
      && KindOf(t) == kind && ValueOf(t, arith) == Ok(r.body) && EncodeRecord(r) == Ok(b) && Declares(r, t)
  {
    hide ValueOf, BodyOf, EncodeRecord, DecodeRecord, Tidy, Dependencies, KindOf;
    RecordDecodesCanonically(b);
    ValueRewrites(kind, DecodeRecord(b).value.body, arith);
  }

  /** Whatever is read has its maps in order, so what is read can be written and read again. */
  lemma ReadInOrder(kind: U64, v: Value, arith: Arith)
    requires DOCUMENT <= kind <= BRUSH && BodyOf(kind, v, arith).Ok?
    ensures MapsInOrder(BodyOf(kind, v, arith).value)
  {
    hide DocumentOf, PageOf, StrokeOf, GeometryOf, ProfileOf, SessionOf, BrushOf, Catalog;
    if kind == DOCUMENT {
      DocumentInOrder(v);
    } else if kind == PAGE {
      PageInOrder(v);
    } else if kind == SOURCE_PROFILE {
      ProfileInOrder(v, arith);
    }
  }

  // ----- unknown fields

  /** How many low-numbered fields the body kind knows. */
  function KnownFields(kind: U64): nat
    requires DOCUMENT <= kind <= BRUSH
  {
    if kind == GEOMETRY then 7 else if kind == SESSION then 4
    else if kind == SOURCE_PROFILE || kind == BRUSH then 3 else 8
  }

  lemma DocumentRefused(v: Value)
    requires ExtrasOf(v, Upto(8)).Err?
    ensures DocumentOf(v).Err?
  {
    hide U64At, IdAt, Require, RefsOf, CatalogOf, ExtrasOf, DocumentValue;
  }

  lemma PageRefused(v: Value)
    requires ExtrasOf(v, Upto(8)).Err?
    ensures PageOf(v).Err?
  {
    hide IdAt, FloatAt, Require, RefsOf, BackgroundOf, IdsOf, CatalogOf, ExtrasOf, PageValue;
  }

  lemma StrokeRefused(v: Value, arith: Arith)
    requires ExtrasOf(v, Upto(8)).Err?
    ensures StrokeOf(v, arith).Err?
  {
    hide IdAt, RgbaAt, FloatAt, FloatsAt, TimeAt, ExtrasOf, StrokeValue;
  }

  lemma GeometryRefused(v: Value, arith: Arith)
    requires ExtrasOf(v, Upto(7)).Err?
    ensures GeometryOf(v, arith).Err?
  {
    hide U64At, Require, TimingOf, IdAt, U32At, ItemsOf, ParseAll, BoundsOf, Lookup, ExtrasOf, GeometryValue;
  }

  lemma ProfileRefused(v: Value, arith: Arith)
    requires ExtrasOf(v, Upto(3)).Err?
    ensures ProfileOf(v, arith).Err?
  {
    hide Require, CatalogOf, TickOf, ExtrasOf, ProfileValue;
  }

  lemma SessionRefused(v: Value)
    requires ExtrasOf(v, Upto(4)).Err?
    ensures SessionOf(v).Err?
  {
    hide U64At, TextAt, Lookup, ExtrasOf, SessionValue;
  }

  lemma BrushRefused(v: Value)
    requires ExtrasOf(v, Upto(3)).Err?
    ensures BrushOf(v).Err?
  {
    hide TextAt, U64At, Require, ExtrasOf, BrushValue;
  }

  /** A numbered field that is neither known to the kind nor an extension makes the body unreadable. */
  lemma UnknownFieldRefused(kind: U64, v: Value, i: nat, arith: Arith)
    requires DOCUMENT <= kind <= BRUSH && v.Map? && i < |v.fields|
    requires v.fields[i].key.Int? && KnownFields(kind) <= v.fields[i].key.n < FIRST_EXTRA
    ensures BodyOf(kind, v, arith).Err?
  {
    hide DocumentOf, PageOf, StrokeOf, GeometryOf, ProfileOf, SessionOf, BrushOf, CollectExtras;
    UnknownRefused(v.fields, Upto(KnownFields(kind)), [], i);
    if kind == DOCUMENT {
      DocumentRefused(v);
    } else if kind == PAGE {
      PageRefused(v);
    } else if kind == STROKE {
      StrokeRefused(v, arith);
    } else if kind == GEOMETRY {
      GeometryRefused(v, arith);
    } else if kind == SOURCE_PROFILE {
      ProfileRefused(v, arith);
    } else if kind == SESSION {
      SessionRefused(v);
    } else {
      BrushRefused(v);
    }
  }
}
