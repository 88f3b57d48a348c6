/** The maps that record bodies of `crates/ink-format/src/model.rs` are written as, field by field, and what each kind of
    body must satisfy to be written. */
module RecordWire {
  import opened Bytes
  import opened Results
  import opened CborValue
  import CborCodec
  import opened Fields
  import opened Lists
  import opened Records
  import opened Bodies
  import opened Geometries
  import opened Profiles
  import opened Documents
  import opened TypedRecords

  // ----- maps with numbered fields

  /** A field under a number, and one that may be absent. */
  function At(k: nat, x: Value): seq<Field> { [Field(Int(k), x)] }
  function Maybe(k: nat, x: Option<Value>): seq<Field> { if x.Some? then [Field(Int(k), x.value)] else [] }

  /** The extension fields. */
  function Rest(extra: seq<Extra>): seq<Field> {
    seq(|extra|, i requires 0 <= i < |extra| => Field(Int(extra[i].key), extra[i].val))
  }

  predicate Extended(extra: seq<Extra>) { forall i :: 0 <= i < |extra| ==> extra[i].key >= 0x8000 }

  lemma RestIs(extra: seq<Extra>)
    ensures AsFields(extra) == Rest(extra)
  {
    forall i | 0 <= i < |extra|
      ensures AsFields(extra)[i] == Rest(extra)[i]
    {
      AsFieldsAt(extra, i);
    }
  }

  /** The fields present among values numbered from `k` on. */
  function Fielded(vals: seq<Option<Value>>, k: nat): seq<Field>
    decreases |vals|
  {
    if vals == [] then [] else Maybe(k, vals[0]) + Fielded(vals[1..], k + 1)
  }

  lemma {:induction false} FieldedMore(vals: seq<Option<Value>>, x: Option<Value>, k: nat)
    ensures Fielded(vals + [x], k) == Fielded(vals, k) + Maybe(k + |vals|, x)
    decreases |vals|
  {
    if vals == [] {
      assert [x][1..] == [] && vals + [x] == [x];
    } else {
      assert (vals + [x])[1..] == vals[1..] + [x];
      FieldedMore(vals[1..], x, k + 1);
    }
  }

  lemma {:induction false} PresentMore(slots: seq<Slot>, s: Slot)
    ensures Present(slots + [s]) == Present(slots) + (if s.val.Some? then [Extra(s.key, s.val.value)] else [])
  {
    if slots == [] {
      assert slots + [s] == [s] && [s][1..] == [];
    } else {
      assert (slots + [s])[1..] == slots[1..] + [s];
      PresentMore(slots[1..], s);
    }
  }

  lemma {:induction false} PresentIs(vals: seq<Option<Value>>)
    requires |vals| < 0x8000
    ensures AsFields(Present(Numbered(vals))) == Fielded(vals, 0)
  {
    if vals != [] {
      var n := |vals| - 1;
      var front, x := vals[..n], vals[n];
      PresentIs(front);
      PresentMore(Numbered(front), Slot(n, x));
      AsFieldsAppend(Present(Numbered(front)), if x.Some? then [Extra(n, x.value)] else []);
      assert vals == front + [x];
      FieldedMore(front, x, 0);
      OneField(n, x);
    }
  }

  lemma OneField(n: nat, x: Option<Value>)
    requires n < 0x8000
    ensures AsFields(if x.Some? then [Extra(n, x.value)] else []) == Maybe(n, x)
  {
    if x.Some? {
      assert [Extra(n, x.value)][1..] == [];
    }
  }

  /** A body is the map of its fields and its extension fields. */
  lemma BodyIs(vals: seq<Option<Value>>, extra: Extras)
    requires |vals| < 0x8000
    ensures Body(vals, extra).Ok? <==> Extended(extra)
    ensures Extended(extra) ==> Body(vals, extra) == Ok(Map(Fielded(vals, 0) + Rest(extra)))
  {
    hide Present, Numbered, Fielded;
    PresentIs(vals);
    RestIs(extra);
    AsFieldsAppend(Present(Numbered(vals)), extra);
    assert AllExtra(extra) <==> Extended(extra) by { ExtendedIs(extra); }
  }

  lemma ExtendedIs(extra: seq<Extra>)
    ensures AllExtra(extra) <==> Extended(extra)
  {
    if AllExtra(extra) {
      forall i | 0 <= i < |extra|
        ensures extra[i].key >= 0x8000
      {
        assert extra[i] in extra;
      }
    }
  }

  // ----- the values in them

  predicate NonZero(id: seq<Byte>) { exists i :: 0 <= i < |id| && id[i] != 0 }

  lemma NonZeroIs(id: Id)
    ensures id != ZERO_ID <==> NonZero(id)
  {
    if forall i :: 0 <= i < 16 ==> id[i] == 0 {
      assert id == ZERO_ID;
    }
  }

  function Nums(fs: seq<Float>): Value { Array(seq(|fs|, i requires 0 <= i < |fs| => Num(fs[i]))) }
  function Ids(ids: seq<Id>): Value { Array(seq(|ids|, i requires 0 <= i < |ids| => Bstr(ids[i]))) }
  function Refs(refs: seq<ObjectRef>): Value {
    Array(seq(|refs|, i requires 0 <= i < |refs| => Array([Bstr(refs[i].objectId), Bstr(refs[i].recordId)])))
  }
  lemma {:induction false} PrintedAt<T>(xs: seq<T>, g: T -> Value, i: nat)
    requires i < |xs|
    ensures PrintAll(xs, g)[i] == g(xs[i])
  {
    if i > 0 {
      PrintedAt(xs[1..], g, i - 1);
    }
  }

  lemma NumsAre(fs: seq<Float>)
    ensures FloatsValue(fs) == Nums(fs)
  {
    forall i | 0 <= i < |fs|
      ensures PrintAll(fs, NumValue)[i] == Num(fs[i])
    {
      PrintedAt(fs, NumValue, i);
    }
    assert PrintAll(fs, NumValue) == Nums(fs).items;
  }

  lemma IdsAre(ids: seq<Id>)
    ensures IdsValue(ids) == Ids(ids)
  {
    forall i | 0 <= i < |ids|
      ensures PrintAll(ids, IdValue)[i] == Bstr(ids[i])
    {
      PrintedAt(ids, IdValue, i);
    }
    assert PrintAll(ids, IdValue) == Ids(ids).items;
  }

  lemma RefsAre(refs: seq<ObjectRef>)
    ensures RefsValue(refs) == Refs(refs)
  {
    forall i | 0 <= i < |refs|
      ensures PrintAll(refs, RefValue)[i] == Refs(refs).items[i]
    {
      PrintedAt(refs, RefValue, i);
    }
    assert PrintAll(refs, RefValue) == Refs(refs).items;
  }

  lemma {:induction false} PairAt<K, V>(s: seq<Pair<K, V>>, keys: Keys<K>, p: V -> Value, i: nat)
    requires i < |s|
    ensures PrintPairs(s, keys, p)[i] == Field(keys.enc(s[i].key), p(s[i].val))
  {
    if i > 0 {
      PairAt(s[1..], keys, p, i - 1);
    }
  }

  /** A catalog is the map of its entries. */
  lemma PairsAre<K, V>(s: seq<Pair<K, V>>, keys: Keys<K>, p: V -> Value, fields: seq<Field>)
    requires |fields| == |s| && forall i :: 0 <= i < |s| ==> fields[i] == Field(keys.enc(s[i].key), p(s[i].val))
    ensures CatalogValue(s, keys, p) == Map(fields)
  {
    forall i | 0 <= i < |s|
      ensures PrintPairs(s, keys, p)[i] == fields[i]
    {
      PairAt(s, keys, p, i);
    }
    assert PrintPairs(s, keys, p) == fields;
  }

  /** Finite, not negative and not zero. */
  lemma PositiveExactly(f: Float)
    requires f.Valid()
    ensures Positive(f) <==>
              f.Finite()
              && match f
                 case Half(h) => 0 < h < 0x8000
                 case Single(s) => 0 < s < 0x8000_0000
                 case Double(d) => 0 < d < 0x8000_0000_0000_0000
  {
    hide NarrowSingle, NarrowDouble;
  }

  predicate AllNonZero(ids: seq<Id>) { forall d :: d in ids ==> NonZero(d) }
  predicate Distinct<T(==)>(s: seq<T>) { forall i, j :: 0 <= i < j < |s| ==> s[i] != s[j] }

  lemma UniqueIs(ids: seq<Id>)
    ensures Unique(ids) <==> AllNonZero(ids) && Distinct(ids)
  {
    forall d: Id
      ensures d != ZERO_ID <==> NonZero(d)
    {
      NonZeroIs(d);
    }
  }

  /** References to two nonzero identifiers each, no object twice. */
  predicate GoodRefs(refs: seq<ObjectRef>) {
    && (forall r :: r in refs ==> NonZero(r.objectId) && NonZero(r.recordId))
    && (forall i, j :: 0 <= i < j < |refs| ==> refs[i].objectId != refs[j].objectId)
  }

  lemma RefsUniqueIs(refs: seq<ObjectRef>)
    ensures UniqueObjects(refs) <==> GoodRefs(refs)
  {
    hide NonZero;
    forall d: Id
      ensures d != ZERO_ID <==> NonZero(d)
    {
      NonZeroIs(d);
    }
  }

  // ----- strokes

  predicate GoodStroke(s: Stroke, arith: Arith) {
    && NonZero(s.id) && NonZero(s.geometry) && NonZero(s.brush) && Positive(s.width) && Extended(s.extra)
    && (forall f :: f in s.transform ==> f.Finite()) && arith.regular(s.transform)
  }

  function StrokeMap(s: Stroke): Value {
    Map(Fielded([Some(Bstr(s.id)), Some(Bstr(s.geometry)), Some(Bstr(s.brush)), Some(Bstr(s.rgba)), Some(Num(s.width)), Some(Nums(s.transform)),
                 if s.createdAt.Some? then Some(Int(s.createdAt.value)) else None,
                 if s.updatedAt.Some? then Some(Int(s.updatedAt.value)) else None], 0) + Rest(s.extra))
  }

  /** A stroke is written exactly when it is good, and as this map. */
  lemma StrokeWire(s: Stroke, arith: Arith)
    ensures StrokeValue(s, arith) == if GoodStroke(s, arith) then Ok(StrokeMap(s)) else Err(InvalidData)
  {
    hide Body, Fielded, NonZero, Positive, FloatsValue, Extended;
    NonZeroIs(s.id);
    NonZeroIs(s.geometry);
    NonZeroIs(s.brush);
    NumsAre(s.transform);
    BodyIs(StrokeVals(s), s.extra);
    BodyError(StrokeVals(s), s.extra);
  }

  lemma BodyError(vals: seq<Option<Value>>, extra: Extras)
    requires |vals| < 0x8000
    ensures Body(vals, extra).Err? ==> Body(vals, extra) == Err(InvalidData)
  {
    hide Present, Numbered;
  }

  // ----- backgrounds and pages

  predicate GoodBackground(b: Background) {
    && b.rgba[3] == 255 && Extended(b.extra)
    && (b.grid.Some? ==>
          && Positive(b.grid.value.stepX) && Positive(b.grid.value.stepY) && Positive(b.grid.value.lineWidth)
          && b.grid.value.origin[0].Finite() && b.grid.value.origin[1].Finite())
  }

  function BackgroundMap(b: Background): Value {
    Map(Fielded(if b.grid.None? then [Some(Int(0)), Some(Bstr(b.rgba)), None, None, None, None, None]
                else
                  var g := b.grid.value;
                  [Some(Int(1)), Some(Bstr(b.rgba)), Some(Num(g.stepX)), Some(Num(g.stepY)), Some(Nums(g.origin)), Some(Num(g.lineWidth)),
                   Some(Bstr(g.lineRgba))], 0) + Rest(b.extra))
  }

  lemma BackgroundWire(b: Background)
    ensures BackgroundValue(b) == if GoodBackground(b) then Ok(BackgroundMap(b)) else Err(InvalidData)
  {
    hide Body, Fielded, Positive, FloatsValue, Extended;
    if b.grid.Some? {
      var g := b.grid.value;
      NumsAre(g.origin);
      assert AllFinite(g.origin) <==> g.origin[0].Finite() && g.origin[1].Finite();
      assert BackgroundVals(b) == [Some(Int(1)), Some(Bstr(b.rgba)), Some(Num(g.stepX)), Some(Num(g.stepY)), Some(Nums(g.origin)),
                                   Some(Num(g.lineWidth)), Some(Bstr(g.lineRgba))];
    } else {
      assert BackgroundVals(b) == [Some(Int(0)), Some(Bstr(b.rgba)), None, None, None, None, None];
    }
    BodyIs(BackgroundVals(b), b.extra);
    BodyError(BackgroundVals(b), b.extra);
  }

  predicate GoodPage(p: Page) {
    && NonZero(p.id) && Positive(p.width) && Positive(p.height) && GoodBackground(p.background) && Extended(p.extra)
    && GoodRefs(p.objects) && AllNonZero(p.recognition) && Distinct(p.recognition) && AllNonZero(p.corrections) && Distinct(p.corrections)
    && (forall e :: e in p.selection ==> e.val in p.recognition)
  }

  function Selection(s: seq<Pair<Hash, Id>>): Value {
    Map(seq(|s|, i requires 0 <= i < |s| => Field(Bstr(s[i].key), Bstr(s[i].val))))
  }

  function PageMap(p: Page): Value {
    Map(Fielded([Some(Bstr(p.id)), Some(Num(p.width)), Some(Num(p.height)), Some(Refs(p.objects)), Some(BackgroundMap(p.background)),
                 Some(Ids(p.recognition)), Some(Ids(p.corrections)), Some(Selection(p.selection))], 0)
        + Rest(p.extra))
  }

  lemma SelectionIs(s: seq<Pair<Hash, Id>>)
    ensures CatalogValue(s, HashKeys(), IdValue) == Selection(s)
  {
    PairsAre(s, HashKeys(), IdValue, Selection(s).fields);
  }

  lemma PageWire(p: Page)
    ensures PageValue(p) == if GoodPage(p) then Ok(PageMap(p)) else Err(InvalidData)
  {
    hide Body, Fielded, NonZero, Positive, Extended, BackgroundValue, GoodBackground, BackgroundMap, RefsValue, IdsValue, CatalogValue, UniqueObjects,
         GoodRefs, Unique, AllNonZero, Distinct;
    NonZeroIs(p.id);
    BackgroundWire(p.background);
    RefsUniqueIs(p.objects);
    UniqueIs(p.recognition);
    UniqueIs(p.corrections);
    RefsAre(p.objects);
    IdsAre(p.recognition);
    IdsAre(p.corrections);
    SelectionIs(p.selection);
    if BackgroundValue(p.background).Ok? {
      BodyIs(PageVals(p), p.extra);
      BodyError(PageVals(p), p.extra);
    }
  }

  // ----- geometries

  /** A part starts where the one before it ends. */
  predicate Adjoins(parts: seq<Part>, i: nat)
    requires 0 < i < |parts|
  {
    parts[i].firstSample == parts[i - 1].firstSample + parts[i - 1].count
  }

  /** The parts follow each other from sample 0 to `n` without a gap. */
  predicate Continuous(parts: seq<Part>, n: nat) {
    && (forall p :: p in parts ==> NonZero(p.segment) && p.count > 0)
    && parts != [] && parts[0].firstSample == 0
    && (forall i :: 0 < i < |parts| ==> Adjoins(parts, i))
    && n == parts[|parts| - 1].firstSample + parts[|parts| - 1].count
  }

  predicate ContinuousFrom(parts: seq<Part>, m: nat, n: nat) {
    && (forall p :: p in parts ==> NonZero(p.segment) && p.count > 0)
    && (if parts == [] then n == m else parts[0].firstSample == m && n == parts[|parts| - 1].firstSample + parts[|parts| - 1].count)
    && (forall i :: 0 < i < |parts| ==> Adjoins(parts, i))
  }

  lemma {:induction false} CoveredIs(parts: seq<Part>, m: U32, n: U32)
    ensures Covered(parts, m) == Some(n) <==> ContinuousFrom(parts, m, n)
  {
    hide NonZero;
    if parts != [] {
      NonZeroIs(parts[0].segment);
      var rest, next := parts[1..], m + parts[0].count;
      assert forall p :: p in parts <==> p == parts[0] || p in rest;
      assert forall i :: 0 <= i < |rest| ==> rest[i] == parts[i + 1];
      if next < 0x1_0000_0000 {
        CoveredIs(rest, next, n);
      } else {
        PastEnd(parts, m, n);
      }
      Continued(parts, m, n);
    }
  }

  lemma Continued(parts: seq<Part>, m: nat, n: nat)
    requires parts != []
    ensures ContinuousFrom(parts, m, n) <==>
              NonZero(parts[0].segment) && parts[0].count > 0 && parts[0].firstSample == m && ContinuousFrom(parts[1..], m + parts[0].count, n)
  {
    hide NonZero;
    var rest := parts[1..];
    assert forall p :: p in parts <==> p == parts[0] || p in rest;
    forall i | 0 < i < |rest|
      ensures Adjoins(rest, i) <==> Adjoins(parts, i + 1)
    {
    }
    if |parts| > 1 {
      assert Adjoins(parts, 1) <==> parts[1].firstSample == parts[0].firstSample + parts[0].count;
      Shifted(parts);
    }
  }

  lemma Shifted(parts: seq<Part>)
    requires |parts| > 1 && forall i :: 0 < i < |parts| - 1 ==> (Adjoins(parts[1..], i) <==> Adjoins(parts, i + 1))
    ensures (forall i :: 0 < i < |parts| ==> Adjoins(parts, i)) <==>
              Adjoins(parts, 1) && forall i :: 0 < i < |parts[1..]| ==> Adjoins(parts[1..], i)
  {
    hide Adjoins;
    if forall i :: 0 < i < |parts[1..]| ==> Adjoins(parts[1..], i) {
      forall i | 1 < i < |parts|
        ensures Adjoins(parts, i)
      {
        assert Adjoins(parts[1..], i - 1) <==> Adjoins(parts, i - 1 + 1);
      }
    }
  }

  /** Parts that leave 32 bits do not end within them. */
  lemma {:induction false} PastEnd(parts: seq<Part>, m: nat, n: U32)
    requires parts != [] && m + parts[0].count >= 0x1_0000_0000
    ensures !ContinuousFrom(parts, m, n)
  {
    hide NonZero;
    if ContinuousFrom(parts, m, n) {
      EndsAfter(parts, m, n);
    }
  }

  lemma {:induction false} EndsAfter(parts: seq<Part>, m: nat, n: nat)
    requires parts != [] && ContinuousFrom(parts, m, n)
    ensures n >= m + parts[0].count
  {
    hide NonZero;
    if |parts| > 1 {
      Continued(parts, m, n);
      EndsAfter(parts[1..], m + parts[0].count, n);
    }
  }

  /** Source strokes by identifier, and a text. */
  predicate GoodProvenance(v: Value) {
    && Lookup(v, 0).Some? && Lookup(v, 0).value.Array? && Lookup(v, 1).Some? && Lookup(v, 1).value.Text?
    && forall x :: x in Lookup(v, 0).value.items ==> x.Bstr? && |x.bytes| == 16 && NonZero(x.bytes)
  }

  lemma {:induction false} AllIds(items: seq<Value>)
    ensures ParseAll(items, IdOf).Ok? <==> forall x :: x in items ==> x.Bstr? && |x.bytes| == 16 && NonZero(x.bytes)
  {
    hide NonZero;
    if items != [] {
      AllIds(items[1..]);
      if items[0].Bstr? && |items[0].bytes| == 16 {
        NonZeroIs(items[0].bytes);
      }
      assert forall x :: x in items <==> x == items[0] || x in items[1..];
    }
  }

  lemma ProvenanceIs(v: Value)
    ensures ProvenanceOk(v) <==> GoodProvenance(v)
  {
    hide Lookup, NonZero, ParseAll;
    if Lookup(v, 0).Some? && Lookup(v, 0).value.Array? {
      AllIds(Lookup(v, 0).value.items);
    }
  }

  predicate GoodGeometry(g: Geometry, arith: Arith) {
    && NonZero(g.profile) && g.pointCount > 0 && Continuous(g.parts, g.pointCount) && Extended(g.extra)
    && (g.timing.Some? ==> NonZero(g.timing.value.session))
    && (g.bounds.Some? ==> (forall f :: f in g.bounds.value ==> f.Finite())
                           && arith.le(g.bounds.value[0], g.bounds.value[2]) && arith.le(g.bounds.value[1], g.bounds.value[3]))
    && (g.provenance.Some? ==> GoodProvenance(g.provenance.value))
  }

  function PartMap(p: Part): Value {
    Map(Fielded([Some(Bstr(p.segment)), Some(Int(p.firstSample)), Some(Int(p.count)), Some(Int(p.firstTick))], 0))
  }

  function PartMaps(parts: seq<Part>): Value { Array(seq(|parts|, i requires 0 <= i < |parts| => PartMap(parts[i]))) }

  function GeometryMap(g: Geometry): Value {
    Map(Fielded([Some(Bstr(g.profile)),
                 Some(if g.timing.None? then Null else Map(Fielded([Some(Bstr(g.timing.value.session)), Some(Int(g.timing.value.startTick))], 0))),
                 Some(Int(g.pointCount)), Some(PartMaps(g.parts)), Some(Int(0)),
                 if g.bounds.Some? then Some(Nums(g.bounds.value)) else None, g.provenance], 0) + Rest(g.extra))
  }

  lemma PlainBody(vals: seq<Option<Value>>)
    requires |vals| < 0x8000
    ensures Body(vals, []) == Ok(Map(Fielded(vals, 0)))
  {
    hide Body, Fielded;
    BodyIs(vals, []);
    assert Fielded(vals, 0) + Rest([]) == Fielded(vals, 0);
  }

  lemma PartsAre(parts: seq<Part>)
    ensures Array(PrintAll(parts, PartValue)) == PartMaps(parts)
  {
    hide Body, Fielded;
    var maps := PartMaps(parts).items;
    forall i | 0 <= i < |parts|
      ensures PrintAll(parts, PartValue)[i] == maps[i]
    {
      PrintedAt(parts, PartValue, i);
      PlainBody(PartVals(parts[i]));
    }
    assert PrintAll(parts, PartValue) == maps;
  }

  lemma TimingIs(t: Option<Timing>)
    ensures TimingValue(t) == if t.None? then Null else Map(Fielded([Some(Bstr(t.value.session)), Some(Int(t.value.startTick))], 0))
  {
    hide Body, Fielded;
    if t.Some? {
      PlainBody(TimingVals(t.value));
    }
  }

  lemma GeometryWire(g: Geometry, arith: Arith)
    ensures GeometryValue(g, arith) == if GoodGeometry(g, arith) then Ok(GeometryMap(g)) else Err(InvalidData)
  {
    hide Body, Fielded, NonZero, Extended, Covered, ProvenanceOk, GoodProvenance, TimingValue, FloatsValue, PrintAll, PartMaps;
    NonZeroIs(g.profile);
    if g.timing.Some? {
      NonZeroIs(g.timing.value.session);
    }
    if g.bounds.Some? {
      NumsAre(g.bounds.value);
    }
    if g.provenance.Some? {
      ProvenanceIs(g.provenance.value);
    }
    CoveredIs(g.parts, 0, g.pointCount);
    assert g.parts != [] ==> (ContinuousFrom(g.parts, 0, g.pointCount) <==> Continuous(g.parts, g.pointCount));
    PartsAre(g.parts);
    TimingIs(g.timing);
    BodyIs(GeometryVals(g), g.extra);
    BodyError(GeometryVals(g), g.extra);
  }

  // ----- profiles, brushes and sessions

  predicate GoodAxis(a: Axis, arith: Arith) {
    && a.representation <= 3 && Extended(a.extra)
    && (a.min.Some? ==> a.min.value.Finite()) && (a.max.Some? ==> a.max.value.Finite())
    && (a.min.Some? && a.max.Some? ==> arith.le(a.min.value, a.max.value))
  }

  function AxisMap(a: Axis): Value {
    Map(Fielded([Some(Text(a.unit)), Some(Int(a.representation)), Some(Text(a.convention)),
                 if a.min.Some? then Some(Num(a.min.value)) else None, if a.max.Some? then Some(Num(a.max.value)) else None], 0) + Rest(a.extra))
  }

  lemma AxisWire(a: Axis, arith: Arith)
    ensures AxisValue(a, arith) == if GoodAxis(a, arith) then Ok(AxisMap(a)) else Err(InvalidData)
  {
    hide Body, Fielded, Extended;
    BodyIs(AxisVals(a), a.extra);
    BodyError(AxisVals(a), a.extra);
  }

  predicate Carries(axes: seq<Pair<U16, Axis>>, k: nat) { exists i :: 0 <= i < |axes| && axes[i].key == k }

  /** Horizontal and vertical position and sample kind are there, elapsed time exactly with a tick length; pressure is
      physical or has a range. */
  predicate GoodProfile(p: SourceProfile, arith: Arith) {
    && Carries(p.axes, 1) && Carries(p.axes, 2) && Carries(p.axes, 12) && !Carries(p.axes, 0) && (Carries(p.axes, 4) <==> p.tickNs.Some?)
    && p.tickNs != Some(0) && Extended(p.extra) && Lookup(p.provenance, 0).Some? && Lookup(p.provenance, 0).value.Text?
    && (forall e :: e in p.axes ==> GoodAxis(e.val, arith))
    && (forall e :: e in p.axes && e.key == 3 && e.val.representation != 2 ==>
          e.val.representation < 2 && e.val.min.Some? && e.val.max.Some? && !arith.le(e.val.max.value, e.val.min.value))
  }

  function AxesMap(axes: seq<Pair<U16, Axis>>): Value {
    Map(seq(|axes|, i requires 0 <= i < |axes| => Field(Int(axes[i].key), AxisMap(axes[i].val))))
  }

  function ProfileMap(p: SourceProfile): Value {
    Map(Fielded([Some(AxesMap(p.axes)), Some(p.provenance),
                 Some(if p.tickNs.Some? then Int(p.tickNs.value) else Null)], 0) + Rest(p.extra))
  }

  lemma AxesAre(axes: seq<Pair<U16, Axis>>, arith: Arith)
    requires forall e :: e in axes ==> GoodAxis(e.val, arith)
    ensures CatalogValue(axes, AxisKeys(), AxisPrinter(arith)) == AxesMap(axes)
  {
    hide AxisMap, AxisValue, GoodAxis;
    forall i | 0 <= i < |axes|
      ensures AxisPrinter(arith)(axes[i].val) == AxisMap(axes[i].val)
    {
      assert axes[i] in axes;
      AxisWire(axes[i].val, arith);
    }
    PairsAre(axes, AxisKeys(), AxisPrinter(arith), AxesMap(axes).fields);
  }

  lemma CarriesIs(axes: seq<Pair<U16, Axis>>, k: U16)
    ensures HasAxis(axes, k) <==> Carries(axes, k)
  {
    if i :| 0 <= i < |axes| && axes[i].key == k {
      assert axes[i] in axes;
    }
  }

  lemma ProfileWire(p: SourceProfile, arith: Arith)
    ensures ProfileValue(p, arith) == if GoodProfile(p, arith) then Ok(ProfileMap(p)) else Err(InvalidData)
  {
    hide Body, Fielded, Extended, Lookup, CatalogValue, AxisValue, GoodAxis, HasAxis, Carries, AxisMap, AxesMap;
    CarriesIs(p.axes, 0);
    CarriesIs(p.axes, 1);
    CarriesIs(p.axes, 2);
    CarriesIs(p.axes, 4);
    CarriesIs(p.axes, 12);
    forall e | e in p.axes
      ensures AxisValue(e.val, arith).Ok? <==> GoodAxis(e.val, arith)
    {
      AxisWire(e.val, arith);
    }
    if forall e :: e in p.axes ==> GoodAxis(e.val, arith) {
      AxesAre(p.axes, arith);
    }
    BodyIs(ProfileVals(p, arith), p.extra);
    BodyError(ProfileVals(p, arith), p.extra);
  }

  lemma BrushWire(b: Brush)
    ensures BrushValue(b) == if b.contract != [] && b.version > 0 && b.parameters.Map? && Extended(b.extra) then
                               Ok(Map(Fielded([Some(Text(b.contract)), Some(Int(b.version)), Some(b.parameters)], 0) + Rest(b.extra)))
                             else Err(InvalidData)
  {
    hide Body, Fielded, Extended;
    BodyIs(BrushVals(b), b.extra);
    BodyError(BrushVals(b), b.extra);
  }

  /** A tick, a wall-clock time and, if given, an uncertainty. */
  predicate GoodAnchor(v: Value) {
    && Lookup(v, 0).Some? && Lookup(v, 0).value.Int? && 0 <= Lookup(v, 0).value.n < 0x1_0000_0000_0000_0000
    && Lookup(v, 1).Some? && Lookup(v, 1).value.Int? && -0x8000_0000_0000_0000 <= Lookup(v, 1).value.n < 0x8000_0000_0000_0000
    && (Lookup(v, 2).Some? ==> Lookup(v, 2).value.Int? && 0 <= Lookup(v, 2).value.n < 0x1_0000_0000_0000_0000)
  }

  predicate GoodSession(s: Session) {
    s.tickNs > 0 && s.adapterContract != [] && Extended(s.extra) && (s.wallAnchor.Some? ==> GoodAnchor(s.wallAnchor.value))
  }

  lemma SessionWire(s: Session)
    ensures SessionValue(s) == if GoodSession(s) then
                                 Ok(Map(Fielded([Some(Int(s.tickNs)), Some(Int(1)), s.wallAnchor, Some(Text(s.adapterContract))], 0) + Rest(s.extra)))
                               else Err(InvalidData)
  {
    hide Body, Fielded, Extended, Lookup;
    BodyIs(SessionVals(s), s.extra);
    BodyError(SessionVals(s), s.extra);
  }

  // ----- documents

  predicate NamedKeys<V>(s: seq<Pair<Id, V>>) { forall i :: 0 <= i < |s| ==> NonZero(s[i].key) }

  lemma NamedKeysIs<V>(s: seq<Pair<Id, V>>)
    ensures NoZeroKey(s) <==> NamedKeys(s)
  {
    hide NonZero;
    forall i | 0 <= i < |s|
      ensures s[i].key != ZERO_ID <==> NonZero(s[i].key)
    {
      NonZeroIs(s[i].key);
    }
  }

  predicate GoodDocument(d: Document) {
    NonZero(d.id) && GoodRefs(d.pages) && NamedKeys(d.chunks) && NamedKeys(d.segments) && NamedKeys(d.records) && Extended(d.extra)
  }

  function Blobs(s: seq<Pair<Id, BlobRef>>): Value {
    Map(seq(|s|, i requires 0 <= i < |s| => Field(Bstr(s[i].key), Array([Bstr(s[i].val.hash), Int(s[i].val.length)]))))
  }

  function Segments(s: seq<Pair<Id, SegmentRef>>): Value {
    Map(seq(|s|, i requires 0 <= i < |s| => Field(Bstr(s[i].key), Array([Bstr(s[i].val.chunk), Int(s[i].val.index)]))))
  }

  function Lengths(s: seq<Pair<Hash, U64>>): Value {
    Map(seq(|s|, i requires 0 <= i < |s| => Field(Bstr(s[i].key), Int(s[i].val))))
  }

  lemma CatalogsAre(d: Document)
    ensures CatalogValue(d.chunks, IdKeys(), BlobValue) == Blobs(d.chunks)
    ensures CatalogValue(d.segments, IdKeys(), SegmentValue) == Segments(d.segments)
    ensures CatalogValue(d.records, IdKeys(), BlobValue) == Blobs(d.records)
    ensures CatalogValue(d.resources, HashKeys(), NumberValue) == Lengths(d.resources)
  {
    PairsAre(d.chunks, IdKeys(), BlobValue, Blobs(d.chunks).fields);
    PairsAre(d.segments, IdKeys(), SegmentValue, Segments(d.segments).fields);
    PairsAre(d.records, IdKeys(), BlobValue, Blobs(d.records).fields);
    PairsAre(d.resources, HashKeys(), NumberValue, Lengths(d.resources).fields);
  }

  /** A document is written under major version 1, minor version 0. */
  lemma DocumentWire(d: Document)
    ensures DocumentValue(d) == if GoodDocument(d) then
                                  Ok(Map(Fielded([Some(Bstr(d.id)), Some(Int(1)), Some(Int(0)), Some(Refs(d.pages)), Some(Blobs(d.chunks)),
                                                  Some(Segments(d.segments)), Some(Blobs(d.records)), Some(Lengths(d.resources))], 0) + Rest(d.extra)))
                                else Err(InvalidData)
  {
    hide Body, Fielded, NonZero, Extended, RefsValue, CatalogValue, UniqueObjects, GoodRefs, NoZeroKey, NamedKeys, Blobs, Segments, Lengths;
    NonZeroIs(d.id);
    RefsUniqueIs(d.pages);
    NamedKeysIs(d.chunks);
    NamedKeysIs(d.segments);
    NamedKeysIs(d.records);
    RefsAre(d.pages);
    CatalogsAre(d);
    BodyIs(DocumentVals(d), d.extra);
    BodyError(DocumentVals(d), d.extra);
  }

  // ----- records

  /** The records a body refers to. */
  ghost predicate RefersTo(t: Typed, d: Id) {
    match t
    case OfDocument(x) => exists r :: r in x.pages && r.recordId == d
    case OfPage(x) => d in x.recognition || d in x.corrections || exists r :: r in x.objects && r.recordId == d
    case OfStroke(x) => d == x.geometry || d == x.brush
    case OfGeometry(x) => d == x.profile || (x.timing.Some? && d == x.timing.value.session)
    case OfProfile(_) => false
    case OfSession(_) => false
    case OfBrush(_) => false
  }

  lemma RecordIdsAre(refs: seq<ObjectRef>, d: Id)
    ensures d in RecordIdsOf(refs) <==> exists r :: r in refs && r.recordId == d
  {
    if d in RecordIdsOf(refs) {
      var i :| 0 <= i < |refs| && RecordIdsOf(refs)[i] == d;
      assert refs[i] in refs;
    }
    if r :| r in refs && r.recordId == d {
      var i :| 0 <= i < |refs| && refs[i] == r;
      assert RecordIdsOf(refs)[i] == d;
    }
  }

  lemma RefersExactly(t: Typed, d: Id)
    ensures d in Dependencies(t) <==> RefersTo(t, d)
  {
    match t
    case OfDocument(x) => RecordIdsAre(x.pages, d);
    case OfPage(x) => RecordIdsAre(x.objects, d);
    case _ =>
  }

  /** The numbers of the record kinds. */
  lemma KindNumbers(t: Typed)
    ensures KindOf(t) == match t case OfDocument(_) => 1 case OfPage(_) => 2 case OfStroke(_) => 3 case OfGeometry(_) => 4 case OfProfile(_) => 5
                                 case OfSession(_) => 6 case OfBrush(_) => 7
  {
  }

  /** A body becomes a record of its kind that requires feature 1, carries nothing else and depends on what the body refers
      to. */
  lemma RecordIs(t: Typed, id: Id, arith: Arith)
    requires RecordFor(t, id, arith).Ok?
    ensures var r := RecordFor(t, id, arith).value;
      && r.kind == KindOf(t) && r.id == id && ValueOf(t, arith) == Ok(r.body)
      && r.features == [1] && r.extensions == Map([]) && r.resources == []
      && (forall d :: d in r.dependencies <==> RefersTo(t, d))
      && (forall i :: 0 < i < |r.dependencies| ==> LexLt(r.dependencies[i - 1], r.dependencies[i]))
  {
    hide ValueOf, EncodeRecord, Dependencies, RefersTo, SortedIds, LexLt;
    SortedIdsExactly(Dependencies(t));
    var r := RecordFor(t, id, arith).value;
    forall d
      ensures d in r.dependencies <==> RefersTo(t, d)
    {
      RefersExactly(t, d);
    }
    forall i | 0 < i < |r.dependencies|
      ensures LexLt(r.dependencies[i - 1], r.dependencies[i])
    {
      assert LexLt(r.dependencies[i - 1], r.dependencies[i - 1 + 1]);
    }
  }

  /** A record is read as a body exactly when it is of that kind, holds such a body and declares what that refers to. */
  lemma ReadExactly(kind: U64, r: Record, arith: Arith, t: Typed)
    requires 1 <= kind <= 7
    ensures Read(kind, r, arith) == Ok(t) <==>
              r.kind == kind && BodyOf(kind, r.body, arith) == Ok(t) && forall d :: RefersTo(t, d) ==> d in r.dependencies
    ensures Read(kind, r, arith) == Ok(t) ==> KindOf(t) == kind
  {
    hide DocumentOf, PageOf, StrokeOf, GeometryOf, ProfileOf, SessionOf, BrushOf, Dependencies, RefersTo;
    forall d
      ensures d in Dependencies(t) <==> RefersTo(t, d)
    {
      RefersExactly(t, d);
    }
  }

  function Hashes(hashes: seq<Hash>): Value { Array(seq(|hashes|, i requires 0 <= i < |hashes| => Bstr(hashes[i]))) }
  function Numbers(ns: seq<U64>): Value { Array(seq(|ns|, i requires 0 <= i < |ns| => Int(ns[i]))) }

  predicate Numbered64(v: Value) { v.Map? && forall f :: f in v.fields ==> f.key.Int? && 0 <= f.key.n < 0x1_0000_0000_0000_0000 }

  predicate GoodRecord(r: Record) {
    && r.kind > 0 && NonZero(r.id) && Numbered64(r.body) && Numbered64(r.extensions)
    && (forall i :: 0 <= i < |r.features| - 1 ==> r.features[i] < r.features[i + 1])
    && (forall i :: 0 <= i < |r.dependencies| - 1 ==> LexLt(r.dependencies[i], r.dependencies[i + 1]))
    && (forall d :: d in r.dependencies ==> NonZero(d) && d != r.id)
    && (forall i :: 0 <= i < |r.resources| - 1 ==> LexLt(r.resources[i], r.resources[i + 1]))
  }

  lemma GoodRecordIs(r: Record)
    ensures RecordOk(r) <==> GoodRecord(r)
  {
    hide LexLt, NonZero;
    forall d: Id
      ensures d != ZERO_ID <==> NonZero(d)
    {
      NonZeroIs(d);
    }
  }

  /** A record is written exactly when it is good and its map can be encoded, and as that map. */
  lemma RecordWires(r: Record)
    ensures EncodeRecord(r) == if GoodRecord(r) then
                                 CborCodec.Encode(Map(Fielded([Some(Int(r.kind)), Some(Bstr(r.id)), Some(r.body), Some(Numbers(r.features)),
                                                               Some(r.extensions), Some(Ids(r.dependencies)), Some(Hashes(r.resources))], 0)))
                               else Err(InvalidData)
  {
    hide CborCodec.Encode, GoodRecord, RecordOk, Fielded, PrintAll;
    GoodRecordIs(r);
    IdsAre(r.dependencies);
    HashesAre(r.resources);
    NumbersAre(r.features);
    var vals := [Some(Int(r.kind)), Some(Bstr(r.id)), Some(r.body), Some(Numbers(r.features)), Some(r.extensions), Some(Ids(r.dependencies)),
                 Some(Hashes(r.resources))];
    EnvelopeIs(EnvelopeFields(r), vals);
  }

  lemma HashesAre(hashes: seq<Hash>)
    ensures Array(PrintAll(hashes, HashValue)) == Hashes(hashes)
  {
    forall i | 0 <= i < |hashes|
      ensures PrintAll(hashes, HashValue)[i] == Bstr(hashes[i])
    {
      PrintedAt(hashes, HashValue, i);
    }
    assert PrintAll(hashes, HashValue) == Hashes(hashes).items;
  }

  lemma NumbersAre(ns: seq<U64>)
    ensures Array(PrintAll(ns, NumberValue)) == Numbers(ns)
  {
    forall i | 0 <= i < |ns|
      ensures PrintAll(ns, NumberValue)[i] == Int(ns[i])
    {
      PrintedAt(ns, NumberValue, i);
    }
    assert PrintAll(ns, NumberValue) == Numbers(ns).items;
  }

  lemma {:induction false} EnvelopeIs(s: seq<Extra>, vals: seq<Option<Value>>)
    requires |s| == |vals| < 0x8000 && forall i :: 0 <= i < |s| ==> vals[i] == Some(s[i].val) && s[i].key == i
    ensures AsFields(s) == Fielded(vals, 0)
  {
    if s != [] {
      var n := |s| - 1;
      EnvelopeIs(s[..n], vals[..n]);
      AsFieldsAppend(s[..n], [s[n]]);
      FieldedMore(vals[..n], vals[n], 0);
      OneField(n, vals[n]);
      assert s == s[..n] + [s[n]] && vals == vals[..n] + [vals[n]] && s[n] == Extra(n, vals[n].value);
    }
  }
}
