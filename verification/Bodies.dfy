/** Typed record bodies of `crates/ink-format/src/model.rs`: printing, parsing and the two round trips. */
module Bodies {
  import opened Bytes
  import opened Results
  import opened CborValue
  import opened CborCodec
  import opened Fields
  import opened Lists
  import opened Records

  type F2 = s: seq<Float> | |s| == 2 witness [Half(0), Half(0)]
  type F4 = s: seq<Float> | |s| == 4 witness [Half(0), Half(0), Half(0), Half(0)]
  type F6 = s: seq<Float> | |s| == 6 witness [Half(0), Half(0), Half(0), Half(0), Half(0), Half(0)]

  /** Binary64 arithmetic the checks rely on: order of finite numbers, and whether the rounded
      determinant of a transform is finite and nonzero. */
  datatype Arith = Arith(le: (Float, Float) -> bool, regular: seq<Float> -> bool)

  predicate Positive(f: Float) {
    f.Finite() &&
    match f
    case Half(h) => h / 0x8000 % 2 == 0 && h % 0x8000 != 0
    case Single(s) => s / 0x8000_0000 % 2 == 0 && s % 0x8000_0000 != 0
    case Double(d) => d / 0x8000_0000_0000_0000 % 2 == 0 && d % 0x8000_0000_0000_0000 != 0
  }

  // Keys of catalogs.
  predicate IdBefore(a: Id, b: Id) { LexLt(a, b) }
  predicate HashBefore(a: Hash, b: Hash) { LexLt(a, b) }
  function IdKeys(): Keys<Id> { Keys(IdBefore, IdValue, IdOf) }
  function HashKeys(): Keys<Hash> { Keys(HashBefore, HashValue, HashOf) }

  lemma KeysInOrder()
    ensures Orderly(IdKeys()) && Orderly(HashKeys())
  {
    hide Write, LexLt;
    forall a: Id, b: Id
      ensures LexLt(a, b) <==> LexLt(Write(Bstr(a)), Write(Bstr(b)))
      ensures LexLt(a, b) ==> a != b && !LexLt(b, a)
    {
      BytesKeyOrder(a, b);
      if LexLt(a, b) {
        OneWay(a, b);
      }
    }
    forall a: Hash, b: Hash
      ensures LexLt(a, b) <==> LexLt(Write(Bstr(a)), Write(Bstr(b)))
      ensures LexLt(a, b) ==> a != b && !LexLt(b, a)
    {
      BytesKeyOrder(a, b);
      if LexLt(a, b) {
        OneWay(a, b);
      }
    }
  }

  lemma KeysLinear()
    ensures Linear(IdKeys()) && Linear(HashKeys())
  {
    hide LexLt;
    forall a: Id, b: Id, c: Id
      ensures LexLt(a, b) && LexLt(b, c) ==> LexLt(a, c)
      ensures a == b || LexLt(a, b) || LexLt(b, a)
    {
      Ordered(a, b, c);
    }
    forall a: Hash, b: Hash, c: Hash
      ensures LexLt(a, b) && LexLt(b, c) ==> LexLt(a, c)
      ensures a == b || LexLt(a, b) || LexLt(b, a)
    {
      Ordered(a, b, c);
    }
  }

  lemma Ordered(a: seq<Byte>, b: seq<Byte>, c: seq<Byte>)
    ensures LexLt(a, b) && LexLt(b, c) ==> LexLt(a, c)
    ensures a == b || LexLt(a, b) || LexLt(b, a)
  {
    LexTrichotomy(a, b);
    if LexLt(a, b) && LexLt(b, c) {
      LexTransitive(a, b, c);
    }
  }

  lemma OneWay(a: seq<Byte>, b: seq<Byte>)
    requires LexLt(a, b)
    ensures a != b && !LexLt(b, a)
  {
    LexIrreflexive(a);
    if LexLt(b, a) {
      LexTransitive(a, b, a);
    }
  }

  predicate AllFinite(fs: seq<Float>) { forall f :: f in fs ==> f.Finite() }

  /** `unique`: no zero identifier and no repetition. */
  predicate Unique(ids: seq<Id>) {
    && (forall d :: d in ids ==> d != ZERO_ID)
    && (forall i, j :: 0 <= i < j < |ids| ==> ids[i] != ids[j])
  }

  // ----- field readers

  function NumValue(f: Float): Value { Num(f) }

  function FloatsValue(fs: seq<Float>): Value { Array(PrintAll(fs, NumValue)) }

  function FloatsOf(v: Value, n: nat): (r: Result<seq<Float>>)
    ensures r.Ok? ==> |r.value| == n
  {
    var items :- ItemsOf(v);
    if |items| != n then Err(InvalidData) else ParseAll(items, FloatOf)
  }

  function U64At(v: Value, k: nat): Result<U64> { var x :- Require(v, k); U64Of(x) }
  function U32At(v: Value, k: nat): Result<U32> { var x :- Require(v, k); U32Of(x) }
  function IdAt(v: Value, k: nat): Result<Id> { var x :- Require(v, k); IdOf(x) }
  function RgbaAt(v: Value, k: nat): Result<Rgba> { var x :- Require(v, k); RgbaOf(x) }
  function FloatAt(v: Value, k: nat): Result<Float> { var x :- Require(v, k); FloatOf(x) }
  function TextAt(v: Value, k: nat): Result<seq<Byte>> { var x :- Require(v, k); TextOf(x) }
  function FloatsAt(v: Value, k: nat, n: nat): (r: Result<seq<Float>>)
    ensures r.Ok? ==> |r.value| == n
  {
    var x :- Require(v, k);
    FloatsOf(x, n)
  }

  lemma FloatsRead(fs: seq<Float>)
    requires AllFinite(fs)
    ensures FloatsOf(FloatsValue(fs), |fs|) == Ok(fs)
    ensures Tidy(FloatsValue(fs))
  {
    ParsePrinted(fs, FloatOf, NumValue);
    PrintedTidy(fs, NumValue);
  }

  lemma FloatsRewrite(v: Value, n: nat)
    requires FloatsOf(v, n).Ok?
    ensures FloatsValue(FloatsOf(v, n).value) == v
  {
    PrintParsed(v.items, FloatOf, NumValue);
  }

  // ----- background

  datatype Grid = Grid(stepX: Float, stepY: Float, origin: F2, lineWidth: Float, lineRgba: Rgba)
  datatype Background = Background(rgba: Rgba, grid: Option<Grid>, extra: Extras)

  predicate BackgroundOk(b: Background) {
    && b.rgba[3] == 255
    && (b.grid.Some? ==> var g := b.grid.value;
          Positive(g.stepX) && Positive(g.stepY) && Positive(g.lineWidth) && AllFinite(g.origin))
  }

  function BackgroundVals(b: Background): seq<Option<Value>> {
    [Some(Int(if b.grid.Some? then 1 else 0)), Some(Bstr(b.rgba))]
    + match b.grid
      case None => [None, None, None, None, None]
      case Some(g) => [Some(Num(g.stepX)), Some(Num(g.stepY)), Some(FloatsValue(g.origin)),
                       Some(Num(g.lineWidth)), Some(Bstr(g.lineRgba))]
  }

  function BackgroundValue(b: Background): Result<Value> {
    if BackgroundOk(b) then Body(BackgroundVals(b), b.extra) else Err(InvalidData)
  }

  function GridOf(v: Value): Result<Option<Grid>> {
    var kind :- U64At(v, 0);
    if kind == 0 then
      if Lookup(v, 2).Some? || Lookup(v, 3).Some? || Lookup(v, 4).Some? || Lookup(v, 5).Some? || Lookup(v, 6).Some?
      then Err(InvalidData)
      else Ok(None)
    else if kind == 1 then
      var stepX :- FloatAt(v, 2);
      var stepY :- FloatAt(v, 3);
      var origin :- FloatsAt(v, 4, 2);
      var lineWidth :- FloatAt(v, 5);
      var lineRgba :- RgbaAt(v, 6);
      Ok(Some(Grid(stepX, stepY, origin, lineWidth, lineRgba)))
    else Err(Unsupported(kind))
  }

  function BackgroundOf(v: Value): Result<Background> {
    var grid :- GridOf(v);
    var rgba :- RgbaAt(v, 1);
    var extra :- ExtrasOf(v, Upto(7));
    var b := Background(rgba, grid, extra);
    if BackgroundValue(b).Ok? then Ok(b) else Err(InvalidData)
  }

  lemma BackgroundReads(b: Background)
    requires BackgroundValue(b).Ok?
    ensures BackgroundOf(BackgroundValue(b).value) == Ok(b)
  {
    hide Lookup, Body, FloatsOf, FloatsValue, Positive, ExtrasOf, Upto;
    var vals, v := BackgroundVals(b), BackgroundValue(b).value;
    BodyFields(vals, b.extra);
    assert Lookup(v, 0) == vals[0] && Lookup(v, 1) == vals[1] && Lookup(v, 2) == vals[2] && Lookup(v, 3) == vals[3];
    assert Lookup(v, 4) == vals[4] && Lookup(v, 5) == vals[5] && Lookup(v, 6) == vals[6];
    if b.grid.Some? {
      var g := b.grid.value;
      FloatsRead(g.origin);
      PositiveFinite(g.stepX);
      PositiveFinite(g.stepY);
      PositiveFinite(g.lineWidth);
    }
  }

  lemma PositiveFinite(f: Float)
    requires Positive(f)
    ensures f.Finite()
  {
  }

  lemma BackgroundRewrites(v: Value)
    requires Tidy(v) && BackgroundOf(v).Ok?
    ensures BackgroundValue(BackgroundOf(v).value) == Ok(v)
  {
    hide Lookup, Body, FloatsOf, FloatsValue, Positive, ExtrasOf, Upto, Tidy;
    var b := BackgroundOf(v).value;
    if b.grid.Some? {
      FloatsRewrite(Lookup(v, 4).value, 2);
    }
    BodyAgain(v, BackgroundVals(b));
  }

  lemma BackgroundTidy(b: Background)
    requires BackgroundValue(b).Ok? && ExtrasTidy(b.extra)
    ensures Tidy(BackgroundValue(b).value)
  {
    hide Body, FloatsValue, ExtrasTidy;
    if b.grid.Some? {
      FloatsRead(b.grid.value.origin);
    }
    BodyIsTidy(BackgroundVals(b), b.extra);
  }

  // ----- lists of identifiers and references

  function IdsValue(ids: seq<Id>): Value { Array(PrintAll(ids, IdValue)) }
  function RefsValue(refs: seq<ObjectRef>): Value { Array(PrintAll(refs, RefValue)) }

  function IdsOf(v: Value): Result<seq<Id>> { var items :- ItemsOf(v); ParseAll(items, IdOf) }
  function RefsOf(v: Value): Result<seq<ObjectRef>> { var items :- ItemsOf(v); ParseAll(items, RefOf) }

  lemma IdsRead(ids: seq<Id>)
    requires forall d :: d in ids ==> d != ZERO_ID
    ensures IdsOf(IdsValue(ids)) == Ok(ids) && Tidy(IdsValue(ids))
  {
    ParsePrinted(ids, IdOf, IdValue);
    PrintedTidy(ids, IdValue);
  }

  lemma IdsRewrite(v: Value)
    requires IdsOf(v).Ok?
    ensures IdsValue(IdsOf(v).value) == v
  {
    PrintParsed(v.items, IdOf, IdValue);
  }

  lemma RefsRead(refs: seq<ObjectRef>)
    requires forall r :: r in refs ==> RefOk(r)
    ensures RefsOf(RefsValue(refs)) == Ok(refs) && Tidy(RefsValue(refs))
  {
    forall r | r in refs
      ensures RefOf(RefValue(r)) == Ok(r) && Tidy(RefValue(r))
    {
      RefReads(r);
      RefTidy(r);
    }
    ParsePrinted(refs, RefOf, RefValue);
    PrintedTidy(refs, RefValue);
  }

  lemma RefTidy(r: ObjectRef)
    ensures Tidy(RefValue(r))
  {
    PairTidy(Bstr(r.objectId), Bstr(r.recordId));
  }

  lemma PairTidy(a: Value, b: Value)
    requires Tidy(a) && Tidy(b)
    ensures Tidy(Array([a, b]))
  {
    hide Tidy;
    assert TidyItems([b]);
    assert [a, b][1..] == [b];
    assert Tidy(Array([a, b])) by { ArrayTidy([a, b]); }
  }

  lemma ArrayTidy(items: seq<Value>)
    requires TidyItems(items)
    ensures Tidy(Array(items))
  {
  }

  lemma RefsRewrite(v: Value)
    requires RefsOf(v).Ok?
    ensures RefsValue(RefsOf(v).value) == v
  {
    forall x | x in v.items && RefOf(x).Ok?
      ensures RefValue(RefOf(x).value) == x
    {
      RefRewrites(x);
    }
    PrintParsed(v.items, RefOf, RefValue);
  }

  /** No zero reference and no object twice. */
  predicate UniqueObjects(refs: seq<ObjectRef>) {
    && (forall r :: r in refs ==> RefOk(r))
    && (forall i, j :: 0 <= i < j < |refs| ==> refs[i].objectId != refs[j].objectId)
  }

  // ----- pages

  datatype Page = Page(id: Id, width: Float, height: Float, objects: seq<ObjectRef>, background: Background,
                       recognition: seq<Id>, corrections: seq<Id>, selection: seq<Pair<Hash, Id>>, extra: Extras)

  predicate PageOk(p: Page) {
    && Positive(p.width) && Positive(p.height)
    && p.id != ZERO_ID && UniqueObjects(p.objects) && Unique(p.recognition) && Unique(p.corrections)
    && (forall e :: e in p.selection ==> e.val in p.recognition)
  }

  function PageVals(p: Page): seq<Option<Value>>
    requires BackgroundValue(p.background).Ok?
  {
    [Some(Bstr(p.id)), Some(Num(p.width)), Some(Num(p.height)), Some(RefsValue(p.objects)),
     Some(BackgroundValue(p.background).value), Some(IdsValue(p.recognition)), Some(IdsValue(p.corrections)),
     Some(CatalogValue(p.selection, HashKeys(), IdValue))]
  }

  function PageValue(p: Page): Result<Value> {
    if PageOk(p) && BackgroundValue(p.background).Ok? then Body(PageVals(p), p.extra) else Err(InvalidData)
  }

  function PageOf(v: Value): Result<Page> {
    var id :- IdAt(v, 0);
    var width :- FloatAt(v, 1);
    var height :- FloatAt(v, 2);
    var objectsValue :- Require(v, 3);
    var objects :- RefsOf(objectsValue);
    var backgroundValue :- Require(v, 4);
    var background :- BackgroundOf(backgroundValue);
    var recognitionValue :- Require(v, 5);
    var recognition :- IdsOf(recognitionValue);
    var correctionsValue :- Require(v, 6);
    var corrections :- IdsOf(correctionsValue);
    var selectionValue :- Require(v, 7);
    var selection :- CatalogOf(selectionValue, HashKeys(), IdOf);
    var extra :- ExtrasOf(v, Upto(8));
    var p := Page(id, width, height, objects, background, recognition, corrections, selection, extra);
    if PageValue(p).Ok? then Ok(p) else Err(InvalidData)
  }

  lemma PageReads(p: Page)
    requires PageValue(p).Ok? && Catalog(p.selection, HashKeys())
    ensures PageOf(PageValue(p).value) == Ok(p)
  {
    hide Lookup, Body, Positive, ExtrasOf, Upto, RefsValue, RefsOf, IdsValue, IdsOf, BackgroundValue, BackgroundOf,
         CatalogValue, CatalogOf, Orderly, Catalog, RefOk, Tidy;
    var vals, v := PageVals(p), PageValue(p).value;
    BodyFields(vals, p.extra);
    assert Lookup(v, 0) == vals[0] && Lookup(v, 1) == vals[1] && Lookup(v, 2) == vals[2] && Lookup(v, 3) == vals[3];
    assert Lookup(v, 4) == vals[4] && Lookup(v, 5) == vals[5] && Lookup(v, 6) == vals[6] && Lookup(v, 7) == vals[7];
    PositiveFinite(p.width);
    PositiveFinite(p.height);
    RefsRead(p.objects);
    IdsRead(p.recognition);
    IdsRead(p.corrections);
    BackgroundReads(p.background);
    KeysInOrder();
    CatalogReads(p.selection, HashKeys(), IdOf, IdValue);
  }

  lemma PageRewrites(v: Value)
    requires Tidy(v) && PageOf(v).Ok?
    ensures PageValue(PageOf(v).value) == Ok(v)
  {
    hide Lookup, Body, Positive, ExtrasOf, Upto, RefsValue, RefsOf, IdsValue, IdsOf, BackgroundValue, BackgroundOf,
         CatalogValue, CatalogOf, Orderly, Tidy, Unique, UniqueObjects;
    var p := PageOf(v).value;
    RefsRewrite(Lookup(v, 3).value);
    LookupTidy(v, 4);
    BackgroundRewrites(Lookup(v, 4).value);
    IdsRewrite(Lookup(v, 5).value);
    IdsRewrite(Lookup(v, 6).value);
    LookupTidy(v, 7);
    KeysInOrder();
    SelectionAgain(Lookup(v, 7).value);
    BodyAgain(v, PageVals(p));
  }

  lemma PageInOrder(v: Value)
    requires PageOf(v).Ok?
    ensures Catalog(PageOf(v).value.selection, HashKeys())
  {
    hide Lookup, PageValue, ExtrasOf, RefsOf, IdsOf, BackgroundOf, CatalogOf, Linear, Catalog;
    KeysLinear();
    CatalogInOrder(Lookup(v, 7).value, HashKeys(), IdOf);
  }

  lemma SelectionAgain(v: Value)
    requires Tidy(v) && CatalogOf(v, HashKeys(), IdOf).Ok?
    ensures CatalogValue(CatalogOf(v, HashKeys(), IdOf).value, HashKeys(), IdValue) == v
  {
    KeysInOrder();
    CatalogRewrites(v, HashKeys(), IdOf, IdValue);
  }

  lemma PageTidy(p: Page)
    requires PageValue(p).Ok? && Catalog(p.selection, HashKeys()) && ExtrasTidy(p.extra) && ExtrasTidy(p.background.extra)
    ensures Tidy(PageValue(p).value)
  {
    hide Body, ExtrasTidy, BackgroundValue, PrintPairs, TidyFields, Ascending, Orderly, Catalog, RefsValue, IdsValue;
    BackgroundTidy(p.background);
    RefsRead(p.objects);
    IdsRead(p.recognition);
    IdsRead(p.corrections);
    KeysInOrder();
    PrintedPairsTidy(p.selection, HashKeys(), IdValue);
    PositiveFinite(p.width);
    PositiveFinite(p.height);
    BodyIsTidy(PageVals(p), p.extra);
  }

  // ----- strokes

  datatype Stroke = Stroke(id: Id, geometry: Id, brush: Id, rgba: Rgba, width: Float, transform: F6,
                           createdAt: Option<I64>, updatedAt: Option<I64>, extra: Extras)

  predicate StrokeOk(s: Stroke, arith: Arith) {
    && Positive(s.width) && s.id != ZERO_ID && s.geometry != ZERO_ID && s.brush != ZERO_ID
    && AllFinite(s.transform) && arith.regular(s.transform)
  }

  function TimeValue(t: Option<I64>): Option<Value> {
    if t.Some? then Some(Int(t.value)) else None
  }

  function StrokeVals(s: Stroke): seq<Option<Value>> {
    [Some(Bstr(s.id)), Some(Bstr(s.geometry)), Some(Bstr(s.brush)), Some(Bstr(s.rgba)), Some(Num(s.width)),
     Some(FloatsValue(s.transform)), TimeValue(s.createdAt), TimeValue(s.updatedAt)]
  }

  function StrokeValue(s: Stroke, arith: Arith): Result<Value> {
    if StrokeOk(s, arith) then Body(StrokeVals(s), s.extra) else Err(InvalidData)
  }

  function TimeAt(v: Value, k: nat): Result<Option<I64>> {
    if Lookup(v, k).None? then Ok(None)
    else
      var t :- I64Of(Lookup(v, k).value);
      Ok(Some(t))
  }

  function StrokeOf(v: Value, arith: Arith): Result<Stroke> {
    var id :- IdAt(v, 0);
    var geometry :- IdAt(v, 1);
    var brush :- IdAt(v, 2);
    var rgba :- RgbaAt(v, 3);
    var width :- FloatAt(v, 4);
    var transform :- FloatsAt(v, 5, 6);
    var createdAt :- TimeAt(v, 6);
    var updatedAt :- TimeAt(v, 7);
    var extra :- ExtrasOf(v, Upto(8));
    var s := Stroke(id, geometry, brush, rgba, width, transform, createdAt, updatedAt, extra);
    if StrokeValue(s, arith).Ok? then Ok(s) else Err(InvalidData)
  }

  lemma StrokeReads(s: Stroke, arith: Arith)
    requires StrokeValue(s, arith).Ok?
    ensures StrokeOf(StrokeValue(s, arith).value, arith) == Ok(s)
  {
    hide Lookup, Body, Positive, ExtrasOf, Upto, FloatsOf, FloatsValue, Tidy;
    var vals, v := StrokeVals(s), StrokeValue(s, arith).value;
    BodyFields(vals, s.extra);
    assert Lookup(v, 0) == vals[0] && Lookup(v, 1) == vals[1] && Lookup(v, 2) == vals[2] && Lookup(v, 3) == vals[3];
    assert Lookup(v, 4) == vals[4] && Lookup(v, 5) == vals[5] && Lookup(v, 6) == vals[6] && Lookup(v, 7) == vals[7];
    PositiveFinite(s.width);
    FloatsRead(s.transform);
  }

  lemma StrokeRewrites(v: Value, arith: Arith)
    requires Tidy(v) && StrokeOf(v, arith).Ok?
    ensures StrokeValue(StrokeOf(v, arith).value, arith) == Ok(v)
  {
    hide Lookup, Body, Positive, ExtrasOf, Upto, FloatsOf, FloatsValue, Tidy;
    var s := StrokeOf(v, arith).value;
    FloatsRewrite(Lookup(v, 5).value, 6);
    BodyAgain(v, StrokeVals(s));
  }

  lemma StrokeTidy(s: Stroke, arith: Arith)
    requires StrokeValue(s, arith).Ok? && ExtrasTidy(s.extra)
    ensures Tidy(StrokeValue(s, arith).value)
  {
    hide Body, ExtrasTidy, FloatsValue;
    FloatsRead(s.transform);
    PositiveFinite(s.width);
    BodyIsTidy(StrokeVals(s), s.extra);
  }
}
