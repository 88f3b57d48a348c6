/** Source-profile, brush and session bodies of `crates/ink-format/src/model.rs`. */
module Profiles {
  import opened Bytes
  import opened Results
  import opened CborValue
  import opened CborCodec
  import opened Fields
  import opened Lists
  import opened Bodies

  type U16 = n: nat | n < 0x10000

  // ----- axes

  datatype Axis = Axis(unit: seq<Byte>, representation: U64, convention: seq<Byte>, min: Option<Float>,
                       max: Option<Float>, extra: Extras)

  predicate AxisOk(a: Axis, arith: Arith) {
    && a.representation <= 3
    && (a.min.Some? ==> a.min.value.Finite()) && (a.max.Some? ==> a.max.value.Finite())
    && (a.min.Some? && a.max.Some? ==> arith.le(a.min.value, a.max.value))
  }

  function LimitValue(f: Option<Float>): Option<Value> { if f.Some? then Some(Num(f.value)) else None }

  function LimitAt(v: Value, k: nat): Result<Option<Float>> {
    if Lookup(v, k).None? then Ok(None)
    else
      var f :- FloatOf(Lookup(v, k).value);
      Ok(Some(f))
  }

  function AxisVals(a: Axis): seq<Option<Value>> {
    [Some(Text(a.unit)), Some(Int(a.representation)), Some(Text(a.convention)), LimitValue(a.min), LimitValue(a.max)]
  }

  function AxisValue(a: Axis, arith: Arith): Result<Value> {
    if AxisOk(a, arith) then Body(AxisVals(a), a.extra) else Err(InvalidData)
  }

  function AxisOf(v: Value, arith: Arith): Result<Axis> {
    var unit :- TextAt(v, 0);
    var representation :- U64At(v, 1);
    var convention :- TextAt(v, 2);
    var min :- LimitAt(v, 3);
    var max :- LimitAt(v, 4);
    var extra :- ExtrasOf(v, Upto(5));
    var a := Axis(unit, representation, convention, min, max, extra);
    if AxisValue(a, arith).Ok? then Ok(a) else Err(InvalidData)
  }

  lemma AxisReads(a: Axis, arith: Arith)
    requires AxisValue(a, arith).Ok?
    ensures AxisOf(AxisValue(a, arith).value, arith) == Ok(a)
  {
    hide Lookup, Body, ExtrasOf, Upto, Tidy;
    var vals, v := AxisVals(a), AxisValue(a, arith).value;
    BodyFields(vals, a.extra);
    assert Lookup(v, 0) == vals[0] && Lookup(v, 1) == vals[1] && Lookup(v, 2) == vals[2] && Lookup(v, 3) == vals[3];
    assert Lookup(v, 4) == vals[4];
  }

  lemma AxisRewrites(v: Value, arith: Arith)
    requires Tidy(v) && AxisOf(v, arith).Ok?
    ensures AxisValue(AxisOf(v, arith).value, arith) == Ok(v)
  {
    hide Lookup, Body, ExtrasOf, Upto, Tidy;
    BodyAgain(v, AxisVals(AxisOf(v, arith).value));
  }

  lemma AxisTidy(a: Axis, arith: Arith)
    requires AxisValue(a, arith).Ok? && ExtrasTidy(a.extra)
    ensures Tidy(AxisValue(a, arith).value)
  {
    hide Body, ExtrasTidy;
    BodyIsTidy(AxisVals(a), a.extra);
  }

  // ----- source profiles

  datatype SourceProfile = SourceProfile(axes: seq<Pair<U16, Axis>>, provenance: Value, tickNs: Option<U64>, extra: Extras)

  predicate AxisBefore(a: U16, b: U16) { a < b }
  function AxisKey(k: U16): Value { Int(k) }
  function AxisKeyOf(v: Value): Result<U16> {
    if v.Int? && 0 <= v.n < 0x10000 then Ok(v.n) else Err(InvalidData)
  }
  function AxisKeys(): Keys<U16> { Keys(AxisBefore, AxisKey, AxisKeyOf) }

  lemma AxisKeysInOrder()
    ensures Orderly(AxisKeys())
  {
    hide Write, LexLt;
    forall a: U16, b: U16
      ensures AxisBefore(a, b) <==> LexLt(Write(AxisKey(a)), Write(AxisKey(b)))
    {
      NumberKeyOrder(a, b);
    }
  }

  predicate HasAxis(axes: seq<Pair<U16, Axis>>, k: U16) { exists e :: e in axes && e.key == k }

  /** Quantised pressure needs a range; pressure in the third representation does not. */
  predicate PressureOk(a: Axis, arith: Arith) {
    if a.representation < 2 then a.min.Some? && a.max.Some? && !arith.le(a.max.value, a.min.value)
    else a.representation == 2
  }

  predicate ProfileOk(p: SourceProfile, arith: Arith) {
    && HasAxis(p.axes, 1) && HasAxis(p.axes, 2) && HasAxis(p.axes, 12) && !HasAxis(p.axes, 0)
    && TextAt(p.provenance, 0).Ok?
    && p.tickNs != Some(0) && (HasAxis(p.axes, 4) <==> p.tickNs.Some?)
    && (forall e :: e in p.axes && e.key == 3 ==> PressureOk(e.val, arith))
    && (forall e :: e in p.axes ==> AxisValue(e.val, arith).Ok?)
  }

  function AxisPrinter(arith: Arith): Axis -> Value {
    (a: Axis) => if AxisValue(a, arith).Ok? then AxisValue(a, arith).value else Null
  }

  function AxisReader(arith: Arith): Value -> Result<Axis> { (v: Value) => AxisOf(v, arith) }

  function ProfileVals(p: SourceProfile, arith: Arith): seq<Option<Value>> {
    [Some(CatalogValue(p.axes, AxisKeys(), AxisPrinter(arith))), Some(p.provenance),
     Some(if p.tickNs.Some? then Int(p.tickNs.value) else Null)]
  }

  function ProfileValue(p: SourceProfile, arith: Arith): Result<Value> {
    if ProfileOk(p, arith) then Body(ProfileVals(p, arith), p.extra) else Err(InvalidData)
  }

  function TickOf(v: Value): Result<Option<U64>> {
    if v.Null? then Ok(None)
    else
      var n :- U64Of(v);
      Ok(Some(n))
  }

  function ProfileOf(v: Value, arith: Arith): Result<SourceProfile> {
    var axesValue :- Require(v, 0);
    var axes :- CatalogOf(axesValue, AxisKeys(), AxisReader(arith));
    var provenance :- Require(v, 1);
    var tickValue :- Require(v, 2);
    var tickNs :- TickOf(tickValue);
    var extra :- ExtrasOf(v, Upto(3));
    var p := SourceProfile(axes, provenance, tickNs, extra);
    if ProfileValue(p, arith).Ok? then Ok(p) else Err(InvalidData)
  }

  lemma AxesRead(axes: seq<Pair<U16, Axis>>, arith: Arith)
    requires Catalog(axes, AxisKeys()) && forall e :: e in axes ==> AxisValue(e.val, arith).Ok?
    ensures CatalogOf(CatalogValue(axes, AxisKeys(), AxisPrinter(arith)), AxisKeys(), AxisReader(arith)) == Ok(axes)
  {
    hide AxisValue, AxisOf, CatalogValue, CatalogOf, Orderly, Catalog;
    AxisKeysInOrder();
    forall e | e in axes
      ensures AxisReader(arith)(AxisPrinter(arith)(e.val)) == Ok(e.val)
    {
      AxisReads(e.val, arith);
    }
    CatalogReads(axes, AxisKeys(), AxisReader(arith), AxisPrinter(arith));
  }

  lemma AxesRewrite(v: Value, arith: Arith)
    requires Tidy(v) && CatalogOf(v, AxisKeys(), AxisReader(arith)).Ok?
    ensures CatalogValue(CatalogOf(v, AxisKeys(), AxisReader(arith)).value, AxisKeys(), AxisPrinter(arith)) == v
  {
    hide AxisValue, AxisOf, CatalogValue, Orderly, TidyFields, Ascending;
    AxisKeysInOrder();
    forall x | x in v.fields && AxisReader(arith)(x.val).Ok?
      ensures AxisPrinter(arith)(AxisReader(arith)(x.val).value) == x.val
    {
      var i :| 0 <= i < |v.fields| && v.fields[i] == x;
      TidyField(v.fields, i);
      AxisRewrites(x.val, arith);
    }
    CatalogRewrites(v, AxisKeys(), AxisReader(arith), AxisPrinter(arith));
  }

  /** The axes of a profile that was read are in order without repetition. */
  lemma ProfileInOrder(v: Value, arith: Arith)
    requires ProfileOf(v, arith).Ok?
    ensures Catalog(ProfileOf(v, arith).value.axes, AxisKeys())
  {
    hide Lookup, ProfileValue, ExtrasOf, CatalogOf, Catalog;
    CatalogInOrder(Lookup(v, 0).value, AxisKeys(), AxisReader(arith));
  }

  lemma ProfileReads(p: SourceProfile, arith: Arith)
    requires ProfileValue(p, arith).Ok? && Catalog(p.axes, AxisKeys())
    ensures ProfileOf(ProfileValue(p, arith).value, arith) == Ok(p)
  {
    hide Lookup, Body, ExtrasOf, Upto, Tidy, CatalogValue, CatalogOf, HasAxis, AxisValue, Catalog, TextAt, PressureOk;
    var vals, v := ProfileVals(p, arith), ProfileValue(p, arith).value;
    BodyFields(vals, p.extra);
    assert Lookup(v, 0) == vals[0] && Lookup(v, 1) == vals[1] && Lookup(v, 2) == vals[2];
    AxesRead(p.axes, arith);
  }

  lemma ProfileRewrites(v: Value, arith: Arith)
    requires Tidy(v) && ProfileOf(v, arith).Ok?
    ensures ProfileValue(ProfileOf(v, arith).value, arith) == Ok(v)
  {
    hide Lookup, Body, ExtrasOf, Upto, Tidy, CatalogValue, CatalogOf, ProfileOk;
    LookupTidy(v, 0);
    AxesRewrite(Lookup(v, 0).value, arith);
    BodyAgain(v, ProfileVals(ProfileOf(v, arith).value, arith));
  }

  predicate AxesTidy(axes: seq<Pair<U16, Axis>>) { forall e :: e in axes ==> ExtrasTidy(e.val.extra) }

  lemma ProfileTidy(p: SourceProfile, arith: Arith)
    requires ProfileValue(p, arith).Ok? && Catalog(p.axes, AxisKeys())
    requires ExtrasTidy(p.extra) && AxesTidy(p.axes) && Tidy(p.provenance)
    ensures Tidy(ProfileValue(p, arith).value)
  {
    hide Body, ExtrasTidy, HasAxis, AxisValue, Catalog, TextAt, PressureOk, PrintPairs, TidyFields, Ascending, Orderly;
    forall e | e in p.axes
      ensures Tidy(AxisPrinter(arith)(e.val))
    {
      AxisTidy(e.val, arith);
    }
    AxisKeysInOrder();
    PrintedPairsTidy(p.axes, AxisKeys(), AxisPrinter(arith));
    BodyIsTidy(ProfileVals(p, arith), p.extra);
  }

  // ----- brushes

  datatype Brush = Brush(contract: seq<Byte>, version: U64, parameters: Value, extra: Extras)

  function BrushVals(b: Brush): seq<Option<Value>> { [Some(Text(b.contract)), Some(Int(b.version)), Some(b.parameters)] }

  function BrushValue(b: Brush): Result<Value> {
    if b.contract != [] && b.version > 0 && b.parameters.Map? then Body(BrushVals(b), b.extra) else Err(InvalidData)
  }

  function BrushOf(v: Value): Result<Brush> {
    var contract :- TextAt(v, 0);
    var version :- U64At(v, 1);
    var parameters :- Require(v, 2);
    var extra :- ExtrasOf(v, Upto(3));
    var b := Brush(contract, version, parameters, extra);
    if BrushValue(b).Ok? then Ok(b) else Err(InvalidData)
  }

  lemma BrushReads(b: Brush)
    requires BrushValue(b).Ok?
    ensures BrushOf(BrushValue(b).value) == Ok(b)
  {
    hide Lookup, Body, ExtrasOf, Upto;
    var vals, v := BrushVals(b), BrushValue(b).value;
    BodyFields(vals, b.extra);
    assert Lookup(v, 0) == vals[0] && Lookup(v, 1) == vals[1] && Lookup(v, 2) == vals[2];
  }

  lemma BrushRewrites(v: Value)
    requires Tidy(v) && BrushOf(v).Ok?
    ensures BrushValue(BrushOf(v).value) == Ok(v)
  {
    hide Lookup, Body, ExtrasOf, Upto, Tidy;
    BodyAgain(v, BrushVals(BrushOf(v).value));
  }

  lemma BrushTidy(b: Brush)
    requires BrushValue(b).Ok? && ExtrasTidy(b.extra) && Tidy(b.parameters)
    ensures Tidy(BrushValue(b).value)
  {
    hide Body, ExtrasTidy, TidyFields, Ascending;
    BodyIsTidy(BrushVals(b), b.extra);
  }

  // ----- sessions

  datatype Session = Session(tickNs: U64, wallAnchor: Option<Value>, adapterContract: seq<Byte>, extra: Extras)

  predicate AnchorOk(v: Value) {
    && U64At(v, 0).Ok?
    && Lookup(v, 1).Some? && I64Of(Lookup(v, 1).value).Ok?
    && (Lookup(v, 2).Some? ==> U64Of(Lookup(v, 2).value).Ok?)
  }

  function SessionVals(s: Session): seq<Option<Value>> {
    [Some(Int(s.tickNs)), Some(Int(1)), s.wallAnchor, Some(Text(s.adapterContract))]
  }

  function SessionValue(s: Session): Result<Value> {
    if s.tickNs > 0 && s.adapterContract != [] && (s.wallAnchor.Some? ==> AnchorOk(s.wallAnchor.value))
    then Body(SessionVals(s), s.extra)
    else Err(InvalidData)
  }

  function SessionOf(v: Value): Result<Session> {
    var clock :- U64At(v, 1);
    if clock != 1 then Err(InvalidData)
    else
      var tickNs :- U64At(v, 0);
      var adapterContract :- TextAt(v, 3);
      var extra :- ExtrasOf(v, Upto(4));
      var s := Session(tickNs, Lookup(v, 2), adapterContract, extra);
      if SessionValue(s).Ok? then Ok(s) else Err(InvalidData)
  }

  lemma SessionReads(s: Session)
    requires SessionValue(s).Ok?
    ensures SessionOf(SessionValue(s).value) == Ok(s)
  {
    hide Lookup, Body, ExtrasOf, Upto, AnchorOk;
    var vals, v := SessionVals(s), SessionValue(s).value;
    BodyFields(vals, s.extra);
    assert Lookup(v, 0) == vals[0] && Lookup(v, 1) == vals[1] && Lookup(v, 2) == vals[2] && Lookup(v, 3) == vals[3];
  }

  lemma SessionRewrites(v: Value)
    requires Tidy(v) && SessionOf(v).Ok?
    ensures SessionValue(SessionOf(v).value) == Ok(v)
  {
    hide Lookup, Body, ExtrasOf, Upto, AnchorOk, Tidy;
    BodyAgain(v, SessionVals(SessionOf(v).value));
  }

  lemma SessionTidy(s: Session)
    requires SessionValue(s).Ok? && ExtrasTidy(s.extra) && (s.wallAnchor.Some? ==> Tidy(s.wallAnchor.value))
    ensures Tidy(SessionValue(s).value)
  {
    hide Body, ExtrasTidy, AnchorOk;
    BodyIsTidy(SessionVals(s), s.extra);
  }
}
