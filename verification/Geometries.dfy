/** Geometry bodies of `crates/ink-format/src/model.rs`. */
module Geometries {
  import opened Bytes
  import opened Results
  import opened CborValue
  import opened Fields
  import opened Lists
  import opened Bodies

  // ----- parts of a geometry

  datatype Part = Part(segment: Id, firstSample: U32, count: U32, firstTick: U64)
  datatype Timing = Timing(session: Id, startTick: U64)
  datatype Geometry = Geometry(profile: Id, timing: Option<Timing>, pointCount: U32, parts: seq<Part>,
                               bounds: Option<F4>, provenance: Option<Value>, extra: Extras)

  function PartVals(p: Part): seq<Option<Value>> {
    [Some(Bstr(p.segment)), Some(Int(p.firstSample)), Some(Int(p.count)), Some(Int(p.firstTick))]
  }

  function PartValue(p: Part): Value { Body(PartVals(p), []).value }

  function PartOf(v: Value): Result<Part> {
    var extra :- ExtrasOf(v, Upto(4));
    if extra != [] then Err(InvalidData)
    else
      var segment :- IdAt(v, 0);
      var firstSample :- U32At(v, 1);
      var count :- U32At(v, 2);
      var firstTick :- U64At(v, 3);
      Ok(Part(segment, firstSample, count, firstTick))
  }

  lemma PartReads(p: Part)
    requires p.segment != ZERO_ID
    ensures PartOf(PartValue(p)) == Ok(p) && Tidy(PartValue(p))
  {
    hide Lookup, Body, ExtrasOf, Upto, Tidy;
    var vals := PartVals(p);
    NoExtras(vals);
    BodyFields(vals, []);
    var v := PartValue(p);
    assert Lookup(v, 0) == vals[0] && Lookup(v, 1) == vals[1] && Lookup(v, 2) == vals[2] && Lookup(v, 3) == vals[3];
    TidyLeaves(p.segment, p.firstSample);
    TidyLeaves(p.segment, p.count);
    TidyLeaves(p.segment, p.firstTick);
    BodyIsTidy(vals, []);
  }

  lemma TidyLeaves(b: seq<Byte>, n: int)
    ensures Tidy(Bstr(b)) && Tidy(Int(n)) && Tidy(Null) && Tidy(Text(b))
  {
  }

  lemma PartRewrites(v: Value)
    requires Tidy(v) && PartOf(v).Ok?
    ensures PartValue(PartOf(v).value) == v
  {
    hide Lookup, Body, ExtrasOf, Upto, Tidy;
    BodyAgain(v, PartVals(PartOf(v).value));
  }

  function TimingVals(t: Timing): seq<Option<Value>> { [Some(Bstr(t.session)), Some(Int(t.startTick))] }

  function TimingValue(t: Option<Timing>): Value {
    if t.None? then Null else Body(TimingVals(t.value), []).value
  }

  function TimingOf(v: Value): Result<Option<Timing>> {
    if v.Null? then Ok(None)
    else
      var extra :- ExtrasOf(v, Upto(2));
      if extra != [] then Err(InvalidData)
      else
        var session :- IdAt(v, 0);
        var startTick :- U64At(v, 1);
        Ok(Some(Timing(session, startTick)))
  }

  lemma TimingReads(t: Option<Timing>)
    requires t.Some? ==> t.value.session != ZERO_ID
    ensures TimingOf(TimingValue(t)) == Ok(t) && Tidy(TimingValue(t))
  {
    hide Lookup, Body, ExtrasOf, Upto, Tidy;
    TidyLeaves([], 0);
    if t.Some? {
      var vals := TimingVals(t.value);
      NoExtras(vals);
      BodyFields(vals, []);
      var v := TimingValue(t);
      assert Lookup(v, 0) == vals[0] && Lookup(v, 1) == vals[1];
      TidyLeaves(t.value.session, t.value.startTick);
      BodyIsTidy(vals, []);
    }
  }

  lemma TimingRewrites(v: Value)
    requires Tidy(v) && TimingOf(v).Ok?
    ensures TimingValue(TimingOf(v).value) == v
  {
    hide Lookup, Body, ExtrasOf, Upto, Tidy;
    if !v.Null? {
      BodyAgain(v, TimingVals(TimingOf(v).value.value));
    }
  }

  // ----- coverage of the samples by the parts

  /** The parts follow one another from sample `n` on; the result is where they end. */
  function Covered(parts: seq<Part>, n: U32): Option<U32> {
    if parts == [] then Some(n)
    else if parts[0].segment == ZERO_ID || parts[0].count == 0 || parts[0].firstSample != n then None
    else if n + parts[0].count >= 0x1_0000_0000 then None
    else Covered(parts[1..], n + parts[0].count)
  }

  predicate HoldsSample(p: Part, k: nat) { p.firstSample <= k < p.firstSample + p.count }

  /** Every sample of a covered range lies in exactly one part. */
  lemma {:induction false} CoveredOnce(parts: seq<Part>, n: U32, k: nat) returns (i: nat)
    requires Covered(parts, n).Some? && n <= k < Covered(parts, n).value
    ensures i < |parts| && HoldsSample(parts[i], k)
    ensures forall j: nat :: j < |parts| && HoldsSample(parts[j], k) ==> j == i
  {
    var m, rest := n + parts[0].count, parts[1..];
    CoveredFrom(rest, m);
    assert forall j: nat :: 0 < j < |parts| ==> parts[j] == rest[j - 1] && rest[j - 1] in rest;
    if k < m {
      i := 0;
    } else {
      var r := CoveredOnce(rest, m, k);
      i := r + 1;
    }
  }

  lemma {:induction false} CoveredFrom(parts: seq<Part>, n: U32)
    requires Covered(parts, n).Some?
    ensures n <= Covered(parts, n).value
    ensures forall p :: p in parts ==> n <= p.firstSample && p.firstSample + p.count <= Covered(parts, n).value
    ensures forall p :: p in parts ==> p.segment != ZERO_ID && p.count > 0
  {
    if parts != [] {
      CoveredFrom(parts[1..], n + parts[0].count);
    }
  }

  // ----- geometries

  predicate BoundsOk(b: F4, arith: Arith) {
    AllFinite(b) && arith.le(b[0], b[2]) && arith.le(b[1], b[3])
  }

  predicate ProvenanceOk(v: Value) {
    Lookup(v, 0).Some? && IdsOf(Lookup(v, 0).value).Ok? && TextAt(v, 1).Ok?
  }

  predicate GeometryOk(g: Geometry, arith: Arith) {
    && g.profile != ZERO_ID && g.pointCount > 0 && g.parts != []
    && Covered(g.parts, 0) == Some(g.pointCount)
    && (g.timing.Some? ==> g.timing.value.session != ZERO_ID)
    && (g.bounds.Some? ==> BoundsOk(g.bounds.value, arith))
    && (g.provenance.Some? ==> ProvenanceOk(g.provenance.value))
  }

  function GeometryVals(g: Geometry): seq<Option<Value>> {
    [Some(Bstr(g.profile)), Some(TimingValue(g.timing)), Some(Int(g.pointCount)),
     Some(Array(PrintAll(g.parts, PartValue))), Some(Int(0)),
     if g.bounds.Some? then Some(FloatsValue(g.bounds.value)) else None, g.provenance]
  }

  function GeometryValue(g: Geometry, arith: Arith): Result<Value> {
    if GeometryOk(g, arith) then Body(GeometryVals(g), g.extra) else Err(InvalidData)
  }

  function BoundsOf(v: Option<Value>): Result<Option<F4>> {
    if v.None? then Ok(None)
    else
      var b :- FloatsOf(v.value, 4);
      Ok(Some(b))
  }

  function GeometryOf(v: Value, arith: Arith): Result<Geometry> {
    var accuracy :- U64At(v, 4);
    if accuracy != 0 then Err(InvalidData)
    else
      var timingValue :- Require(v, 1);
      var timing :- TimingOf(timingValue);
      var profile :- IdAt(v, 0);
      var pointCount :- U32At(v, 2);
      var partsValue :- Require(v, 3);
      var partItems :- ItemsOf(partsValue);
      var parts :- ParseAll(partItems, PartOf);
      var bounds :- BoundsOf(Lookup(v, 5));
      var extra :- ExtrasOf(v, Upto(7));
      var g := Geometry(profile, timing, pointCount, parts, bounds, Lookup(v, 6), extra);
      if GeometryValue(g, arith).Ok? then Ok(g) else Err(InvalidData)
  }

  lemma PartsRead(parts: seq<Part>)
    requires forall p :: p in parts ==> p.segment != ZERO_ID
    ensures ParseAll(PrintAll(parts, PartValue), PartOf) == Ok(parts)
    ensures TidyItems(PrintAll(parts, PartValue))
  {
    hide PartValue, PartOf, Tidy;
    forall p | p in parts
      ensures PartOf(PartValue(p)) == Ok(p) && Tidy(PartValue(p))
    {
      PartReads(p);
    }
    ParsePrinted(parts, PartOf, PartValue);
    PrintedTidy(parts, PartValue);
  }

  lemma PartsRewrite(v: Value)
    requires Tidy(v) && v.Array? && ParseAll(v.items, PartOf).Ok?
    ensures PrintAll(ParseAll(v.items, PartOf).value, PartValue) == v.items
  {
    hide PartValue, PartOf;
    forall x | x in v.items && PartOf(x).Ok?
      ensures PartValue(PartOf(x).value) == x
    {
      var i :| 0 <= i < |v.items| && v.items[i] == x;
      TidyItem(v.items, i);
      PartRewrites(x);
    }
    PrintParsed(v.items, PartOf, PartValue);
  }

  lemma GeometryReads(g: Geometry, arith: Arith)
    requires GeometryValue(g, arith).Ok?
    ensures GeometryOf(GeometryValue(g, arith).value, arith) == Ok(g)
  {
    hide Lookup, Body, ExtrasOf, Upto, FloatsOf, FloatsValue, Tidy, TimingOf, TimingValue, PartValue, PartOf,
         ParseAll, PrintAll, Covered, ProvenanceOk;
    var vals, v := GeometryVals(g), GeometryValue(g, arith).value;
    BodyFields(vals, g.extra);
    assert Lookup(v, 0) == vals[0] && Lookup(v, 1) == vals[1] && Lookup(v, 2) == vals[2] && Lookup(v, 3) == vals[3];
    assert Lookup(v, 4) == vals[4] && Lookup(v, 5) == vals[5] && Lookup(v, 6) == vals[6];
    TimingReads(g.timing);
    CoveredFrom(g.parts, 0);
    PartsRead(g.parts);
    if g.bounds.Some? {
      FloatsRead(g.bounds.value);
    }
  }

  lemma GeometryRewrites(v: Value, arith: Arith)
    requires Tidy(v) && GeometryOf(v, arith).Ok?
    ensures GeometryValue(GeometryOf(v, arith).value, arith) == Ok(v)
  {
    hide Lookup, Body, ExtrasOf, Upto, FloatsOf, FloatsValue, Tidy, TimingOf, TimingValue, PartValue, PartOf,
         ParseAll, PrintAll, Covered, ProvenanceOk, BoundsOk;
    var g := GeometryOf(v, arith).value;
    LookupTidy(v, 1);
    TimingRewrites(Lookup(v, 1).value);
    LookupTidy(v, 3);
    PartsRewrite(Lookup(v, 3).value);
    if Lookup(v, 5).Some? {
      FloatsRewrite(Lookup(v, 5).value, 4);
    }
    BodyAgain(v, GeometryVals(g));
  }

  lemma GeometryTidy(g: Geometry, arith: Arith)
    requires GeometryValue(g, arith).Ok? && ExtrasTidy(g.extra) && (g.provenance.Some? ==> Tidy(g.provenance.value))
    ensures Tidy(GeometryValue(g, arith).value)
  {
    hide Body, ExtrasTidy, FloatsValue, TimingValue, PartValue, PrintAll, Covered, ProvenanceOk;
    TimingReads(g.timing);
    CoveredFrom(g.parts, 0);
    PartsRead(g.parts);
    if g.bounds.Some? {
      FloatsRead(g.bounds.value);
    }
    BodyIsTidy(GeometryVals(g), g.extra);
  }
}
