/** The loops behind bodies in `crates/ink-format/src/model.rs`, proved against their specifications. */
module BodyLoops {
  import opened Results
  import opened CborValue
  import opened Fields
  import opened Bodies
  import opened Geometries

  /** `extras`. */
  method ReadExtras(v: Value, known: seq<nat>) returns (r: Result<Extras>)
    ensures r == ExtrasOf(v, known)
  {
    if !v.Map? {
      return Err(InvalidData);
    }
    var out: Extras := [];
    var i := 0;
    while i < |v.fields|
      invariant i <= |v.fields|
      invariant CollectExtras(v.fields, known, []) == CollectExtras(v.fields[i..], known, out)
    {
      var f := v.fields[i];
      assert v.fields[i..][0] == f && v.fields[i..][1..] == v.fields[i + 1..];
      var k := U64Of(f.key);
      if k.Err? {
        return Err(k.error);
      }
      if k.value !in known {
        if k.value < FIRST_EXTRA {
          return Err(Unsupported(k.value));
        }
        out := InsertExtra(out, k.value, f.val);
      }
      i := i + 1;
    }
    r := Ok(out);
  }

  lemma Above(fields: Extras, extra: Extras, i: nat)
    requires OwnFields(fields) && i < |extra|
    ensures extra[i].key >= FIRST_EXTRA ==> forall x :: x in fields + extra[..i] ==> x.key < extra[i].key
    ensures fields + extra[..i] + [extra[i]] == fields + extra[..i + 1]
  {
    forall x | x in fields + extra[..i] && extra[i].key >= FIRST_EXTRA
      ensures x.key < extra[i].key
    {
      if x !in fields {
        var j :| 0 <= j < |extra[..i]| && extra[..i][j] == x;
        assert extra[j] == x;
      }
    }
  }

  /** `body`: the test for a repeated key never fires, because own fields lie below 0x8000. */
  method WriteBody(fields: Extras, extra: Extras) returns (r: Result<Value>)
    requires OwnFields(fields)
    ensures r == BodyValue(fields, extra)
  {
    hide AsFields;
    var out := fields;
    var i := 0;
    while i < |extra|
      invariant i <= |extra|
      invariant out == fields + extra[..i]
      invariant forall j :: 0 <= j < i ==> extra[j].key >= FIRST_EXTRA
    {
      var e := extra[i];
      Above(fields, extra, i);
      if e.key < FIRST_EXTRA || exists x :: x in out && x.key == e.key {
        assert e in extra && e.key < FIRST_EXTRA;
        return Err(InvalidData);
      }
      InsertLast(out, e.key, e.val);
      out := InsertExtra(out, e.key, e.val);
      i := i + 1;
    }
    assert extra[..i] == extra;
    r := Ok(Map(AsFields(out)));
  }

  /** `unique`. */
  method CheckUnique(ids: seq<Id>) returns (ok: bool)
    ensures ok == Unique(ids)
  {
    var seen: set<Id> := {};
    var i := 0;
    while i < |ids|
      invariant i <= |ids|
      invariant forall d :: d in seen <==> d in ids[..i]
      invariant Unique(ids[..i])
    {
      if ids[i] == ZERO_ID || ids[i] in seen {
        assert ids[i] in ids;
        if ids[i] in seen {
          var j :| 0 <= j < |ids[..i]| && ids[..i][j] == ids[i];
          assert ids[j] == ids[i] && j < i;
        }
        return false;
      }
      seen := seen + {ids[i]};
      assert ids[..i + 1] == ids[..i] + [ids[i]];
      i := i + 1;
    }
    assert ids[..i] == ids;
    ok := true;
  }

  /** `floats`: fills a buffer of `n` numbers. */
  method ReadFloats(v: Value, n: nat) returns (r: Result<seq<Float>>)
    ensures r == FloatsOf(v, n)
  {
    if !v.Array? || |v.items| != n {
      return Err(InvalidData);
    }
    var out := new Float[n];
    var i := 0;
    assert v.items[0..] == v.items && forall rest: seq<Float> :: out[..0] + rest == rest;
    while i < n
      invariant i <= n
      invariant match Lists.ParseAll(v.items[i..], FloatOf)
                case Ok(rest) => Lists.ParseAll(v.items, FloatOf) == Ok(out[..i] + rest)
                case Err(e) => Lists.ParseAll(v.items, FloatOf) == Err(e)
    {
      assert v.items[i..][0] == v.items[i] && v.items[i..][1..] == v.items[i + 1..];
      var f := FloatOf(v.items[i]);
      if f.Err? {
        return Err(f.error);
      }
      ghost var before := out[..i];
      out[i] := f.value;
      assert out[..i + 1] == before + [f.value];
      assert forall rest: seq<Float> :: before + ([f.value] + rest) == before + [f.value] + rest;
      i := i + 1;
    }
    assert out[..n] + [] == out[..];
    assert v.items[n..] == [] && Lists.ParseAll(v.items[n..], FloatOf) == Ok([]);
    r := Ok(out[..]);
  }

  /** The part-coverage loop of `Geometry::to_value`; `None` when a part is out of place. */
  method CoverParts(parts: seq<Part>) returns (r: Option<U32>)
    ensures r == Covered(parts, 0)
  {
    var n: U32 := 0;
    var i := 0;
    while i < |parts|
      invariant i <= |parts|
      invariant Covered(parts, 0) == Covered(parts[i..], n)
    {
      var p := parts[i];
      assert parts[i..][0] == p && parts[i..][1..] == parts[i + 1..];
      if p.segment == ZERO_ID || p.count == 0 || p.firstSample != n {
        return None;
      }
      if n + p.count >= 0x1_0000_0000 {
        return None;
      }
      n := n + p.count;
      i := i + 1;
    }
    r := Some(n);
  }
}
