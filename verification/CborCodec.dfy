/** `encode` and `decode` of `crates/ink-format/src/cbor.rs`: canonical form, and the codec around it. */
module CborCodec {
  import opened Bytes
  import opened CborValue
  import opened CborPreflight
  import opened Results

  const MAX_RECORD: nat := 16 * 1024 * 1024
  const RECURSION_LIMIT: nat := 32

  // ----- canonical form

  /** Stable insertion by the encoded key (`sort_by` on the key bytes). */
  function Insert(e: Field, sorted: seq<Field>): seq<Field> {
    if sorted == [] || !LexLt(Write(sorted[0].key), Write(e.key)) then [e] + sorted
    else [sorted[0]] + Insert(e, sorted[1..])
  }

  function Sort(fields: seq<Field>): seq<Field> {
    if fields == [] then [] else Insert(fields[0], Sort(fields[1..]))
  }

  predicate NoNeighbourTwins(fields: seq<Field>) {
    forall i :: 0 <= i < |fields| - 1 ==> Write(fields[i].key) != Write(fields[i + 1].key)
  }

  /** The local `canonical`: sorts every map by its encoded keys and refuses what has no
      deterministic form. */
  function Canonical(v: Value, depth: nat): Result<Value>
    decreases v, 1
  {
    if depth > MAX_DEPTH then Err(InvalidData)
    else
      match v
      case Map(fields) =>
        var done :- CanonicalFields(fields, depth + 1);
        if NoNeighbourTwins(Sort(done)) then Ok(Map(Sort(done))) else Err(InvalidData)
      case Array(items) =>
        var done :- CanonicalItems(items, depth + 1);
        Ok(Array(done))
      case Num(f) => if f.Finite() then Ok(v) else Err(InvalidData)
      case Tag(_, _) => Err(InvalidData)
      case _ => Ok(v)
  }

  function CanonicalItems(items: seq<Value>, depth: nat): (r: Result<seq<Value>>)
    ensures r.Ok? ==> |r.value| == |items|
    decreases items, 0
  {
    if items == [] then Ok([])
    else
      var v :- Canonical(items[0], depth);
      var vs :- CanonicalItems(items[1..], depth);
      Ok([v] + vs)
  }

  function CanonicalFields(fields: seq<Field>, depth: nat): (r: Result<seq<Field>>)
    ensures r.Ok? ==> |r.value| == |fields|
    decreases fields, 0
  {
    if fields == [] then Ok([])
    else
      assert fields[0].key < fields[0] && fields[0].val < fields[0];
      var k :- Canonical(fields[0].key, depth);
      var x :- Canonical(fields[0].val, depth);
      var fs :- CanonicalFields(fields[1..], depth);
      Ok([Field(k, x)] + fs)
  }

  // ----- what canonical means, said without the sort

  predicate Ascending(fields: seq<Field>) {
    forall i, j :: 0 <= i < j < |fields| ==> LexLt(Write(fields[i].key), Write(fields[j].key))
  }

  /** Every map ascends strictly in its encoded keys, every number is finite, no tag, depth bounded. */
  predicate IsCanonical(v: Value, depth: nat)
    decreases v, 1
  {
    && depth <= MAX_DEPTH
    && match v
       case Map(fields) => Ascending(fields) && AreCanonicalFields(fields, depth + 1)
       case Array(items) => AreCanonical(items, depth + 1)
       case Num(f) => f.Finite()
       case Tag(_, _) => false
       case _ => true
  }

  predicate AreCanonical(items: seq<Value>, depth: nat)
    decreases items, 0
  {
    items == [] || (IsCanonical(items[0], depth) && AreCanonical(items[1..], depth))
  }

  predicate AreCanonicalFields(fields: seq<Field>, depth: nat)
    decreases fields, 0
  {
    fields == [] ||
    assert fields[0].key < fields[0] && fields[0].val < fields[0];
    (IsCanonical(fields[0].key, depth) && IsCanonical(fields[0].val, depth) && AreCanonicalFields(fields[1..], depth))
  }

  /** `c` is `v` with the entries of its maps, at every level, in some other order. */
  ghost predicate Reordered(v: Value, c: Value)
    decreases v, 1
  {
    match v
    case Map(fields) =>
      c.Map? && exists mid: seq<Field> :: ReorderedFields(fields, mid) && multiset(mid) == multiset(c.fields)
    case Array(items) => c.Array? && ReorderedItems(items, c.items)
    case _ => v == c
  }

  ghost predicate ReorderedItems(vs: seq<Value>, cs: seq<Value>)
    decreases vs, 0
  {
    |vs| == |cs| && (vs == [] || (Reordered(vs[0], cs[0]) && ReorderedItems(vs[1..], cs[1..])))
  }

  ghost predicate ReorderedFields(vs: seq<Field>, cs: seq<Field>)
    decreases vs, 0
  {
    |vs| == |cs| &&
    (vs == [] ||
     assert vs[0].key < vs[0] && vs[0].val < vs[0];
     (Reordered(vs[0].key, cs[0].key) && Reordered(vs[0].val, cs[0].val) && ReorderedFields(vs[1..], cs[1..])))
  }

  // ----- sorting

  predicate WeaklyAscending(fields: seq<Field>) {
    forall i, j :: 0 <= i < j < |fields| ==> !LexLt(Write(fields[j].key), Write(fields[i].key))
  }

  lemma LexNotLess(a: seq<Byte>, b: seq<Byte>, c: seq<Byte>)
    requires !LexLt(b, a) && !LexLt(c, b)
    ensures !LexLt(c, a)
  {
    hide LexLt;
    LexTrichotomy(a, b);
    LexTrichotomy(b, c);
    if LexLt(c, a) {
      LexTrichotomy(a, b);
      if LexLt(a, b) {
        LexTransitive(c, a, b);
      }
    }
  }

  lemma {:induction false} InsertSorts(e: Field, sorted: seq<Field>)
    requires WeaklyAscending(sorted)
    ensures WeaklyAscending(Insert(e, sorted))
    ensures multiset(Insert(e, sorted)) == multiset([e] + sorted)
  {
    hide LexLt, Write, WeaklyAscending;
    if sorted == [] {
      HeadFirst(e, []);
    } else if !LexLt(Write(sorted[0].key), Write(e.key)) {
      forall x | x in sorted
        ensures !LexLt(Write(x.key), Write(e.key))
      {
        // e does not exceed the first entry, which does not exceed the others
        var j :| 0 <= j < |sorted| && sorted[j] == x;
        NotBelowHead(e, sorted, j);
      }
      HeadFirst(e, sorted);
    } else {
      var rest := Insert(e, sorted[1..]);
      TailAscends(sorted);
      InsertSorts(e, sorted[1..]);
      assert sorted == [sorted[0]] + sorted[1..];
      forall x | x in rest
        ensures !LexLt(Write(x.key), Write(sorted[0].key))
      {
        assert x in multiset(rest);
        assert x == e || x in sorted[1..];
        if x == e {
          LexAsymmetric(Write(sorted[0].key), Write(e.key));
        }
      }
      HeadFirst(sorted[0], rest);
    }
  }

  lemma HeadFirst(e: Field, rest: seq<Field>)
    requires WeaklyAscending(rest) && forall x :: x in rest ==> !LexLt(Write(x.key), Write(e.key))
    ensures WeaklyAscending([e] + rest)
  {
    hide LexLt, Write;
  }

  lemma TailAscends(sorted: seq<Field>)
    requires WeaklyAscending(sorted) && sorted != []
    ensures WeaklyAscending(sorted[1..]) && forall x :: x in sorted[1..] ==> !LexLt(Write(x.key), Write(sorted[0].key))
  {
    hide LexLt, Write;
  }

  lemma LexAsymmetric(a: seq<Byte>, b: seq<Byte>)
    requires LexLt(a, b)
    ensures !LexLt(b, a)
  {
    hide LexLt;
    LexIrreflexive(a);
    if LexLt(b, a) {
      LexTransitive(a, b, a);
    }
  }

  lemma NotBelowHead(e: Field, sorted: seq<Field>, j: nat)
    requires j < |sorted| && WeaklyAscending(sorted)
    requires !LexLt(Write(sorted[0].key), Write(e.key))
    ensures !LexLt(Write(sorted[j].key), Write(e.key))
  {
    hide LexLt, Write;
    if j > 0 {
      LexNotLess(Write(e.key), Write(sorted[0].key), Write(sorted[j].key));
    }
  }

  lemma {:induction false} SortSorts(fields: seq<Field>)
    ensures WeaklyAscending(Sort(fields))
    ensures multiset(Sort(fields)) == multiset(fields)
  {
    hide LexLt, Write, Insert;
    if fields != [] {
      SortSorts(fields[1..]);
      InsertSorts(fields[0], Sort(fields[1..]));
      assert fields == [fields[0]] + fields[1..];
    }
  }

  /** Neighbours that differ are enough: the sorted entries then ascend strictly. */
  lemma NeighboursSuffice(fields: seq<Field>)
    requires WeaklyAscending(fields)
    ensures NoNeighbourTwins(fields) <==> Ascending(fields)
  {
    hide LexLt, Write;
    if NoNeighbourTwins(fields) {
      forall i, j | 0 <= i < j < |fields|
        ensures LexLt(Write(fields[i].key), Write(fields[j].key))
      {
        var a, b, c := Write(fields[i].key), Write(fields[i + 1].key), Write(fields[j].key);
        LexTrichotomy(a, b);
        if i + 1 < j {
          LexTrichotomy(b, c);
          if LexLt(b, c) {
            LexTransitive(a, b, c);
          }
        }
      }
    } else {
      var i :| 0 <= i < |fields| - 1 && Write(fields[i].key) == Write(fields[i + 1].key);
      LexIrreflexive(Write(fields[i].key));
    }
  }

  /** Strictly ascending arrangements of the same entries are equal. */
  lemma {:induction false} AscendingUnique(a: seq<Field>, b: seq<Field>)
    requires Ascending(a) && Ascending(b) && multiset(a) == multiset(b)
    ensures a == b
  {
    hide LexLt, Write, Ascending;
    assert |a| == |multiset(a)| == |multiset(b)| == |b|;
    if a != [] {
      SameHead(a, b);
      TailEntries(a);
      TailEntries(b);
      AscendingUnique(a[1..], b[1..]);
      assert a == [a[0]] + a[1..] && b == [b[0]] + b[1..];
    }
  }

  lemma TailEntries(a: seq<Field>)
    requires a != [] && Ascending(a)
    ensures Ascending(a[1..]) && multiset(a[1..]) == multiset(a) - multiset{a[0]}
  {
    hide LexLt, Write;
    assert a == [a[0]] + a[1..];
  }

  lemma SameHead(a: seq<Field>, b: seq<Field>)
    requires a != [] && b != [] && Ascending(a) && Ascending(b) && multiset(a) == multiset(b)
    ensures a[0] == b[0]
  {
    hide LexLt, Write;
    assert a[0] in multiset(b) && b[0] in multiset(a);
    var i :| 0 <= i < |b| && b[i] == a[0];
    var j :| 0 <= j < |a| && a[j] == b[0];
    if i > 0 && j > 0 {
      assert LexLt(Write(b[0].key), Write(b[i].key));
      LexAsymmetric(Write(b[0].key), Write(b[i].key));
      assert false;
    }
  }

  // ----- Canonical computes exactly the canonical reordering

  lemma {:induction false} CanonicalSound(v: Value, depth: nat)
    requires Canonical(v, depth).Ok?
    ensures IsCanonical(Canonical(v, depth).value, depth)
    ensures Reordered(v, Canonical(v, depth).value)
    decreases v, 1
  {
    hide LexLt, Write, Sort, NoNeighbourTwins, Ascending, CanonicalFields, CanonicalItems,
      AreCanonical, AreCanonicalFields, ReorderedItems, ReorderedFields;
    match v {
      case Map(fields) =>
        CanonicalFieldsSound(fields, depth + 1);
        var mid := CanonicalFields(fields, depth + 1).value;
        SortSorts(mid);
        NeighboursSuffice(Sort(mid));
        FieldsOfSameEntries(mid, Sort(mid), depth + 1);
      case Array(items) =>
        CanonicalItemsSound(items, depth + 1);
      case _ =>
    }
  }

  lemma {:induction false} CanonicalItemsSound(items: seq<Value>, depth: nat)
    requires CanonicalItems(items, depth).Ok?
    ensures AreCanonical(CanonicalItems(items, depth).value, depth)
    ensures ReorderedItems(items, CanonicalItems(items, depth).value)
    decreases items, 0
  {
    hide Canonical, IsCanonical, Reordered;
    if items != [] {
      CanonicalSound(items[0], depth);
      CanonicalItemsSound(items[1..], depth);
      assert CanonicalItems(items, depth).value[1..] == CanonicalItems(items[1..], depth).value;
    }
  }

  lemma {:induction false} CanonicalFieldsSound(fields: seq<Field>, depth: nat)
    requires CanonicalFields(fields, depth).Ok?
    ensures AreCanonicalFields(CanonicalFields(fields, depth).value, depth)
    ensures ReorderedFields(fields, CanonicalFields(fields, depth).value)
    decreases fields, 0
  {
    hide Canonical, IsCanonical, Reordered;
    if fields != [] {
      assert fields[0].key < fields[0] && fields[0].val < fields[0];
      CanonicalSound(fields[0].key, depth);
      CanonicalSound(fields[0].val, depth);
      CanonicalFieldsSound(fields[1..], depth);
      assert CanonicalFields(fields, depth).value[1..] == CanonicalFields(fields[1..], depth).value;
    }
  }

  lemma {:induction false} FieldIsCanonical(fields: seq<Field>, i: nat, depth: nat)
    requires AreCanonicalFields(fields, depth) && i < |fields|
    ensures IsCanonical(fields[i].key, depth) && IsCanonical(fields[i].val, depth)
  {
    hide IsCanonical;
    if i > 0 {
      FieldIsCanonical(fields[1..], i - 1, depth);
    }
  }

  lemma {:induction false} FieldsAreCanonical(fields: seq<Field>, depth: nat)
    requires forall i :: 0 <= i < |fields| ==> IsCanonical(fields[i].key, depth) && IsCanonical(fields[i].val, depth)
    ensures AreCanonicalFields(fields, depth)
  {
    hide IsCanonical;
    if fields != [] {
      forall i | 0 <= i < |fields[1..]|
        ensures IsCanonical(fields[1..][i].key, depth) && IsCanonical(fields[1..][i].val, depth)
      {
        assert fields[1..][i] == fields[i + 1];
      }
      FieldsAreCanonical(fields[1..], depth);
    }
  }

  lemma FieldsOfSameEntries(a: seq<Field>, b: seq<Field>, depth: nat)
    requires AreCanonicalFields(a, depth) && multiset(a) == multiset(b)
    ensures AreCanonicalFields(b, depth)
  {
    hide IsCanonical, AreCanonicalFields;
    forall i | 0 <= i < |b|
      ensures IsCanonical(b[i].key, depth) && IsCanonical(b[i].val, depth)
    {
      assert b[i] in multiset(a);
      var j :| 0 <= j < |a| && a[j] == b[i];
      FieldIsCanonical(a, j, depth);
    }
    FieldsAreCanonical(b, depth);
  }

  /** Any canonical reordering of `v` is the one that is computed. */
  lemma {:induction false} CanonicalComplete(v: Value, c: Value, depth: nat)
    requires IsCanonical(c, depth) && Reordered(v, c)
    ensures Canonical(v, depth) == Ok(c)
    decreases v, 1
  {
    hide LexLt, Write, Sort, NoNeighbourTwins, Ascending, CanonicalFields, CanonicalItems,
      AreCanonical, AreCanonicalFields, ReorderedItems, ReorderedFields;
    match v {
      case Map(fields) =>
        var mid :| ReorderedFields(fields, mid) && multiset(mid) == multiset(c.fields);
        FieldsOfSameEntries(c.fields, mid, depth + 1);
        CanonicalFieldsComplete(fields, mid, depth + 1);
        SortSorts(mid);
        AscendingIsWeak(c.fields);
        TwinFree(mid, c.fields);
        NeighboursSuffice(Sort(mid));
        AscendingUnique(Sort(mid), c.fields);
      case Array(items) =>
        CanonicalItemsComplete(items, c.items, depth + 1);
      case _ =>
    }
  }

  lemma AscendingIsWeak(fields: seq<Field>)
    requires Ascending(fields)
    ensures WeaklyAscending(fields)
  {
    hide LexLt, Write;
    forall i, j | 0 <= i < j < |fields|
      ensures !LexLt(Write(fields[j].key), Write(fields[i].key))
    {
      LexAsymmetric(Write(fields[i].key), Write(fields[j].key));
    }
  }

  /** If the entries of `mid` can be arranged strictly ascending, sorting them leaves no twins. */
  lemma TwinFree(mid: seq<Field>, c: seq<Field>)
    requires multiset(mid) == multiset(c) && Ascending(c)
    ensures NoNeighbourTwins(Sort(mid))
  {
    hide LexLt, Write, Sort;
    SortSorts(mid);
    var s := Sort(mid);
    forall i | 0 <= i < |s| - 1
      ensures Write(s[i].key) != Write(s[i + 1].key)
    {
      if Write(s[i].key) == Write(s[i + 1].key) {
        assert s[i] in multiset(c) && s[i + 1] in multiset(c);
        var p :| 0 <= p < |c| && c[p] == s[i];
        var q :| 0 <= q < |c| && c[q] == s[i + 1];
        LexIrreflexive(Write(s[i].key));
        assert p == q;
        TwoOccurrences(s, i);
        OneOccurrence(c, p);
      }
    }
  }

  lemma TwoOccurrences(s: seq<Field>, i: nat)
    requires i + 1 < |s| && s[i] == s[i + 1]
    ensures multiset(s)[s[i]] >= 2
  {
    assert s == s[..i] + [s[i], s[i + 1]] + s[i + 2..];
  }

  lemma OneOccurrence(c: seq<Field>, p: nat)
    requires p < |c| && Ascending(c)
    ensures multiset(c)[c[p]] == 1
  {
    hide LexLt, Write;
    assert c == c[..p] + [c[p]] + c[p + 1..];
    if c[p] in c[..p] {
      var k :| 0 <= k < p && c[k] == c[p];
      LexIrreflexive(Write(c[p].key));
    }
    if c[p] in c[p + 1..] {
      var k :| p < k < |c| && c[k] == c[p];
      LexIrreflexive(Write(c[p].key));
    }
  }

  lemma {:induction false} CanonicalItemsComplete(items: seq<Value>, cs: seq<Value>, depth: nat)
    requires AreCanonical(cs, depth) && ReorderedItems(items, cs)
    ensures CanonicalItems(items, depth) == Ok(cs)
    decreases items, 0
  {
    hide Canonical, IsCanonical, Reordered;
    if items != [] {
      CanonicalComplete(items[0], cs[0], depth);
      CanonicalItemsComplete(items[1..], cs[1..], depth);
      assert cs == [cs[0]] + cs[1..];
    }
  }

  lemma {:induction false} CanonicalFieldsComplete(fields: seq<Field>, cs: seq<Field>, depth: nat)
    requires AreCanonicalFields(cs, depth) && ReorderedFields(fields, cs)
    ensures CanonicalFields(fields, depth) == Ok(cs)
    decreases fields, 0
  {
    hide Canonical, IsCanonical, Reordered;
    if fields != [] {
      assert fields[0].key < fields[0] && fields[0].val < fields[0];
      CanonicalComplete(fields[0].key, cs[0].key, depth);
      CanonicalComplete(fields[0].val, cs[0].val, depth);
      CanonicalFieldsComplete(fields[1..], cs[1..], depth);
      assert cs == [cs[0]] + cs[1..];
    }
  }

  /** `canonical` succeeds with `c` exactly when `c` is a canonical reordering of `v`; so there is at
      most one, and a value that has one is never refused. */
  lemma CanonicalExactly(v: Value, c: Value, depth: nat)
    ensures Canonical(v, depth) == Ok(c) <==> IsCanonical(c, depth) && Reordered(v, c)
  {
    hide Canonical, IsCanonical, Reordered;
    if Canonical(v, depth) == Ok(c) {
      CanonicalSound(v, depth);
    }
    if IsCanonical(c, depth) && Reordered(v, c) {
      CanonicalComplete(v, c, depth);
    }
  }

  lemma {:induction false} ReorderedReflexive(v: Value)
    ensures Reordered(v, v)
    decreases v, 1
  {
    match v {
      case Map(fields) => ReorderedFieldsReflexive(fields);
      case Array(items) => ReorderedItemsReflexive(items);
      case _ =>
    }
  }

  lemma {:induction false} ReorderedItemsReflexive(items: seq<Value>)
    ensures ReorderedItems(items, items)
    decreases items, 0
  {
    hide Reordered;
    if items != [] {
      ReorderedReflexive(items[0]);
      ReorderedItemsReflexive(items[1..]);
    }
  }

  lemma {:induction false} ReorderedFieldsReflexive(fields: seq<Field>)
    ensures ReorderedFields(fields, fields)
    decreases fields, 0
  {
    hide Reordered;
    if fields != [] {
      assert fields[0].key < fields[0] && fields[0].val < fields[0];
      ReorderedReflexive(fields[0].key);
      ReorderedReflexive(fields[0].val);
      ReorderedFieldsReflexive(fields[1..]);
    }
  }

  /** Canonicalising again changes nothing. */
  lemma CanonicalIdempotent(v: Value, depth: nat)
    requires Canonical(v, depth).Ok?
    ensures Canonical(Canonical(v, depth).value, depth) == Canonical(v, depth)
  {
    hide Canonical, IsCanonical, Reordered;
    var c := Canonical(v, depth).value;
    CanonicalSound(v, depth);
    ReorderedReflexive(c);
    CanonicalComplete(c, c, depth);
  }

  lemma CanonicalFixed(c: Value)
    requires IsCanonical(c, 0)
    ensures Canonical(c, 0) == Ok(c)
  {
    hide Canonical, IsCanonical, Reordered;
    ReorderedReflexive(c);
    CanonicalComplete(c, c, 0);
  }

  // ----- canonical values keep the invariants of the value type

  lemma {:induction false} CanonicalKeepsValid(v: Value, depth: nat)
    requires Valid(v) && Canonical(v, depth).Ok?
    ensures Valid(Canonical(v, depth).value) && Untagged(Canonical(v, depth).value)
    decreases v, 1
  {
    hide LexLt, Write, Sort, NoNeighbourTwins, AllValid, AllFieldsValid, UntaggedItems, UntaggedFields;
    match v {
      case Map(fields) =>
        CanonicalFieldsKeepValid(fields, depth + 1);
        var mid := CanonicalFields(fields, depth + 1).value;
        SortSorts(mid);
        assert |Sort(mid)| == |multiset(Sort(mid))| == |multiset(mid)| == |mid|;
        ValidFieldsOfSameEntries(mid, Sort(mid));
      case Array(items) =>
        CanonicalItemsKeepValid(items, depth + 1);
      case _ =>
    }
  }

  lemma {:induction false} CanonicalItemsKeepValid(items: seq<Value>, depth: nat)
    requires AllValid(items) && CanonicalItems(items, depth).Ok?
    ensures var cs := CanonicalItems(items, depth).value; AllValid(cs) && UntaggedItems(cs)
    decreases items, 0
  {
    hide Canonical, Valid, Untagged;
    if items != [] {
      CanonicalKeepsValid(items[0], depth);
      CanonicalItemsKeepValid(items[1..], depth);
      assert CanonicalItems(items, depth).value[1..] == CanonicalItems(items[1..], depth).value;
    }
  }

  lemma {:induction false} CanonicalFieldsKeepValid(fields: seq<Field>, depth: nat)
    requires AllFieldsValid(fields) && CanonicalFields(fields, depth).Ok?
    ensures var cs := CanonicalFields(fields, depth).value; AllFieldsValid(cs) && UntaggedFields(cs)
    decreases fields, 0
  {
    hide Canonical, Valid, Untagged;
    if fields != [] {
      assert fields[0].key < fields[0] && fields[0].val < fields[0];
      CanonicalKeepsValid(fields[0].key, depth);
      CanonicalKeepsValid(fields[0].val, depth);
      CanonicalFieldsKeepValid(fields[1..], depth);
      assert CanonicalFields(fields, depth).value[1..] == CanonicalFields(fields[1..], depth).value;
    }
  }

  predicate GoodField(f: Field) {
    Valid(f.key) && Valid(f.val) && Untagged(f.key) && Untagged(f.val)
  }

  lemma {:induction false} FieldsGood(fields: seq<Field>)
    ensures AllFieldsValid(fields) && UntaggedFields(fields) <==> forall i :: 0 <= i < |fields| ==> GoodField(fields[i])
  {
    hide Valid, Untagged;
    if fields != [] {
      FieldsGood(fields[1..]);
      assert forall i :: 1 <= i < |fields| ==> fields[i] == fields[1..][i - 1];
      if forall i :: 0 <= i < |fields[1..]| ==> GoodField(fields[1..][i]) {
        assert forall i :: 1 <= i < |fields| ==> GoodField(fields[i]);
      } else {
        var i :| 0 <= i < |fields[1..]| && !GoodField(fields[1..][i]);
        assert !GoodField(fields[i + 1]);
      }
    }
  }

  lemma ValidFieldsOfSameEntries(a: seq<Field>, b: seq<Field>)
    requires AllFieldsValid(a) && UntaggedFields(a) && multiset(a) == multiset(b)
    ensures AllFieldsValid(b) && UntaggedFields(b)
  {
    hide Valid, Untagged, AllFieldsValid, UntaggedFields, GoodField;
    FieldsGood(a);
    FieldsGood(b);
    forall i | 0 <= i < |b|
      ensures GoodField(b[i])
    {
      assert b[i] in multiset(a);
    }
  }

  // ----- written values are items of the grammar

  /** Number of values in the tree, `v` itself included. */
  function Nodes(v: Value): nat
    decreases v, 1
  {
    match v
    case Array(items) => 1 + NodesIn(items)
    case Map(fields) => 1 + NodesInFields(fields)
    case Tag(_, inner) => 1 + Nodes(inner)
    case _ => 1
  }

  function NodesIn(items: seq<Value>): nat
    decreases items, 0
  {
    if items == [] then 0 else Nodes(items[0]) + NodesIn(items[1..])
  }

  function NodesInFields(fields: seq<Field>): nat
    decreases fields, 0
  {
    if fields == [] then 0
    else
      assert fields[0].key < fields[0] && fields[0].val < fields[0];
      Nodes(fields[0].key) + Nodes(fields[0].val) + NodesInFields(fields[1..])
  }

  lemma HeadIsHead(major: nat, n: nat)
    requires major < 8 && n < WORD
    ensures ReadHead(Head(major, n)).Some?
    ensures var h := ReadHead(Head(major, n)).value; h.major == major && h.argument == n && h.rest == []
  {
    hide ReadHead, Head;
    HeadReadBack(major, n, []);
    assert Head(major, n) + [] == Head(major, n);
  }

  lemma LeafIsItem(v: Value) returns (t: Item)
    requires Valid(v) && !v.Array? && !v.Map? && !v.Tag?
    ensures WellFormed(t) && Flatten(t) == Write(v) && Height(t) == 0 && Size(t) == 1
  {
    hide ReadHead, Head, WriteFloat, Utf8;
    match v {
      case Int(n) =>
        t := Leaf(Write(v));
        HeadIsHead(if n >= 0 then 0 else 1, if n >= 0 then n else -1 - n);
      case Bstr(b) =>
        HeadIsHead(2, |b|);
        t := Str(Head(2, |b|), b);
      case Text(b) =>
        HeadIsHead(3, |b|);
        t := Str(Head(3, |b|), b);
      case Bool(b) =>
        SimpleIsHead(if b then 0xF5 else 0xF4);
        t := Leaf(Write(v));
      case Null =>
        SimpleIsHead(0xF6);
        t := Leaf(Write(v));
      case Num(f) =>
        FloatIsHead(f);
        t := Leaf(WriteFloat(f));
    }
  }

  lemma SimpleIsHead(b: Byte)
    requires 0xF4 <= b <= 0xF6
    ensures ReadHead([b]) == Some(Header(7, b - 0xE0, b - 0xE0, []))
  {
    assert [b][1..] == [];
  }

  lemma FloatIsHead(f: Float)
    requires f.Valid()
    ensures ReadHead(WriteFloat(f)).Some?
    ensures var h := ReadHead(WriteFloat(f)).value; h.major == 7 && h.rest == [] && AcceptedSimple(h.info)
  {
    hide ReadHead;
    Widths();
    match f {
      case Half(h) => WideReadBack(7, 25, 2, h, []);
      case Single(b) => WideReadBack(7, 26, 4, b, []);
      case Double(d) => WideReadBack(7, 27, 8, d, []);
    }
    assert WriteFloat(f) + [] == WriteFloat(f);
  }

  lemma {:induction false} WrittenIsItem(v: Value, depth: nat) returns (t: Item)
    requires Valid(v) && IsCanonical(v, depth)
    ensures WellFormed(t) && Flatten(t) == Write(v)
    ensures depth + Height(t) <= MAX_DEPTH && Size(t) == Nodes(v)
    decreases v, 1
  {
    hide ReadHead, Head, LexLt, AllWellFormed, FlattenAll, HeightAll, SizeAll, Ascending,
      AreCanonical, AreCanonicalFields, AllValid, AllFieldsValid;
    match v {
      case Array(items) =>
        HeadIsHead(4, |items|);
        var ts := WrittenItems(items, depth + 1);
        t := Container(Head(4, |items|), ts);
      case Map(fields) =>
        HeadIsHead(5, |fields|);
        var ts := WrittenFields(fields, depth + 1);
        t := Container(Head(5, |fields|), ts);
      case _ =>
        t := LeafIsItem(v);
    }
  }

  lemma {:induction false} WrittenItems(items: seq<Value>, depth: nat) returns (ts: seq<Item>)
    requires AllValid(items) && AreCanonical(items, depth)
    ensures |ts| == |items| && AllWellFormed(ts) && FlattenAll(ts) == WriteItems(items)
    ensures (ts != [] ==> depth + HeightAll(ts) <= MAX_DEPTH) && SizeAll(ts) == NodesIn(items)
    decreases items, 0
  {
    hide Write, WellFormed, Flatten, Height, Size, Valid, Nodes;
    if items == [] {
      ts := [];
    } else {
      var t := WrittenIsItem(items[0], depth);
      var more := WrittenItems(items[1..], depth);
      ConsAll(t, more);
      ts := [t] + more;
      assert more == [] ==> HeightAll(more) == 0;
    }
  }

  lemma {:induction false} WrittenFields(fields: seq<Field>, depth: nat) returns (ts: seq<Item>)
    requires AllFieldsValid(fields) && AreCanonicalFields(fields, depth)
    ensures |ts| == 2 * |fields| && AllWellFormed(ts) && FlattenAll(ts) == WriteFields(fields)
    ensures (ts != [] ==> depth + HeightAll(ts) <= MAX_DEPTH) && SizeAll(ts) == NodesInFields(fields)
    decreases fields, 0
  {
    hide Write, WellFormed, Flatten, Height, Size, Valid, Nodes;
    if fields == [] {
      ts := [];
    } else {
      assert fields[0].key < fields[0] && fields[0].val < fields[0];
      var k := WrittenIsItem(fields[0].key, depth);
      var x := WrittenIsItem(fields[0].val, depth);
      var more := WrittenFields(fields[1..], depth);
      ConsAll(x, more);
      ConsAll(k, [x] + more);
      ts := [k] + ([x] + more);
      assert more == [] ==> HeightAll(more) == 0;
      assert Flatten(k) + (Flatten(x) + FlattenAll(more)) == Flatten(k) + Flatten(x) + FlattenAll(more);
    }
  }

  lemma {:induction false} SizeWithinLength(t: Item)
    requires WellFormed(t)
    ensures Size(t) <= |Flatten(t)|
    decreases t, 1
  {
    if t.Container? {
      SizesWithinLength(t.children);
    }
  }

  lemma {:induction false} SizesWithinLength(ts: seq<Item>)
    requires AllWellFormed(ts)
    ensures SizeAll(ts) <= |FlattenAll(ts)|
    decreases ts, 0
  {
    hide WellFormed, Flatten, Size;
    if ts != [] {
      SizeWithinLength(ts[0]);
      SizesWithinLength(ts[1..]);
    }
  }

  /** Two items with the same bytes have the same number of items in them. */
  lemma SizeIsUnique(t: Item, u: Item)
    requires WellFormed(t) && WellFormed(u) && Flatten(t) == Flatten(u) && |Flatten(t)| < WORD
    requires Height(t) <= MAX_DEPTH && Height(u) <= MAX_DEPTH
    ensures Size(t) == Size(u)
  {
    hide Walk, WellFormed, Flatten, Height, Size;
    SizeWithinLength(t);
    SizeWithinLength(u);
    WalkComplete(t, [], 0, |Flatten(t)|);
    WalkComplete(u, [], 0, |Flatten(t)|);
  }

  /** Preflight lets a canonical encoding through exactly when it has few enough values. */
  lemma WrittenAccepted(v: Value)
    requires Valid(v) && IsCanonical(v, 0) && |Write(v)| < WORD
    ensures Accepts(Write(v)) <==> Nodes(v) <= MAX_ITEMS
  {
    hide Walk, WellFormed, Flatten, Height, Size, IsCanonical, Write, Valid, Nodes, Accepts;
    var t := WrittenIsItem(v, 0);
    AcceptsExactly(Write(v));
    if Accepts(Write(v)) {
      var u: Item :| WellFormed(u) && Flatten(u) == Write(v) && Height(u) <= MAX_DEPTH && Size(u) <= MAX_ITEMS;
      SizeIsUnique(t, u);
    }
  }

  // ----- the codec

  function Encode(v: Value): Result<seq<Byte>> {
    var c :- Canonical(v, 0);
    var out := Write(c);
    if |out| > MAX_RECORD then Err(InvalidData)
    else if Verdict(out).Fail? then Err(Verdict(out).error)
    else Ok(out)
  }

  function Decode(input: seq<Byte>): Result<Value> {
    if |input| > MAX_RECORD then Err(InvalidData)
    else if Verdict(input).Fail? then Err(Verdict(input).error)
    else
      match Parse(input, RECURSION_LIMIT)
      case None => Err(CborError)
      case Some((value, _)) =>
        var again :- Encode(value);
        if again == input then Ok(value) else Err(InvalidData)
  }

  /** Encoding succeeds exactly on values with a canonical form of bounded length and count. */
  lemma EncodeSucceedsExactly(v: Value)
    requires Valid(v)
    ensures Encode(v).Ok? <==>
            && Canonical(v, 0).Ok?
            && |Write(Canonical(v, 0).value)| <= MAX_RECORD
            && Nodes(Canonical(v, 0).value) <= MAX_ITEMS
    ensures Encode(v).Ok? ==> Encode(v).value == Write(Canonical(v, 0).value)
  {
    hide Canonical, Write, Walk, Valid, Nodes, IsCanonical, Verdict;
    if Canonical(v, 0).Ok? {
      CanonicalSound(v, 0);
      CanonicalKeepsValid(v, 0);
      if |Write(Canonical(v, 0).value)| <= MAX_RECORD {
        WrittenAccepted(Canonical(v, 0).value);
      }
    }
  }

  lemma {:induction false} ParseMoreDepth(b: seq<Byte>, low: nat, high: nat)
    requires low <= high && Parse(b, low).Some?
    ensures Parse(b, high) == Parse(b, low)
    decreases |b|, 0
  {
    hide ReadHead, ParseLeaf;
    var h := ReadHead(b).value;
    if h.major == 4 {
      ParseItemsMoreDepth(h.rest, h.argument, low - 1, high - 1);
    } else if h.major == 5 {
      ParseFieldsMoreDepth(h.rest, h.argument, low - 1, high - 1);
    }
  }

  lemma {:induction false} ParseItemsMoreDepth(b: seq<Byte>, n: nat, low: nat, high: nat)
    requires low <= high && ParseItems(b, n, low).Some?
    ensures ParseItems(b, n, high) == ParseItems(b, n, low)
    decreases |b|, n + 1
  {
    hide Parse;
    if n > 0 {
      ParseMoreDepth(b, low, high);
      ParseItemsMoreDepth(Parse(b, low).value.1, n - 1, low, high);
    }
  }

  lemma {:induction false} ParseFieldsMoreDepth(b: seq<Byte>, n: nat, low: nat, high: nat)
    requires low <= high && ParseFields(b, n, low).Some?
    ensures ParseFields(b, n, high) == ParseFields(b, n, low)
    decreases |b|, n + 1
  {
    hide Parse;
    if n > 0 {
      ParseMoreDepth(b, low, high);
      var b1 := Parse(b, low).value.1;
      ParseMoreDepth(b1, low, high);
      ParseFieldsMoreDepth(Parse(b1, low).value.1, n - 1, low, high);
    }
  }

  /** Whatever decodes is in canonical form and encodes to the very bytes it came from. */
  lemma DecodedIsCanonical(b: seq<Byte>)
    requires Decode(b).Ok?
    ensures var v := Decode(b).value;
            Valid(v) && IsCanonical(v, 0) && Nesting(v) <= RECURSION_LIMIT && Encode(v) == Ok(b) && Write(v) == b
  {
    hide Canonical, Write, Walk, Valid, IsCanonical, Parse, Verdict, Nesting, Untagged;
    var v := Decode(b).value;
    ParsedIsValid(b, RECURSION_LIMIT);
    var c := Canonical(v, 0).value;
    CanonicalSound(v, 0);
    CanonicalKeepsValid(v, 0);
    var deep := Max(Nesting(c), RECURSION_LIMIT);
    ParseMoreDepth(b, RECURSION_LIMIT, deep);
    ParseWrite(c, [], deep);
    assert Write(c) + [] == b;
  }

  /** What was encoded decodes to its canonical form, unless containers nest past the recursion
      limit of the reader. */
  lemma RoundTrip(v: Value)
    requires Valid(v) && Encode(v).Ok?
    ensures var c := Canonical(v, 0).value;
            && IsCanonical(c, 0) && Reordered(v, c)
            && (Nesting(c) <= RECURSION_LIMIT ==> Decode(Encode(v).value) == Ok(c))
            && (Nesting(c) > RECURSION_LIMIT ==> Decode(Encode(v).value).Err?)
  {
    hide Canonical, Write, Walk, Valid, IsCanonical, Parse, Verdict, Nesting, Untagged, Reordered;
    var c := Canonical(v, 0).value;
    var b := Encode(v).value;
    CanonicalSound(v, 0);
    CanonicalKeepsValid(v, 0);
    CanonicalFixed(c);
    assert Write(c) + [] == b;
    if Nesting(c) <= RECURSION_LIMIT {
      ParseWrite(c, [], RECURSION_LIMIT);
    } else if Decode(b).Ok? {
      DecodedIsCanonical(b);
      var w := Decode(b).value;
      assert Write(w) + [] == Write(c) + [];
      ParsedIsValid(b, RECURSION_LIMIT);
      PrefixFree(w, c, [], []);
    }
  }

  /** An empty array inside `k` others. */
  function Nested(k: nat): Value { if k == 0 then Array([]) else Array([Nested(k - 1)]) }

  lemma {:induction false} NestedFacts(k: nat, depth: nat)
    requires depth + k <= MAX_DEPTH
    ensures Valid(Nested(k)) && IsCanonical(Nested(k), depth) && Nesting(Nested(k)) == k + 1
    ensures Nodes(Nested(k)) == k + 1 && |Write(Nested(k))| == k + 1
  {
    hide Valid, IsCanonical, Nesting, Nodes, Write;
    if k > 0 {
      NestedFacts(k - 1, depth + 1);
      Wrapped(Nested(k - 1), depth);
    } else {
      Innermost(depth);
    }
  }

  lemma Innermost(depth: nat)
    requires depth <= MAX_DEPTH
    ensures var a := Array([]);
            Valid(a) && IsCanonical(a, depth) && Nesting(a) == 1 && Nodes(a) == 1 && |Write(a)| == 1
  {
  }

  /** What one more array around a value adds. */
  lemma Wrapped(v: Value, depth: nat)
    ensures var a := Array([v]);
            && (Valid(v) ==> Valid(a)) && (depth <= MAX_DEPTH && IsCanonical(v, depth + 1) ==> IsCanonical(a, depth))
            && Nesting(a) == 1 + Nesting(v) && Nodes(a) == 1 + Nodes(v) && |Write(a)| == 1 + |Write(v)|
  {
    var items := [v];
    assert items[0] == v && items[1..] == [];
    assert NestingItems(items[1..]) == 0 && NodesIn(items[1..]) == 0 && WriteItems(items[1..]) == [];
    assert NestingItems(items) == Nesting(v) && NodesIn(items) == Nodes(v);
  }

  /** The encoder goes one level deeper than the reader: 33 nested arrays have an encoding that does not decode. */
  lemma DeepValueIsLost()
    ensures var v := Nested(32); Valid(v) && Encode(v).Ok? && Decode(Encode(v).value).Err?
  {
    hide Nested, Canonical, Write, Valid, IsCanonical, Nesting, Nodes, Encode, Decode;
    NestedFacts(32, 0);
    CanonicalFixed(Nested(32));
    EncodeSucceedsExactly(Nested(32));
    RoundTrip(Nested(32));
  }

  /** The decoder accepts exactly the encodings of shallow canonical values. */
  lemma DecodeAcceptsExactly(b: seq<Byte>, v: Value)
    ensures Decode(b) == Ok(v) <==>
            Valid(v) && IsCanonical(v, 0) && Nesting(v) <= RECURSION_LIMIT && Encode(v) == Ok(b)
  {
    hide Canonical, Write, Walk, Valid, IsCanonical, Parse, Verdict, Nesting, Decode, Encode;
    if Decode(b) == Ok(v) {
      DecodedIsCanonical(b);
    }
    if Valid(v) && IsCanonical(v, 0) && Nesting(v) <= RECURSION_LIMIT && Encode(v) == Ok(b) {
      RoundTrip(v);
      CanonicalFixed(v);
    }
  }

  /** Two values have the same encoding exactly when they have the same canonical form. */
  lemma EncodesAlikeExactly(v: Value, w: Value)
    requires Valid(v) && Valid(w) && Encode(v).Ok? && Encode(w).Ok?
    ensures Encode(v) == Encode(w) <==> Canonical(v, 0) == Canonical(w, 0)
  {
    hide Canonical, Write, Walk, Valid, IsCanonical, Parse, Verdict, Nesting, Untagged;
    CanonicalKeepsValid(v, 0);
    CanonicalKeepsValid(w, 0);
    if Encode(v) == Encode(w) {
      PrefixFree(Canonical(v, 0).value, Canonical(w, 0).value, [], []);
    }
  }
}
