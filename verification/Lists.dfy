/** Arrays and keyed catalogs inside bodies: element-wise parsing and printing. */
module Lists {
  import opened Bytes
  import opened Results
  import opened CborValue
  import opened CborCodec
  import opened Fields

  lemma Uncons<T>(s: seq<T>)
    requires s != []
    ensures s == [s[0]] + s[1..] && s[0] in s
    ensures forall x :: x in s[1..] ==> x in s
  {
  }

  lemma Pushed<T>(x: T, rest: seq<T>)
    ensures ([x] + rest)[0] == x && ([x] + rest)[1..] == rest
  {
  }

  // ----- arrays

  /** `iter().map(f).collect::<Result<_>>()`. */
  function ParseAll<T>(items: seq<Value>, f: Value -> Result<T>): (r: Result<seq<T>>)
    ensures r.Ok? ==> |r.value| == |items|
  {
    if items == [] then Ok([])
    else
      var x :- f(items[0]);
      var xs :- ParseAll(items[1..], f);
      Ok([x] + xs)
  }

  function PrintAll<T>(xs: seq<T>, g: T -> Value): (r: seq<Value>)
    ensures |r| == |xs|
  {
    if xs == [] then [] else [g(xs[0])] + PrintAll(xs[1..], g)
  }

  lemma {:induction false} ParsePrinted<T>(xs: seq<T>, f: Value -> Result<T>, g: T -> Value)
    requires forall x :: x in xs ==> f(g(x)) == Ok(x)
    ensures ParseAll(PrintAll(xs, g), f) == Ok(xs)
  {
    if xs != [] {
      Uncons(xs);
      ParsePrinted(xs[1..], f, g);
      Pushed(g(xs[0]), PrintAll(xs[1..], g));
    }
  }

  lemma {:induction false} PrintParsed<T>(items: seq<Value>, f: Value -> Result<T>, g: T -> Value)
    requires ParseAll(items, f).Ok?
    requires forall v :: v in items && f(v).Ok? ==> g(f(v).value) == v
    ensures PrintAll(ParseAll(items, f).value, g) == items
  {
    if items != [] {
      Uncons(items);
      PrintParsed(items[1..], f, g);
      Pushed(f(items[0]).value, ParseAll(items[1..], f).value);
    }
  }

  lemma {:induction false} ParsedAll<T>(items: seq<Value>, f: Value -> Result<T>, i: nat)
    requires ParseAll(items, f).Ok? && i < |items|
    ensures f(items[i]) == Ok(ParseAll(items, f).value[i])
  {
    if i > 0 {
      ParsedAll(items[1..], f, i - 1);
    }
  }

  lemma {:induction false} PrintedTidy<T>(xs: seq<T>, g: T -> Value)
    requires forall x :: x in xs ==> Tidy(g(x))
    ensures TidyItems(PrintAll(xs, g))
  {
    if xs != [] {
      Uncons(xs);
      PrintedTidy(xs[1..], g);
      Pushed(g(xs[0]), PrintAll(xs[1..], g));
    }
  }

  lemma {:induction false} TidyItem(items: seq<Value>, i: nat)
    requires TidyItems(items) && i < |items|
    ensures Tidy(items[i])
  {
    if i > 0 {
      TidyItem(items[1..], i - 1);
    }
  }

  lemma {:induction false} TidyField(fields: seq<Field>, i: nat)
    requires TidyFields(fields) && i < |fields|
    ensures Tidy(fields[i].key) && Tidy(fields[i].val)
  {
    if i > 0 {
      TidyField(fields[1..], i - 1);
    }
  }

  // ----- catalogs: maps with keys of one kind

  datatype Pair<K, V> = Pair(key: K, val: V)

  /** How a kind of key is written, read and ordered. */
  datatype Keys<!K> = Keys(lt: (K, K) -> bool, enc: K -> Value, dec: Value -> Result<K>)

  /** The order of the keys is the order of their encodings, and written keys are read back. */
  ghost predicate Orderly<K(!new)>(keys: Keys<K>) {
    && (forall a, b :: keys.lt(a, b) <==> LexLt(Write(keys.enc(a)), Write(keys.enc(b))))
    && (forall a, b :: keys.lt(a, b) ==> a != b && !keys.lt(b, a))
    && (forall v :: keys.dec(v).Ok? ==> keys.enc(keys.dec(v).value) == v)
    && (forall k :: Tidy(keys.enc(k)))
  }

  /** `BTreeMap<K, V>` as its entries in key order. */
  predicate Catalog<K, V>(s: seq<Pair<K, V>>, keys: Keys<K>) {
    forall i, j :: 0 <= i < j < |s| ==> keys.lt(s[i].key, s[j].key)
  }

  /** `BTreeMap::insert`. */
  function InsertPair<K(==), V>(s: seq<Pair<K, V>>, k: K, v: V, keys: Keys<K>): seq<Pair<K, V>> {
    if s == [] || keys.lt(k, s[0].key) then [Pair(k, v)] + s
    else if k == s[0].key then [Pair(k, v)] + s[1..]
    else [s[0]] + InsertPair(s[1..], k, v, keys)
  }

  lemma {:induction false} InsertPairLast<K(!new), V>(s: seq<Pair<K, V>>, k: K, v: V, keys: Keys<K>)
    requires Orderly(keys) && forall i :: 0 <= i < |s| ==> keys.lt(s[i].key, k)
    ensures InsertPair(s, k, v, keys) == s + [Pair(k, v)]
  {
    if s != [] {
      assert forall i :: 0 <= i < |s[1..]| ==> s[1..][i] == s[i + 1];
      InsertPairLast(s[1..], k, v, keys);
    }
  }

  /** Reads the entries of a map into a catalog; `f` reads a value. */
  function ParsePairs<K(==), V>(fields: seq<Field>, keys: Keys<K>, f: Value -> Result<V>, got: seq<Pair<K, V>>)
    : Result<seq<Pair<K, V>>>
  {
    if fields == [] then Ok(got)
    else
      var k :- keys.dec(fields[0].key);
      var v :- f(fields[0].val);
      ParsePairs(fields[1..], keys, f, InsertPair(got, k, v, keys))
  }

  function PrintPairs<K, V>(s: seq<Pair<K, V>>, keys: Keys<K>, p: V -> Value): (r: seq<Field>)
    ensures |r| == |s|
  {
    if s == [] then [] else [Field(keys.enc(s[0].key), p(s[0].val))] + PrintPairs(s[1..], keys, p)
  }

  lemma {:induction false} ParsePrintedPairs<K(!new), V>(s: seq<Pair<K, V>>, keys: Keys<K>, f: Value -> Result<V>,
                                                         p: V -> Value, got: seq<Pair<K, V>>)
    requires Orderly(keys) && Catalog(got + s, keys)
    requires forall e :: e in s ==> keys.dec(keys.enc(e.key)) == Ok(e.key) && f(p(e.val)) == Ok(e.val)
    ensures ParsePairs(PrintPairs(s, keys, p), keys, f, got) == Ok(got + s)
    decreases |s|
  {
    hide LexLt, Write, Tidy;
    if s == [] {
      assert got + s == got;
    } else {
      var e := s[0];
      assert e in s && forall x :: x in s[1..] ==> x in s;
      forall i | 0 <= i < |got|
        ensures keys.lt(got[i].key, e.key)
      {
        assert (got + s)[i] == got[i] && (got + s)[|got|] == e;
      }
      InsertPairLast(got, e.key, e.val, keys);
      assert (got + [e]) + s[1..] == got + s;
      ParsePrintedPairs(s[1..], keys, f, p, got + [e]);
      assert PrintPairs(s, keys, p)[1..] == PrintPairs(s[1..], keys, p);
    }
  }

  /** Entries of a tidy map come back in the order they stand. */
  lemma {:induction false} PrintParsedPairs<K(!new), V>(fields: seq<Field>, keys: Keys<K>, f: Value -> Result<V>,
                                                        p: V -> Value, got: seq<Pair<K, V>>)
    requires ParsePairs(fields, keys, f, got).Ok? && Ascending(fields) && Orderly(keys)
    requires forall x :: x in fields && f(x.val).Ok? ==> p(f(x.val).value) == x.val
    requires forall e, x :: e in got && x in fields ==> LexLt(Write(keys.enc(e.key)), Write(x.key))
    ensures |ParsePairs(fields, keys, f, got).value| == |got| + |fields|
    ensures ParsePairs(fields, keys, f, got).value[..|got|] == got
    ensures PrintPairs(ParsePairs(fields, keys, f, got).value[|got|..], keys, p) == fields
    decreases |fields|
  {
    hide LexLt, Write, Tidy;
    if fields != [] {
      var x := fields[0];
      assert x in fields;
      var k, v := keys.dec(x.key).value, f(x.val).value;
      forall i | 0 <= i < |got|
        ensures keys.lt(got[i].key, k)
      {
        assert got[i] in got;
      }
      InsertPairLast(got, k, v, keys);
      var more := got + [Pair(k, v)];
      ParseStep(fields, keys, f, got, more);
      RestInOrder(fields, keys, got, k, v);
      PrintParsedPairs(fields[1..], keys, f, p, more);
      Resume(ParsePairs(fields, keys, f, got).value, got, Pair(k, v), keys, p);
      assert fields == [x] + fields[1..];
    }
  }

  lemma RestInOrder<K(!new), V>(fields: seq<Field>, keys: Keys<K>, got: seq<Pair<K, V>>, k: K, v: V)
    requires Ascending(fields) && fields != [] && fields[0].key == keys.enc(k)
    requires forall e, x :: e in got && x in fields ==> LexLt(Write(keys.enc(e.key)), Write(x.key))
    ensures Ascending(fields[1..]) && forall x :: x in fields[1..] ==> x in fields
    ensures forall e, x :: e in got + [Pair(k, v)] && x in fields[1..] ==> LexLt(Write(keys.enc(e.key)), Write(x.key))
  {
    hide LexLt, Write;
    var rest := fields[1..];
    forall x | x in rest
      ensures x in fields && LexLt(Write(fields[0].key), Write(x.key))
    {
      var i :| 0 <= i < |rest| && rest[i] == x;
      assert fields[i + 1] == x;
    }
  }

  lemma Resume<K, V>(out: seq<Pair<K, V>>, got: seq<Pair<K, V>>, e: Pair<K, V>, keys: Keys<K>, p: V -> Value)
    requires |got| + 1 <= |out| && out[..|got| + 1] == got + [e]
    ensures out[..|got|] == got
    ensures PrintPairs(out[|got|..], keys, p) == [Field(keys.enc(e.key), p(e.val))] + PrintPairs(out[|got| + 1..], keys, p)
  {
    assert out[..|got| + 1][|got|] == e && out[..|got| + 1][..|got|] == got;
    assert out[|got|..] == [e] + out[|got| + 1..];
  }

  lemma ParseStep<K, V>(fields: seq<Field>, keys: Keys<K>, f: Value -> Result<V>, got: seq<Pair<K, V>>,
                        more: seq<Pair<K, V>>)
    requires fields != [] && ParsePairs(fields, keys, f, got).Ok?
    requires InsertPair(got, keys.dec(fields[0].key).value, f(fields[0].val).value, keys) == more
    ensures ParsePairs(fields, keys, f, got) == ParsePairs(fields[1..], keys, f, more)
  {
  }

  /** What a map is read into is in key order without repeated keys, whatever the map. */
  lemma {:induction false} ParsedCatalog<K(!new), V>(fields: seq<Field>, keys: Keys<K>, f: Value -> Result<V>,
                                                     got: seq<Pair<K, V>>)
    requires Catalog(got, keys) && Linear(keys) && ParsePairs(fields, keys, f, got).Ok?
    ensures Catalog(ParsePairs(fields, keys, f, got).value, keys)
    decreases |fields|
  {
    if fields != [] {
      var k, v := keys.dec(fields[0].key).value, f(fields[0].val).value;
      InsertKeepsCatalog(got, k, v, keys);
      ParsedCatalog(fields[1..], keys, f, InsertPair(got, k, v, keys));
    }
  }

  ghost predicate Linear<K(!new)>(keys: Keys<K>) {
    && (forall a, b, c {:trigger keys.lt(a, b), keys.lt(b, c)} :: keys.lt(a, b) && keys.lt(b, c) ==> keys.lt(a, c))
    && (forall a, b {:trigger keys.lt(a, b)} :: a == b || keys.lt(a, b) || keys.lt(b, a))
  }

  lemma {:induction false} InsertKeepsCatalog<K(!new), V>(s: seq<Pair<K, V>>, k: K, v: V, keys: Keys<K>)
    requires Catalog(s, keys) && Linear(keys)
    ensures Catalog(InsertPair(s, k, v, keys), keys)
    ensures forall e :: e in InsertPair(s, k, v, keys) ==> e.key == k || e in s
  {
    if s != [] && !keys.lt(k, s[0].key) && k != s[0].key {
      var rest := s[1..];
      assert forall i :: 0 <= i < |rest| ==> rest[i] == s[i + 1];
      InsertKeepsCatalog(rest, k, v, keys);
      var r := InsertPair(rest, k, v, keys);
      forall j | 0 <= j < |r|
        ensures keys.lt(s[0].key, r[j].key)
      {
        assert r[j] in r;
      }
    }
  }

  lemma {:induction false} PrintedPairAt<K, V>(s: seq<Pair<K, V>>, keys: Keys<K>, p: V -> Value, i: nat)
    requires i < |s|
    ensures PrintPairs(s, keys, p)[i] == Field(keys.enc(s[i].key), p(s[i].val))
  {
    if i > 0 {
      PrintedPairAt(s[1..], keys, p, i - 1);
    }
  }

  lemma {:induction false} PairValuesTidy<K(!new), V>(s: seq<Pair<K, V>>, keys: Keys<K>, p: V -> Value)
    requires Orderly(keys) && forall e :: e in s ==> Tidy(p(e.val))
    ensures TidyFields(PrintPairs(s, keys, p))
  {
    if s != [] {
      assert s[0] in s && forall e :: e in s[1..] ==> e in s;
      PairValuesTidy(s[1..], keys, p);
      assert PrintPairs(s, keys, p)[1..] == PrintPairs(s[1..], keys, p);
    }
  }

  lemma PrintedPairsTidy<K(!new), V>(s: seq<Pair<K, V>>, keys: Keys<K>, p: V -> Value)
    requires Orderly(keys) && Catalog(s, keys) && (forall e :: e in s ==> Tidy(p(e.val)))
    ensures Tidy(Map(PrintPairs(s, keys, p)))
  {
    hide Write, LexLt;
    PairValuesTidy(s, keys, p);
    var fields := PrintPairs(s, keys, p);
    forall i, j | 0 <= i < j < |fields|
      ensures LexLt(Write(fields[i].key), Write(fields[j].key))
    {
      PrintedPairAt(s, keys, p, i);
      PrintedPairAt(s, keys, p, j);
    }
  }

  function CatalogValue<K, V>(s: seq<Pair<K, V>>, keys: Keys<K>, p: V -> Value): Value { Map(PrintPairs(s, keys, p)) }

  function CatalogOf<K(==), V>(v: Value, keys: Keys<K>, f: Value -> Result<V>): Result<seq<Pair<K, V>>> {
    if v.Map? then ParsePairs(v.fields, keys, f, []) else Err(InvalidData)
  }

  lemma CatalogReads<K(!new), V>(s: seq<Pair<K, V>>, keys: Keys<K>, f: Value -> Result<V>, p: V -> Value)
    requires Orderly(keys) && Catalog(s, keys)
    requires forall e :: e in s ==> keys.dec(keys.enc(e.key)) == Ok(e.key) && f(p(e.val)) == Ok(e.val)
    ensures CatalogOf(CatalogValue(s, keys, p), keys, f) == Ok(s)
  {
    assert [] + s == s;
    ParsePrintedPairs(s, keys, f, p, []);
  }

  lemma CatalogRewrites<K(!new), V>(v: Value, keys: Keys<K>, f: Value -> Result<V>, p: V -> Value)
    requires Tidy(v) && Orderly(keys) && CatalogOf(v, keys, f).Ok?
    requires forall x :: x in v.fields && f(x.val).Ok? ==> p(f(x.val).value) == x.val
    ensures CatalogValue(CatalogOf(v, keys, f).value, keys, p) == v
  {
    hide PrintPairs, ParsePairs, Ascending, Orderly;
    PrintParsedPairs(v.fields, keys, f, p, []);
    var out := CatalogOf(v, keys, f).value;
    assert out[0..] == out;
  }

  lemma CatalogInOrder<K(!new), V>(v: Value, keys: Keys<K>, f: Value -> Result<V>)
    requires Linear(keys) && CatalogOf(v, keys, f).Ok?
    ensures Catalog(CatalogOf(v, keys, f).value, keys)
  {
    ParsedCatalog(v.fields, keys, f, []);
  }

  /** One value that does not read back spoils the whole catalog. */
  lemma {:induction false} CatalogSpoiled<K, V>(s: seq<Pair<K, V>>, keys: Keys<K>, f: Value -> Result<V>,
                                                    p: V -> Value, got: seq<Pair<K, V>>, i: nat)
    requires i < |s| && f(p(s[i].val)).Err?
    ensures ParsePairs(PrintPairs(s, keys, p), keys, f, got).Err?
    decreases i
  {
    if i > 0 && keys.dec(keys.enc(s[0].key)).Ok? && f(p(s[0].val)).Ok? {
      var k, v := keys.dec(keys.enc(s[0].key)).value, f(p(s[0].val)).value;
      assert PrintPairs(s, keys, p)[1..] == PrintPairs(s[1..], keys, p);
      CatalogSpoiled(s[1..], keys, f, p, InsertPair(got, k, v, keys), i - 1);
    }
  }

  // ----- tidy bodies

  lemma {:induction false} ExtraValuesTidy(s: seq<Extra>)
    requires forall e :: e in s ==> Tidy(e.val)
    ensures TidyFields(AsFields(s))
  {
    if s != [] {
      assert s[0] in s && forall e :: e in s[1..] ==> e in s;
      ExtraValuesTidy(s[1..]);
      assert AsFields(s)[1..] == AsFields(s[1..]);
    }
  }

  lemma NumberedTidy(s: seq<Extra>)
    requires KeysAscend(s) && (forall e :: e in s ==> Tidy(e.val))
    ensures Tidy(Map(AsFields(s)))
  {
    hide Write, LexLt;
    ExtraValuesTidy(s);
    var fields := AsFields(s);
    forall i, j | 0 <= i < j < |fields|
      ensures LexLt(Write(fields[i].key), Write(fields[j].key))
    {
      AsFieldsAt(s, i);
      AsFieldsAt(s, j);
      NumberKeyOrder(s[i].key, s[j].key);
    }
  }

  predicate ExtrasTidy(extra: seq<Extra>) {
    forall e :: e in extra ==> Tidy(e.val)
  }

  predicate SlotsTidy(slots: seq<Slot>) {
    forall i :: 0 <= i < |slots| && slots[i].val.Some? ==> Tidy(slots[i].val.value)
  }

  lemma {:induction false} PresentTidy(slots: seq<Slot>)
    requires SlotsTidy(slots)
    ensures ExtrasTidy(Present(slots))
  {
    if slots != [] {
      assert forall i :: 0 <= i < |slots[1..]| ==> slots[1..][i] == slots[i + 1];
      PresentTidy(slots[1..]);
    }
  }

  /** A body whose fields and extensions are tidy is tidy. */
  lemma BodyTidy(slots: seq<Slot>, extra: Extras, known: seq<nat>)
    requires Schema(slots, known) && BodyValue(Present(slots), extra).Ok?
    requires SlotsTidy(slots) && ExtrasTidy(extra)
    ensures Tidy(BodyValue(Present(slots), extra).value)
  {
    hide Tidy;
    PresentFacts(slots, known);
    BodyAscends(Present(slots), extra);
    PresentTidy(slots);
    NumberedTidy(Present(slots) + extra);
  }

  // ----- bodies whose fields are numbered from zero

  function Upto(n: nat): (s: seq<nat>)
    ensures |s| == n && forall i :: 0 <= i < n ==> s[i] == i
  {
    if n == 0 then [] else Upto(n - 1) + [n - 1]
  }

  function Numbered(vals: seq<Option<Value>>): (s: seq<Slot>)
    requires |vals| < FIRST_EXTRA
    ensures |s| == |vals| && forall i :: 0 <= i < |vals| ==> s[i] == Slot(i, vals[i])
  {
    if vals == [] then [] else Numbered(vals[..|vals| - 1]) + [Slot(|vals| - 1, vals[|vals| - 1])]
  }

  /** The body with field `i` holding `vals[i]`, where present. */
  function Body(vals: seq<Option<Value>>, extra: Extras): Result<Value>
    requires |vals| < FIRST_EXTRA
  {
    BodyValue(Present(Numbered(vals)), extra)
  }

  lemma NoExtras(vals: seq<Option<Value>>)
    requires |vals| < FIRST_EXTRA
    ensures Body(vals, []).Ok? && ExtrasTidy([])
  {
    hide Present, Numbered, AsFields;
  }

  lemma BodyFields(vals: seq<Option<Value>>, extra: Extras)
    requires |vals| < FIRST_EXTRA && Body(vals, extra).Ok?
    ensures var v := Body(vals, extra).value;
      && v.Map? && (forall i: nat :: i < |vals| ==> Lookup(v, i) == vals[i])
      && ExtrasOf(v, Upto(|vals|)) == Ok(extra)
  {
    hide Lookup, BodyValue, Present, ExtrasOf, Upto, Numbered, OwnFields;
    var slots := Numbered(vals);
    BodyReads(slots, extra, Upto(|vals|));
    BodyIsMap(vals, extra);
    var v := Body(vals, extra).value;
    forall i: nat | i < |vals|
      ensures Lookup(v, i) == vals[i]
    {
      assert slots[i].key == i;
    }
  }

  lemma BodyIsMap(vals: seq<Option<Value>>, extra: Extras)
    requires |vals| < FIRST_EXTRA && Body(vals, extra).Ok?
    ensures Body(vals, extra).value.Map?
  {
  }

  lemma BodyAgain(v: Value, vals: seq<Option<Value>>)
    requires Tidy(v) && |vals| < FIRST_EXTRA && ExtrasOf(v, Upto(|vals|)).Ok?
    requires forall i: nat :: i < |vals| ==> vals[i] == Lookup(v, i)
    ensures Body(vals, ExtrasOf(v, Upto(|vals|)).value) == Ok(v)
  {
    hide Lookup, BodyValue, Present, ExtrasOf, Tidy, Upto, Numbered;
    BodyRewrites(v, Numbered(vals), Upto(|vals|));
  }

  lemma BodyIsTidy(vals: seq<Option<Value>>, extra: Extras)
    requires |vals| < FIRST_EXTRA && Body(vals, extra).Ok? && ExtrasTidy(extra)
    requires forall i: nat :: i < |vals| && vals[i].Some? ==> Tidy(vals[i].value)
    ensures Tidy(Body(vals, extra).value)
  {
    hide Lookup, BodyValue, Present, Tidy, Upto, Numbered;
    BodyTidy(Numbered(vals), extra, Upto(|vals|));
  }

  lemma LookupTidy(v: Value, k: nat)
    requires Tidy(v) && Lookup(v, k).Some?
    ensures Tidy(Lookup(v, k).value)
  {
    hide TidyFields;
    FoundTidy(v.fields, k);
  }

  lemma {:induction false} FoundTidy(fields: seq<Field>, k: nat)
    requires TidyFields(fields) && Find(fields, k).Some?
    ensures Tidy(Find(fields, k).value)
  {
    if fields[0].key != Int(k) {
      FoundTidy(fields[1..], k);
    }
  }
}
