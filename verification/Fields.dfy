/** Numbered fields of canonical maps: the accessors of `cbor.rs` and the helpers of `model.rs`. */
module Fields {
  import opened Bytes
  import opened Results
  import opened CborValue
  import opened CborCodec

  type U32 = n: nat | n < 0x1_0000_0000
  type U64 = n: nat | n < 0x1_0000_0000_0000_0000
  type I64 = n: int | -0x8000_0000_0000_0000 <= n < 0x8000_0000_0000_0000
  type Id = s: seq<Byte> | |s| == 16 witness seq(16, _ => 0)
  type Hash = s: seq<Byte> | |s| == 32 witness seq(32, _ => 0)
  type Rgba = s: seq<Byte> | |s| == 4 witness seq(4, _ => 0)

  const FIRST_EXTRA: nat := 0x8000
  const ZERO_ID: Id := [0, 0, 0, 0, 0, 0, 0, 0, 0, 0, 0, 0, 0, 0, 0, 0]

  // ----- values without depth: sorted maps, finite numbers, no tags

  /** Canonical but for the nesting bound. */
  predicate Tidy(v: Value)
    decreases v, 1
  {
    match v
    case Map(fields) => Ascending(fields) && TidyFields(fields)
    case Array(items) => TidyItems(items)
    case Num(f) => f.Finite()
    case Tag(_, _) => false
    case _ => true
  }

  predicate TidyItems(items: seq<Value>)
    decreases items, 0
  {
    items == [] || (Tidy(items[0]) && TidyItems(items[1..]))
  }

  predicate TidyFields(fields: seq<Field>)
    decreases fields, 0
  {
    fields == [] ||
    assert fields[0].key < fields[0] && fields[0].val < fields[0];
    (Tidy(fields[0].key) && Tidy(fields[0].val) && TidyFields(fields[1..]))
  }

  lemma {:induction false} CanonicalIsTidy(v: Value, depth: nat)
    requires IsCanonical(v, depth)
    ensures Tidy(v)
    decreases v, 1
  {
    hide Ascending, AreCanonical, AreCanonicalFields, TidyItems, TidyFields;
    match v {
      case Map(fields) => CanonicalFieldsAreTidy(fields, depth + 1);
      case Array(items) => CanonicalItemsAreTidy(items, depth + 1);
      case _ =>
    }
  }

  lemma {:induction false} CanonicalItemsAreTidy(items: seq<Value>, depth: nat)
    requires AreCanonical(items, depth)
    ensures TidyItems(items)
    decreases items, 0
  {
    hide IsCanonical, Tidy;
    if items != [] {
      CanonicalIsTidy(items[0], depth);
      CanonicalItemsAreTidy(items[1..], depth);
    }
  }

  lemma {:induction false} CanonicalFieldsAreTidy(fields: seq<Field>, depth: nat)
    requires AreCanonicalFields(fields, depth)
    ensures TidyFields(fields)
    decreases fields, 0
  {
    hide IsCanonical, Tidy;
    if fields != [] {
      assert fields[0].key < fields[0] && fields[0].val < fields[0];
      CanonicalIsTidy(fields[0].key, depth);
      CanonicalIsTidy(fields[0].val, depth);
      CanonicalFieldsAreTidy(fields[1..], depth);
    }
  }

  /** A tidy value that has a canonical form is its own canonical form. */
  lemma {:induction false} TidyUnchanged(v: Value, depth: nat)
    requires Tidy(v) && Canonical(v, depth).Ok?
    ensures Canonical(v, depth) == Ok(v)
    decreases v, 1
  {
    hide Ascending, TidyItems, TidyFields, CanonicalItems, CanonicalFields, Sort, NoNeighbourTwins;
    match v {
      case Map(fields) =>
        TidyFieldsUnchanged(fields, depth + 1);
        SortSorts(fields);
        NeighboursSuffice(Sort(fields));
        AscendingUnique(Sort(fields), fields);
      case Array(items) =>
        TidyItemsUnchanged(items, depth + 1);
      case _ =>
    }
  }

  lemma {:induction false} TidyItemsUnchanged(items: seq<Value>, depth: nat)
    requires TidyItems(items) && CanonicalItems(items, depth).Ok?
    ensures CanonicalItems(items, depth) == Ok(items)
    decreases items, 0
  {
    hide Tidy, Canonical;
    if items != [] {
      TidyUnchanged(items[0], depth);
      TidyItemsUnchanged(items[1..], depth);
      assert items == [items[0]] + items[1..];
    }
  }

  lemma {:induction false} TidyFieldsUnchanged(fields: seq<Field>, depth: nat)
    requires TidyFields(fields) && CanonicalFields(fields, depth).Ok?
    ensures CanonicalFields(fields, depth) == Ok(fields)
    decreases fields, 0
  {
    hide Tidy, Canonical;
    if fields != [] {
      assert fields[0].key < fields[0] && fields[0].val < fields[0];
      TidyUnchanged(fields[0].key, depth);
      TidyUnchanged(fields[0].val, depth);
      TidyFieldsUnchanged(fields[1..], depth);
      assert fields == [fields[0]] + fields[1..];
    }
  }

  // ----- accessors of cbor.rs

  /** The value of the first entry whose key is the number `k`. */
  function Find(fields: seq<Field>, k: nat): Option<Value> {
    if fields == [] then None
    else if fields[0].key == Int(k) then Some(fields[0].val)
    else Find(fields[1..], k)
  }

  /** `optional`: nothing when the value is no map. */
  function Lookup(v: Value, k: nat): Option<Value> {
    if v.Map? then Find(v.fields, k) else None
  }

  function Require(v: Value, k: nat): Result<Value> {
    match Lookup(v, k)
    case Some(x) => Ok(x)
    case None => Err(InvalidData)
  }

  function U64Of(v: Value): Result<U64> {
    if v.Int? && 0 <= v.n < 0x1_0000_0000_0000_0000 then Ok(v.n) else Err(InvalidData)
  }

  function U32Of(v: Value): Result<U32> {
    if v.Int? && 0 <= v.n < 0x1_0000_0000 then Ok(v.n) else Err(InvalidData)
  }

  function I64Of(v: Value): Result<I64> {
    if v.Int? && -0x8000_0000_0000_0000 <= v.n < 0x8000_0000_0000_0000 then Ok(v.n) else Err(InvalidData)
  }

  function IdOf(v: Value): Result<Id> {
    if v.Bstr? && |v.bytes| == 16 && v.bytes != ZERO_ID then Ok(v.bytes) else Err(InvalidData)
  }

  function HashOf(v: Value): Result<Hash> {
    if v.Bstr? && |v.bytes| == 32 then Ok(v.bytes) else Err(InvalidData)
  }

  function RgbaOf(v: Value): Result<Rgba> {
    if v.Bstr? && |v.bytes| == 4 then Ok(v.bytes) else Err(InvalidData)
  }

  function FloatOf(v: Value): Result<Float> {
    if v.Num? && v.f.Finite() then Ok(v.f) else Err(InvalidData)
  }

  function TextOf(v: Value): Result<seq<Byte>> {
    if v.Text? then Ok(v.utf8) else Err(InvalidData)
  }

  function ItemsOf(v: Value): Result<seq<Value>> {
    if v.Array? then Ok(v.items) else Err(InvalidData)
  }

  // ----- maps with numbered fields

  datatype Extra = Extra(key: U64, val: Value)

  predicate KeysAscend(s: seq<Extra>) {
    forall i, j :: 0 <= i < j < |s| ==> s[i].key < s[j].key
  }

  /** `BTreeMap<u64, Value>` as its entries in key order. */
  type Extras = s: seq<Extra> | KeysAscend(s)

  function AsFields(s: seq<Extra>): (f: seq<Field>)
    ensures |f| == |s|
  {
    if s == [] then [] else [Field(Int(s[0].key), s[0].val)] + AsFields(s[1..])
  }

  lemma {:induction false} AsFieldsAt(s: seq<Extra>, i: nat)
    requires i < |s|
    ensures AsFields(s)[i] == Field(Int(s[i].key), s[i].val)
  {
    if i > 0 {
      AsFieldsAt(s[1..], i - 1);
    }
  }

  lemma {:induction false} AsFieldsAppend(s: seq<Extra>, t: seq<Extra>)
    ensures AsFields(s + t) == AsFields(s) + AsFields(t)
  {
    if s == [] {
      assert s + t == t;
    } else {
      AsFieldsAppend(s[1..], t);
      assert (s + t)[1..] == s[1..] + t && (s + t)[0] == s[0];
      var f, a, b := [Field(Int(s[0].key), s[0].val)], AsFields(s[1..]), AsFields(t);
      assert AsFields(s + t) == f + (a + b) && AsFields(s) == f + a;
      assert f + (a + b) == (f + a) + b;
    }
  }

  /** `BTreeMap::insert`. */
  function InsertKey(s: seq<Extra>, k: U64, v: Value): (r: seq<Extra>)
    ensures forall e :: e in r ==> e == Extra(k, v) || e in s
  {
    if s == [] || k < s[0].key then [Extra(k, v)] + s
    else if k == s[0].key then [Extra(k, v)] + s[1..]
    else [s[0]] + InsertKey(s[1..], k, v)
  }

  lemma {:induction false} InsertKeepsOrder(s: seq<Extra>, k: U64, v: Value)
    requires KeysAscend(s)
    ensures KeysAscend(InsertKey(s, k, v))
  {
    if s != [] && k > s[0].key {
      InsertKeepsOrder(s[1..], k, v);
      var rest := InsertKey(s[1..], k, v);
      var r := InsertKey(s, k, v);
      forall i, j | 0 <= i < j < |r|
        ensures r[i].key < r[j].key
      {
        assert r[j] == rest[j - 1] && rest[j - 1] in rest;
        if i > 0 {
          assert r[i] == rest[i - 1];
        }
      }
    }
  }

  lemma {:induction false} InsertLast(s: seq<Extra>, k: U64, v: Value)
    requires forall e :: e in s ==> e.key < k
    ensures InsertKey(s, k, v) == s + [Extra(k, v)]
  {
    if s != [] {
      InsertLast(s[1..], k, v);
    }
  }

  function InsertExtra(s: Extras, k: U64, v: Value): Extras {
    InsertKeepsOrder(s, k, v);
    InsertKey(s, k, v)
  }

  /** `extras`: the fields that are not `known`, all of which must be at or above 0x8000. */
  function CollectExtras(fields: seq<Field>, known: seq<nat>, got: Extras): Result<Extras> {
    if fields == [] then Ok(got)
    else
      var k :- U64Of(fields[0].key);
      if k in known then CollectExtras(fields[1..], known, got)
      else if k < FIRST_EXTRA then Err(Unsupported(k))
      else CollectExtras(fields[1..], known, InsertExtra(got, k, fields[0].val))
  }

  function ExtrasOf(v: Value, known: seq<nat>): Result<Extras> {
    if v.Map? then CollectExtras(v.fields, known, []) else Err(InvalidData)
  }

  predicate AllExtra(extra: seq<Extra>) {
    forall e :: e in extra ==> e.key >= FIRST_EXTRA
  }

  /** `body`: the given fields in key order, then the extension fields. */
  function BodyValue(fields: seq<Extra>, extra: Extras): Result<Value> {
    if AllExtra(extra) then Ok(Map(AsFields(fields + extra))) else Err(InvalidData)
  }

  /** Own fields of a body: ascending keys below 0x8000. */
  predicate OwnFields(fields: seq<Extra>) {
    KeysAscend(fields) && forall e :: e in fields ==> e.key < FIRST_EXTRA
  }

  // ----- writing a body and finding its fields again

  lemma {:induction false} FindInFields(s: seq<Extra>, k: nat, i: nat)
    requires KeysAscend(s) && i < |s| && s[i].key == k
    ensures Find(AsFields(s), k) == Some(s[i].val)
  {
    if i > 0 {
      FindInFields(s[1..], k, i - 1);
    }
  }

  lemma {:induction false} FindAbsent(s: seq<Extra>, k: nat)
    requires forall e :: e in s ==> e.key != k
    ensures Find(AsFields(s), k) == None
  {
    if s != [] {
      FindAbsent(s[1..], k);
    }
  }

  lemma BodyAscends(fields: seq<Extra>, extra: Extras)
    requires OwnFields(fields) && BodyValue(fields, extra).Ok?
    ensures KeysAscend(fields + extra)
  {
    var all := fields + extra;
    forall i, j | 0 <= i < j < |all|
      ensures all[i].key < all[j].key
    {
      if i < |fields| <= j {
        assert fields[i] in fields && extra[j - |fields|] in extra;
      }
    }
  }

  /** A written field is found under its key; a key that was not written is not found. */
  lemma BodyFind(fields: seq<Extra>, extra: Extras, k: nat)
    requires OwnFields(fields) && BodyValue(fields, extra).Ok? && k < FIRST_EXTRA
    ensures var v := BodyValue(fields, extra).value;
      && (forall i :: 0 <= i < |fields| && fields[i].key == k ==> Lookup(v, k) == Some(fields[i].val))
      && ((forall e :: e in fields ==> e.key != k) ==> Lookup(v, k) == None)
  {
    hide Find, KeysAscend;
    BodyAscends(fields, extra);
    var all := fields + extra;
    forall i | 0 <= i < |fields| && fields[i].key == k
      ensures Lookup(BodyValue(fields, extra).value, k) == Some(fields[i].val)
    {
      FindInFields(all, k, i);
    }
    if forall e :: e in fields ==> e.key != k {
      assert forall e :: e in all ==> e in fields || e in extra;
      FindAbsent(all, k);
    }
  }

  lemma {:induction false} CollectHigh(extra: seq<Extra>, known: seq<nat>, got: Extras)
    requires KeysAscend(got + extra)
    requires forall e :: e in extra ==> e.key !in known && e.key >= FIRST_EXTRA
    ensures CollectExtras(AsFields(extra), known, got) == Ok(got + extra)
    decreases |extra|
  {
    if extra == [] {
      assert got + extra == got;
    } else {
      var x := extra[0];
      forall e | e in got
        ensures e.key < x.key
      {
        var i :| 0 <= i < |got| && got[i] == e;
        assert (got + extra)[i] == e && (got + extra)[|got|] == x;
      }
      InsertLast(got, x.key, x.val);
      var more := got + [x];
      assert more + extra[1..] == got + extra;
      assert forall i :: 0 <= i < |more| ==> more[i] == (got + extra)[i];
      CollectHigh(extra[1..], known, more);
    }
  }

  lemma {:induction false} CollectWritten(own: seq<Extra>, extra: seq<Extra>, known: seq<nat>)
    requires KeysAscend(extra)
    requires forall e :: e in own ==> e.key in known
    requires forall e :: e in extra ==> e.key !in known && e.key >= FIRST_EXTRA
    ensures CollectExtras(AsFields(own + extra), known, []) == Ok(extra)
  {
    if own == [] {
      assert own + extra == extra && [] + extra == extra;
      CollectHigh(extra, known, []);
    } else {
      assert (own + extra)[1..] == own[1..] + extra;
      CollectWritten(own[1..], extra, known);
    }
  }

  /** Extension fields survive; `known` names every field the body writes. */
  lemma BodyExtras(fields: seq<Extra>, extra: Extras, known: seq<nat>)
    requires OwnFields(fields) && BodyValue(fields, extra).Ok?
    requires (forall e :: e in fields ==> e.key in known) && (forall k :: k in known ==> k < FIRST_EXTRA)
    ensures ExtrasOf(BodyValue(fields, extra).value, known) == Ok(extra)
  {
    CollectWritten(fields, extra, known);
  }

  /** A field below 0x8000 that the body does not know makes the whole body unreadable. */
  lemma {:induction false} UnknownRefused(fields: seq<Field>, known: seq<nat>, got: Extras, i: nat)
    requires i < |fields| && fields[i].key.Int? && 0 <= fields[i].key.n < FIRST_EXTRA && fields[i].key.n !in known
    ensures CollectExtras(fields, known, got).Err?
    decreases i
  {
    if i > 0 && U64Of(fields[0].key).Ok? {
      var k := U64Of(fields[0].key).value;
      if k in known {
        UnknownRefused(fields[1..], known, got, i - 1);
      } else if k >= FIRST_EXTRA {
        UnknownRefused(fields[1..], known, InsertExtra(got, k, fields[0].val), i - 1);
      }
    }
  }

  // ----- key order on the wire

  lemma {:induction false} LexLastByte(x: seq<Byte>, y: seq<Byte>, c: Byte, d: Byte)
    requires |x| == |y|
    ensures LexLt(x + [c], y + [d]) <==> LexLt(x, y) || (x == y && c < d)
  {
    if x == [] {
      assert x + [c] == [c] && y + [d] == [d];
    } else {
      LexLastByte(x[1..], y[1..], c, d);
      assert (x + [c])[1..] == x[1..] + [c] && (y + [d])[1..] == y[1..] + [d];
      assert x == [x[0]] + x[1..] && y == [y[0]] + y[1..];
    }
  }

  lemma {:induction false} BEOrder(a: nat, b: nat, k: nat)
    requires a < Pow256(k) && b < Pow256(k)
    ensures LexLt(BE(a, k), BE(b, k)) <==> a < b
    decreases k
  {
    if k > 0 {
      BEOrder(a / 256, b / 256, k - 1);
      LexLastByte(BE(a / 256, k - 1), BE(b / 256, k - 1), a % 256, b % 256);
      FromBEOfBE(a / 256, k - 1);
      FromBEOfBE(b / 256, k - 1);
    }
  }

  lemma {:induction false} LexSamePrefix(h: seq<Byte>, x: seq<Byte>, y: seq<Byte>)
    ensures LexLt(h + x, h + y) <==> LexLt(x, y)
  {
    if h == [] {
      assert h + x == x && h + y == y;
    } else {
      LexSamePrefix(h[1..], x, y);
      assert (h + x)[1..] == h[1..] + x && (h + y)[1..] == h[1..] + y;
    }
  }

  /** Number keys sort on the wire as numbers: `BTreeMap<u64, _>` order is canonical order. */
  lemma NumberKeyOrder(a: U64, b: U64)
    ensures LexLt(Write(Int(a)), Write(Int(b))) <==> a < b
  {
    Widths();
    var x, y := Write(Int(a)), Write(Int(b));
    if Width(a) == Width(b) && a >= 24 {
      BEOrder(a, b, Width(a));
      LexSamePrefix([Info(Width(a))], BE(a, Width(a)), BE(b, Width(b)));
    }
  }

  /** Byte keys of one length sort on the wire as byte strings: `BTreeMap<Id, _>` order is canonical. */
  lemma BytesKeyOrder(a: seq<Byte>, b: seq<Byte>)
    requires |a| == |b|
    ensures LexLt(Write(Bstr(a)), Write(Bstr(b))) <==> LexLt(a, b)
  {
    LexSamePrefix(Head(2, |a|), a, b);
  }

  // ----- bodies as lists of present and absent fields

  /** A field a body may carry. */
  datatype Slot = Slot(key: U64, val: Option<Value>)

  function Present(slots: seq<Slot>): seq<Extra> {
    if slots == [] then []
    else (if slots[0].val.Some? then [Extra(slots[0].key, slots[0].val.value)] else []) + Present(slots[1..])
  }

  /** The slots carry exactly the keys `known`, in increasing order below 0x8000. */
  predicate Schema(slots: seq<Slot>, known: seq<nat>) {
    && |slots| == |known|
    && (forall i :: 0 <= i < |known| ==> slots[i].key == known[i] < FIRST_EXTRA)
    && (forall i, j :: 0 <= i < j < |known| ==> known[i] < known[j])
  }

  lemma SchemaTail(slots: seq<Slot>, known: seq<nat>)
    requires Schema(slots, known) && slots != []
    ensures known != [] && Schema(slots[1..], known[1..])
  {
    assert forall i :: 0 <= i < |known| - 1 ==> known[1..][i] == known[i + 1] && slots[1..][i] == slots[i + 1];
  }

  lemma {:induction false} PresentIn(slots: seq<Slot>, known: seq<nat>)
    requires Schema(slots, known)
    ensures forall e :: e in Present(slots) ==> e.key in known && e.key < FIRST_EXTRA
  {
    if slots != [] {
      SchemaTail(slots, known);
      PresentIn(slots[1..], known[1..]);
      assert forall k :: k in known[1..] ==> k in known;
    }
  }

  lemma AscendCons(x: Extra, rest: seq<Extra>)
    requires KeysAscend(rest) && forall e :: e in rest ==> x.key < e.key
    ensures KeysAscend([x] + rest)
  {
    var all := [x] + rest;
    forall i, j | 0 <= i < j < |all|
      ensures all[i].key < all[j].key
    {
      assert all[j] == rest[j - 1] && rest[j - 1] in rest;
      if i > 0 {
        assert all[i] == rest[i - 1];
      }
    }
  }

  lemma {:induction false} PresentKeys(slots: seq<Slot>, known: seq<nat>)
    requires Schema(slots, known)
    ensures KeysAscend(Present(slots))
    ensures forall e :: e in Present(slots) ==> e.key in known && e.key < FIRST_EXTRA
  {
    hide KeysAscend;
    PresentIn(slots, known);
    if slots == [] {
      NoKeys();
    } else {
      SchemaTail(slots, known);
      PresentKeys(slots[1..], known[1..]);
      PresentIn(slots[1..], known[1..]);
      var rest := Present(slots[1..]);
      if slots[0].val.Some? {
        assert forall k :: k in known[1..] ==> known[0] < k;
        AscendCons(Extra(slots[0].key, slots[0].val.value), rest);
      } else {
        assert Present(slots) == rest;
      }
    }
  }

  lemma NoKeys()
    ensures KeysAscend([])
  {
  }

  lemma {:induction false} PresentFacts(slots: seq<Slot>, known: seq<nat>)
    requires Schema(slots, known)
    ensures OwnFields(Present(slots))
    ensures forall e :: e in Present(slots) ==> e.key in known
    ensures forall i :: 0 <= i < |slots| && slots[i].val.Some? ==> Extra(slots[i].key, slots[i].val.value) in Present(slots)
    ensures forall i, e :: 0 <= i < |slots| && slots[i].val.None? && e in Present(slots) ==> e.key != slots[i].key
  {
    hide KeysAscend;
    PresentKeys(slots, known);
    if slots != [] {
      SchemaTail(slots, known);
      PresentFacts(slots[1..], known[1..]);
      var rest := Present(slots[1..]);
      assert forall k :: k in known[1..] ==> known[0] < k;
      assert forall i :: 1 <= i < |slots| ==> slots[i] == slots[1..][i - 1];
    }
  }

  /** A body written from `slots` and `extra` has each slot under its key and gives the extras back. */
  lemma BodyReads(slots: seq<Slot>, extra: Extras, known: seq<nat>)
    requires Schema(slots, known) && BodyValue(Present(slots), extra).Ok?
    ensures var v := BodyValue(Present(slots), extra).value;
      && (forall i :: 0 <= i < |slots| ==> Lookup(v, slots[i].key) == slots[i].val)
      && ExtrasOf(v, known) == Ok(extra)
  {
    hide Find, KeysAscend, CollectExtras, Present;
    PresentFacts(slots, known);
    var own := Present(slots);
    BodyExtras(own, extra, known);
    forall i | 0 <= i < |slots|
      ensures Lookup(BodyValue(own, extra).value, slots[i].key) == slots[i].val
    {
      BodyFind(own, extra, slots[i].key);
      if slots[i].val.Some? {
        var j :| 0 <= j < |own| && own[j] == Extra(slots[i].key, slots[i].val.value);
        assert own[j].key == slots[i].key;
      }
    }
  }

  // ----- reading a tidy body and writing it again

  /** The keys are numbers in increasing order. */
  predicate NumberKeys(fields: seq<Field>) {
    && (forall i :: 0 <= i < |fields| ==> fields[i].key.Int? && 0 <= fields[i].key.n < WORD)
    && (forall i, j :: 0 <= i < j < |fields| ==> fields[i].key.n < fields[j].key.n)
  }

  lemma {:induction false} CollectedKeys(fields: seq<Field>, known: seq<nat>, got: Extras, i: nat)
    requires CollectExtras(fields, known, got).Ok? && i < |fields|
    ensures fields[i].key.Int? && 0 <= fields[i].key.n < WORD
    decreases |fields|
  {
    if i > 0 {
      var k := U64Of(fields[0].key).value;
      if k in known {
        CollectedKeys(fields[1..], known, got, i - 1);
      } else {
        CollectedKeys(fields[1..], known, InsertExtra(got, k, fields[0].val), i - 1);
      }
    }
  }

  lemma TidyKeys(v: Value, known: seq<nat>)
    requires Tidy(v) && ExtrasOf(v, known).Ok?
    ensures v.Map? && NumberKeys(v.fields)
  {
    hide Write, LexLt, TidyFields, CollectExtras;
    forall i | 0 <= i < |v.fields|
      ensures v.fields[i].key.Int? && 0 <= v.fields[i].key.n < WORD
    {
      CollectedKeys(v.fields, known, [], i);
    }
    forall i, j | 0 <= i < j < |v.fields|
      ensures v.fields[i].key.n < v.fields[j].key.n
    {
      NumberKeyOrder(v.fields[i].key.n, v.fields[j].key.n);
    }
  }

  /** The slots hold what `fields` holds under their keys. */
  predicate Mirrors(slots: seq<Slot>, fields: seq<Field>) {
    forall i :: 0 <= i < |slots| ==> slots[i].val == Find(fields, slots[i].key)
  }

  lemma {:induction false} FindOther(fields: seq<Field>, k: nat)
    requires forall i :: 0 <= i < |fields| ==> fields[i].key != Int(k)
    ensures Find(fields, k) == None
  {
    if fields != [] {
      FindOther(fields[1..], k);
    }
  }

  /** Dropping the first field empties its slot and changes no other. */
  function Emptied(slots: seq<Slot>, k: nat): (r: seq<Slot>)
    ensures |r| == |slots|
    ensures forall i :: 0 <= i < |slots| ==> r[i] == if slots[i].key == k then Slot(k, None) else slots[i]
  {
    if slots == [] then []
    else [if slots[0].key == k then Slot(slots[0].key, None) else slots[0]] + Emptied(slots[1..], k)
  }

  lemma {:induction false} PresentCons(slots: seq<Slot>, known: seq<nat>, k: U64, x: Value)
    requires Schema(slots, known) && Slot(k, Some(x)) in slots
    requires forall i :: 0 <= i < |slots| && slots[i].key < k ==> slots[i].val.None?
    ensures Present(slots) == [Extra(k, x)] + Present(Emptied(slots, k))
  {
    hide Present, Emptied, Schema;
    SchemaTail(slots, known);
    SchemaOrder(slots, known);
    PresentStep(slots, k);
    var rest := slots[1..];
    assert forall i :: 0 <= i < |rest| ==> rest[i] == slots[i + 1];
    var i :| 0 <= i < |slots| && slots[i] == Slot(k, Some(x));
    if slots[0].key == k {
      assert i == 0;
      Untouched(rest, k);
    } else {
      assert rest[i - 1] == Slot(k, Some(x)) && slots[0].key < k;
      PresentCons(rest, known[1..], k, x);
    }
  }

  lemma SchemaOrder(slots: seq<Slot>, known: seq<nat>)
    requires Schema(slots, known)
    ensures forall i, j :: 0 <= i < j < |slots| ==> slots[i].key < slots[j].key
  {
  }

  lemma PresentStep(slots: seq<Slot>, k: nat)
    requires slots != []
    ensures Present(slots)
         == (if slots[0].val.Some? then [Extra(slots[0].key, slots[0].val.value)] else []) + Present(slots[1..])
    ensures Present(Emptied(slots, k))
         == (if slots[0].key != k && slots[0].val.Some? then [Extra(slots[0].key, slots[0].val.value)] else [])
            + Present(Emptied(slots[1..], k))
  {
    assert Emptied(slots, k)[1..] == Emptied(slots[1..], k);
  }

  lemma Untouched(slots: seq<Slot>, k: nat)
    requires forall i :: 0 <= i < |slots| ==> slots[i].key != k
    ensures Emptied(slots, k) == slots
  {
  }

  lemma {:induction false} PresentNone(slots: seq<Slot>)
    requires forall i :: 0 <= i < |slots| ==> slots[i].val.None?
    ensures Present(slots) == []
  {
    if slots != [] {
      PresentNone(slots[1..]);
    }
  }

  /** Fields at or above 0x8000 as extension entries. */
  lemma {:induction false} HighFields(fields: seq<Field>) returns (ex: seq<Extra>)
    requires NumberKeys(fields) && (forall i :: 0 <= i < |fields| ==> fields[i].key.n >= FIRST_EXTRA)
    ensures AsFields(ex) == fields && |ex| == |fields|
    ensures forall i :: 0 <= i < |ex| ==> ex[i].key == fields[i].key.n
  {
    if fields == [] {
      ex := [];
    } else {
      var more := HighFields(fields[1..]);
      ex := [Extra(fields[0].key.n, fields[0].val)] + more;
      assert ex[1..] == more && fields == [fields[0]] + fields[1..];
    }
  }

  lemma NumberKeysTail(fields: seq<Field>)
    requires NumberKeys(fields) && fields != []
    ensures NumberKeys(fields[1..])
    ensures forall i :: 0 <= i < |fields[1..]| ==> fields[0].key.n < fields[1..][i].key.n
  {
    assert forall i :: 0 <= i < |fields[1..]| ==> fields[1..][i] == fields[i + 1];
  }

  /** The first field of the body sits in the first slot that is present. */
  lemma FirstSlot(fields: seq<Field>, slots: seq<Slot>, known: seq<nat>)
    requires fields != [] && NumberKeys(fields) && Schema(slots, known) && Mirrors(slots, fields)
    requires fields[0].key.n in known
    ensures var k, x := fields[0].key.n, fields[0].val;
      && Present(slots) == [Extra(k, x)] + Present(Emptied(slots, k))
      && Schema(Emptied(slots, k), known) && Mirrors(Emptied(slots, k), fields[1..])
  {
    var k, x, rest := fields[0].key.n, fields[0].val, fields[1..];
    var i :| 0 <= i < |known| && known[i] == k;
    assert slots[i] == Slot(k, Some(x));
    NumberKeysTail(fields);
    forall j | 0 <= j < |slots| && slots[j].key < k
      ensures slots[j].val.None?
    {
      FindOther(fields, slots[j].key);
    }
    PresentCons(slots, known, k, x);
    FindOther(rest, k);
    forall j | 0 <= j < |slots|
      ensures Emptied(slots, k)[j].val == Find(rest, Emptied(slots, k)[j].key)
    {
    }
  }

  lemma NoSlots(fields: seq<Field>, slots: seq<Slot>, known: seq<nat>)
    requires NumberKeys(fields) && Schema(slots, known) && Mirrors(slots, fields)
    requires fields == [] || fields[0].key.n >= FIRST_EXTRA
    ensures Present(slots) == []
  {
    forall j | 0 <= j < |slots|
      ensures slots[j].val.None?
    {
      FindOther(fields, slots[j].key);
    }
    PresentNone(slots);
  }

  lemma {:induction false} TidySplits(fields: seq<Field>, slots: seq<Slot>, known: seq<nat>)
    requires NumberKeys(fields) && Schema(slots, known) && Mirrors(slots, fields)
    requires CollectExtras(fields, known, []).Ok?
    ensures AsFields(Present(slots) + CollectExtras(fields, known, []).value) == fields
    ensures AllExtra(CollectExtras(fields, known, []).value)
    decreases |fields|
  {
    hide Find, Present, Mirrors, Emptied, Schema;
    if fields == [] {
      NoSlots(fields, slots, known);
    } else {
      NumberKeysTail(fields);
      var k, x := fields[0].key.n, fields[0].val;
      if k in known {
        FirstSlot(fields, slots, known);
        TidySplits(fields[1..], Emptied(slots, k), known);
        JoinFirst(fields, Extra(k, x), Present(Emptied(slots, k)), CollectExtras(fields, known, []).value);
      } else {
        NoSlots(fields, slots, known);
        SchemaLow(slots, known);
        AllHigh(fields, known);
      }
    }
  }

  lemma JoinFirst(fields: seq<Field>, x: Extra, own: seq<Extra>, extra: seq<Extra>)
    requires fields != [] && fields[0] == Field(Int(x.key), x.val) && AsFields(own + extra) == fields[1..]
    ensures AsFields([x] + own + extra) == fields
  {
    assert [x] + own + extra == [x] + (own + extra);
    assert fields == [fields[0]] + fields[1..];
  }

  lemma SchemaLow(slots: seq<Slot>, known: seq<nat>)
    requires Schema(slots, known)
    ensures forall k :: k in known ==> k < FIRST_EXTRA
  {
  }

  lemma AllHigh(fields: seq<Field>, known: seq<nat>)
    requires NumberKeys(fields) && fields != [] && fields[0].key.n !in known && CollectExtras(fields, known, []).Ok?
    requires forall k :: k in known ==> k < FIRST_EXTRA
    ensures fields[0].key.n >= FIRST_EXTRA
    ensures AsFields([] + CollectExtras(fields, known, []).value) == fields
    ensures AllExtra(CollectExtras(fields, known, []).value)
  {
    var ex := HighFields(fields);
    CollectHigh(ex, known, []);
    assert [] + ex == ex;
  }

  /** Reading the slots and the extras of a tidy body and writing them again gives the same value. */
  lemma BodyRewrites(v: Value, slots: seq<Slot>, known: seq<nat>)
    requires Tidy(v) && ExtrasOf(v, known).Ok? && Schema(slots, known)
    requires forall i :: 0 <= i < |slots| ==> slots[i].val == Lookup(v, slots[i].key)
    ensures BodyValue(Present(slots), ExtrasOf(v, known).value) == Ok(v)
  {
    hide CollectExtras, Present, Find, NumberKeys;
    TidyKeys(v, known);
    TidySplits(v.fields, slots, known);
  }
}
