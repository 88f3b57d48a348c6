/** `preflight` of `crates/ink-format/src/cbor.rs`: the walk that bounds nesting and item count before
    the parser may allocate, proved against the grammar of RFC 8949, section 3. */
module CborPreflight {
  import opened Bytes
  import opened CborValue
  import opened Results

  const MAX_DEPTH: nat := 32
  const MAX_ITEMS: nat := 1_000_000

  // ----- the grammar

  /** A definite-length data item as a tree of heads: the syntax, without its values. */
  datatype Item =
    | Leaf(head: seq<Byte>)
    | Str(head: seq<Byte>, payload: seq<Byte>)
    | Container(head: seq<Byte>, children: seq<Item>)

  /** `head` is one complete initial byte with its argument. */
  predicate IsHead(head: seq<Byte>) {
    ReadHead(head).Some? && ReadHead(head).value.rest == []
  }

  predicate AcceptedSimple(info: nat) { 20 <= info <= 22 || 25 <= info <= 27 }

  predicate WellFormed(t: Item)
    decreases t, 1
  {
    IsHead(t.head) &&
    var h := ReadHead(t.head).value;
    match t
    case Leaf(_) => h.major <= 1 || (h.major == 7 && AcceptedSimple(h.info))
    case Str(_, payload) => (h.major == 2 || h.major == 3) && h.argument == |payload|
    case Container(_, children) =>
      && ((h.major == 4 && |children| == h.argument) || (h.major == 5 && |children| == 2 * h.argument))
      && AllWellFormed(children)
  }

  predicate AllWellFormed(ts: seq<Item>)
    decreases ts, 0
  {
    ts == [] || (WellFormed(ts[0]) && AllWellFormed(ts[1..]))
  }

  function Flatten(t: Item): seq<Byte>
    decreases t, 1
  {
    match t
    case Leaf(head) => head
    case Str(head, payload) => head + payload
    case Container(head, children) => head + FlattenAll(children)
  }

  function FlattenAll(ts: seq<Item>): seq<Byte>
    decreases ts, 0
  {
    if ts == [] then [] else Flatten(ts[0]) + FlattenAll(ts[1..])
  }

  /** Depth of the deepest item below `t`. */
  function Height(t: Item): nat
    decreases t, 1
  {
    if t.Container? && t.children != [] then 1 + HeightAll(t.children) else 0
  }

  function HeightAll(ts: seq<Item>): nat
    decreases ts, 0
  {
    if ts == [] then 0 else Max(Height(ts[0]), HeightAll(ts[1..]))
  }

  /** Number of items, `t` itself included. */
  function Size(t: Item): (n: nat)
    ensures n >= 1
    decreases t, 1
  {
    if t.Container? then 1 + SizeAll(t.children) else 1
  }

  function SizeAll(ts: seq<Item>): nat
    decreases ts, 0
  {
    if ts == [] then 0 else Size(ts[0]) + SizeAll(ts[1..])
  }

  /** `b` is exactly one item within the limits. */
  ghost predicate OneItem(b: seq<Byte>, depth: nat, items: nat) {
    exists t: Item :: WellFormed(t) && Flatten(t) == b && Height(t) <= depth && Size(t) <= items
  }

  // ----- the walk as a function of the bytes still unread

  function ChildCount(h: Header): nat {
    if h.major == 5 then 2 * h.argument else h.argument
  }

  /** One `item` call: the bytes after the item and the budget left. */
  function Walk(b: seq<Byte>, depth: nat, budget: nat): (r: Result<(seq<Byte>, nat)>)
    ensures r.Ok? ==> |r.value.0| < |b|
    decreases |b|, 0
  {
    if depth > MAX_DEPTH || budget == 0 then Err(ResourceLimit)
    else
      match ReadHead(b)
      case None => Err(InvalidData)
      case Some(h) =>
        if h.major != 4 && h.major != 5 then WalkLeaf(h, budget - 1)
        else if ChildCount(h) >= WORD then Err(InvalidData)
        else if ChildCount(h) > budget - 1 then Err(ResourceLimit)
        else if ChildCount(h) > |h.rest| then Err(InvalidData)
        else WalkMany(h.rest, ChildCount(h), depth + 1, budget - 1)
  }

  function WalkLeaf(h: Header, budget: nat): (r: Result<(seq<Byte>, nat)>)
    requires h.major != 4 && h.major != 5
    ensures r.Ok? ==> |r.value.0| <= |h.rest| && r.value.1 == budget
  {
    if h.major <= 1 then Ok((h.rest, budget))
    else if h.major <= 3 then
      if h.argument <= |h.rest| then Ok((h.rest[h.argument..], budget)) else Err(InvalidData)
    else if h.major == 7 && AcceptedSimple(h.info) then Ok((h.rest, budget))
    else Err(InvalidData)
  }

  function WalkMany(b: seq<Byte>, count: nat, depth: nat, budget: nat): (r: Result<(seq<Byte>, nat)>)
    ensures r.Ok? ==> |r.value.0| <= |b|
    decreases |b|, count + 1
  {
    if count == 0 then Ok((b, budget))
    else
      var (rest, left) :- Walk(b, depth, budget);
      WalkMany(rest, count - 1, depth, left)
  }

  /** A head and the bytes after it make up the input, and the head alone reads the same. */
  lemma HeadSplits(b: seq<Byte>) returns (head: seq<Byte>)
    requires ReadHead(b).Some?
    ensures b == head + ReadHead(b).value.rest
    ensures ReadHead(head) == Some(ReadHead(b).value.(rest := []))
  {
    var h := ReadHead(b).value;
    head := b[..|b| - |h.rest|];
    if b[0] % 32 >= 24 {
      var n := Pow2(b[0] % 32 - 24);
      assert head[1..1 + n] == b[1..1 + n];
    }
  }

  lemma HeadExtends(head: seq<Byte>, tail: seq<Byte>)
    requires IsHead(head)
    ensures ReadHead(head + tail) == Some(ReadHead(head).value.(rest := tail))
  {
    var b := head + tail;
    if b[0] % 32 >= 24 {
      var n := Pow2(b[0] % 32 - 24);
      assert b[1..1 + n] == head[1..1 + n];
      assert b[1 + n..] == tail;
    } else {
      assert head == [b[0]];
      assert b[1..] == tail;
    }
  }

  lemma ConsAll(t: Item, ts: seq<Item>)
    ensures AllWellFormed([t] + ts) <==> WellFormed(t) && AllWellFormed(ts)
    ensures FlattenAll([t] + ts) == Flatten(t) + FlattenAll(ts)
    ensures HeightAll([t] + ts) == Max(Height(t), HeightAll(ts))
    ensures SizeAll([t] + ts) == Size(t) + SizeAll(ts)
  {
    hide WellFormed, Flatten, Height, Size;
    assert ([t] + ts)[1..] == ts;
  }

  lemma WalkLeafSound(b: seq<Byte>, budget: nat) returns (t: Item)
    requires ReadHead(b).Some? && ReadHead(b).value.major !in {4, 5}
    requires WalkLeaf(ReadHead(b).value, budget).Ok?
    ensures WellFormed(t) && Height(t) == 0 && Size(t) == 1
    ensures b == Flatten(t) + WalkLeaf(ReadHead(b).value, budget).value.0
  {
    hide ReadHead;
    var head := HeadSplits(b);
    var h := ReadHead(b).value;
    if h.major == 2 || h.major == 3 {
      var payload := h.rest[..h.argument];
      t := Str(head, payload);
      assert head + h.rest == (head + payload) + h.rest[h.argument..];
    } else {
      t := Leaf(head);
    }
  }

  /** Whatever the walk accepts is an item of the grammar within the limits, and its cost is the
      number of items. */
  lemma {:induction false} WalkSound(b: seq<Byte>, depth: nat, budget: nat) returns (t: Item)
    requires Walk(b, depth, budget).Ok?
    ensures WellFormed(t)
    ensures b == Flatten(t) + Walk(b, depth, budget).value.0
    ensures depth + Height(t) <= MAX_DEPTH
    ensures Size(t) == budget - Walk(b, depth, budget).value.1
    decreases |b|, 0
  {
    hide ReadHead, WalkLeaf, WalkMany, FlattenAll, SizeAll, HeightAll, AllWellFormed;
    var h := ReadHead(b).value;
    if h.major != 4 && h.major != 5 {
      t := WalkLeafSound(b, budget - 1);
    } else {
      var head := HeadSplits(b);
      var ts := WalkManySound(h.rest, ChildCount(h), depth + 1, budget - 1);
      t := Container(head, ts);
      var rest := Walk(b, depth, budget).value.0;
      assert head + (FlattenAll(ts) + rest) == (head + FlattenAll(ts)) + rest;
    }
  }

  lemma {:induction false} WalkManySound(b: seq<Byte>, count: nat, depth: nat, budget: nat)
    returns (ts: seq<Item>)
    requires WalkMany(b, count, depth, budget).Ok?
    ensures |ts| == count && AllWellFormed(ts)
    ensures b == FlattenAll(ts) + WalkMany(b, count, depth, budget).value.0
    ensures ts != [] ==> depth + HeightAll(ts) <= MAX_DEPTH
    ensures SizeAll(ts) == budget - WalkMany(b, count, depth, budget).value.1
    decreases |b|, count + 1
  {
    hide Walk, WellFormed, Flatten, Height, Size;
    if count == 0 {
      ts := [];
      assert b == [] + b;
    } else {
      var t := WalkSound(b, depth, budget);
      var (rest, left) := Walk(b, depth, budget).value;
      var more := WalkManySound(rest, count - 1, depth, left);
      ConsAll(t, more);
      ts := [t] + more;
      var tail := WalkMany(b, count, depth, budget).value.0;
      assert Flatten(t) + (FlattenAll(more) + tail) == (Flatten(t) + FlattenAll(more)) + tail;
      assert more == [] ==> HeightAll(more) == 0;
    }
  }

  lemma {:induction false} ManyCost(ts: seq<Item>)
    requires AllWellFormed(ts)
    ensures |ts| <= SizeAll(ts) && |ts| <= |FlattenAll(ts)|
  {
    if ts != [] {
      ManyCost(ts[1..]);
    }
  }

  lemma WalkLeafComplete(t: Item, tail: seq<Byte>, budget: nat)
    requires WellFormed(t) && !t.Container?
    ensures var head := ReadHead(Flatten(t) + tail);
            && head.Some? && head.value.major !in {4, 5}
            && WalkLeaf(head.value, budget) == Ok((tail, budget))
  {
    hide ReadHead;
    match t {
      case Leaf(head) =>
        HeadExtends(head, tail);
      case Str(head, payload) =>
        assert (head + payload) + tail == head + (payload + tail);
        HeadExtends(head, payload + tail);
        assert (payload + tail)[|payload|..] == tail;
    }
  }

  /** The walk accepts every item of the grammar that fits the limits: the early comparisons of the
      child count with the budget and with the remaining length refuse nothing more. */
  lemma {:induction false} WalkComplete(t: Item, tail: seq<Byte>, depth: nat, budget: nat)
    requires WellFormed(t) && depth + Height(t) <= MAX_DEPTH && Size(t) <= budget < WORD
    ensures Walk(Flatten(t) + tail, depth, budget) == Ok((tail, budget - Size(t)))
    decreases t, 1
  {
    hide ReadHead, WalkLeaf, WalkMany, FlattenAll, SizeAll, HeightAll, AllWellFormed;
    if t.Container? {
      var ts := t.children;
      var more := FlattenAll(ts) + tail;
      assert (t.head + FlattenAll(ts)) + tail == t.head + more;
      HeadExtends(t.head, more);
      ManyCost(ts);
      WalkManyComplete(ts, tail, depth + 1, budget - 1);
    } else {
      WalkLeafComplete(t, tail, budget - 1);
    }
  }

  lemma {:induction false} WalkManyComplete(ts: seq<Item>, tail: seq<Byte>, depth: nat, budget: nat)
    requires AllWellFormed(ts) && (ts != [] ==> depth + HeightAll(ts) <= MAX_DEPTH)
    requires SizeAll(ts) <= budget < WORD
    ensures WalkMany(FlattenAll(ts) + tail, |ts|, depth, budget) == Ok((tail, budget - SizeAll(ts)))
    decreases ts, 0
  {
    hide Walk, WellFormed, Flatten, Height, Size;
    if ts == [] {
      assert FlattenAll(ts) + tail == tail;
    } else {
      var more := FlattenAll(ts[1..]) + tail;
      WalkComplete(ts[0], more, depth, budget);
      assert (Flatten(ts[0]) + FlattenAll(ts[1..])) + tail == Flatten(ts[0]) + more;
      WalkManyComplete(ts[1..], tail, depth, budget - Size(ts[0]));
    }
  }

  /** `preflight` as a function of the whole input. */
  function Verdict(input: seq<Byte>): Check {
    match Walk(input, 0, MAX_ITEMS)
    case Ok((rest, _)) => Ensure(rest == [])
    case Err(e) => Fail(e)
  }

  predicate Accepts(input: seq<Byte>) {
    Verdict(input).Pass?
  }

  /** Preflight accepts exactly the inputs that are one well-formed item within both limits. */
  lemma AcceptsExactly(input: seq<Byte>)
    ensures Accepts(input) <==> OneItem(input, MAX_DEPTH, MAX_ITEMS)
  {
    hide Walk, WellFormed, Flatten, Height, Size;
    if Accepts(input) {
      var t := WalkSound(input, 0, MAX_ITEMS);
      assert Flatten(t) + [] == Flatten(t);
    }
    forall t | WellFormed(t) && Flatten(t) == input && Height(t) <= MAX_DEPTH && Size(t) <= MAX_ITEMS
      ensures Accepts(input)
    {
      WalkComplete(t, [], 0, MAX_ITEMS);
      assert Flatten(t) + [] == input;
    }
  }

  // ----- the walk as it runs

  /** Reads the initial byte and its argument at `at`. */
  method HeadAt(input: seq<Byte>, at: nat) returns (r: Option<(nat, nat, nat, nat)>)
    requires at <= |input|
    ensures match ReadHead(input[at..])
            case None => r == None
            case Some(h) => && r.Some? && (r.value.0, r.value.1, r.value.2) == (h.major, h.info, h.argument)
                            && at < r.value.3 <= |input| && h.rest == input[r.value.3..]
  {
    if at == |input| {
      return None;
    }
    var head := input[at];
    var major, add := head / 32, head % 32;
    if add < 24 {
      return Some((major, add, add, at + 1));
    }
    if add > 27 {
      return None;
    }
    var n := Pow2(add - 24);
    var end := at + 1 + n;
    if end > |input| {
      return None;
    }
    assert input[at..][1..1 + n] == input[at + 1..end];
    assert input[at..][1 + n..] == input[end..];
    return Some((major, add, FromBE(input[at + 1..end]), end));
  }

  /** `item`: advances `at` past one item and spends the budget; both are returned on success. */
  method ItemStep(input: seq<Byte>, at: nat, depth: nat, budget: nat) returns (r: Result<(nat, nat)>)
    requires at <= |input|
    ensures match Walk(input[at..], depth, budget)
            case Ok((rest, left)) => r.Ok? && r.value.1 == left && at < r.value.0 <= |input| && rest == input[r.value.0..]
            case Err(e) => r == Err(e)
    decreases |input| - at, 0
  {
    hide ReadHead, WalkMany;
    if depth > MAX_DEPTH || budget == 0 {
      return Err(ResourceLimit);
    }
    var left := budget - 1;
    var head := HeadAt(input, at);
    if head.None? {
      return Err(InvalidData);
    }
    var (major, add, argument, pos) := head.value;
    if major <= 1 {
      return Ok((pos, left));
    } else if major <= 3 {
      if argument > |input| - pos {
        return Err(InvalidData);
      }
      return Ok((pos + argument, left));
    } else if major <= 5 {
      var count := if major == 5 then 2 * argument else argument;
      if count >= WORD {
        return Err(InvalidData);
      }
      if count > left {
        return Err(ResourceLimit);
      }
      if count > |input| - pos {
        return Err(InvalidData);
      }
      r := ChildrenStep(input, pos, count, depth + 1, left);
    } else if major == 7 && AcceptedSimple(add) {
      return Ok((pos, left));
    } else {
      return Err(InvalidData);
    }
  }

  /** The loop over the children of a container. */
  method ChildrenStep(input: seq<Byte>, start: nat, count: nat, depth: nat, budget: nat)
    returns (r: Result<(nat, nat)>)
    requires start <= |input|
    ensures match WalkMany(input[start..], count, depth, budget)
            case Ok((rest, left)) => r.Ok? && r.value.1 == left && start <= r.value.0 <= |input| && rest == input[r.value.0..]
            case Err(e) => r == Err(e)
    decreases |input| - start, 1
  {
    hide Walk;
    var at, left := start, budget;
    for i := 0 to count
      invariant start <= at <= |input|
      invariant WalkMany(input[start..], count, depth, budget) == WalkMany(input[at..], count - i, depth, left)
    {
      var step := ItemStep(input, at, depth, left);
      if step.Err? {
        return Err(step.error);
      }
      at, left := step.value.0, step.value.1;
    }
    return Ok((at, left));
  }

  /** `preflight` passes exactly on one well-formed item within both limits. */
  method Preflight(input: seq<Byte>) returns (verdict: Check)
    ensures verdict.Pass? <==> OneItem(input, MAX_DEPTH, MAX_ITEMS)
    ensures verdict == Verdict(input)
  {
    AcceptsExactly(input);
    var r := ItemStep(input, 0, 0, MAX_ITEMS);
    assert input[0..] == input;
    return if r.Err? then Fail(r.error) else Ensure(r.value.0 == |input|);
  }
}
