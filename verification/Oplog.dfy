/** The server's operation log of `server/src/oplog.rs`. */
module Oplog {
  import opened Results

  /** An operation: its identifier and the rest of its envelope. */
  datatype Op = Op(id: nat, payload: string)

  datatype Sequenced = Sequenced(seqno: nat, op: Op)

  datatype Appended = Appended(entry: Sequenced, inserted: bool)

  // ----- the log as a sequence: position `i` holds sequence number `i + 1`

  predicate DistinctIds(log: seq<Op>) { forall i, j :: 0 <= i < j < |log| ==> log[i].id != log[j].id }

  /** Where an identifier stands. */
  function Place(log: seq<Op>, id: nat): (r: Option<nat>)
    ensures match r
            case Some(i) => i < |log| && log[i].id == id
            case None => forall i :: 0 <= i < |log| ==> log[i].id != id
  {
    if log == [] then None
    else if log[|log| - 1].id == id then Some(|log| - 1)
    else Place(log[..|log| - 1], id)
  }

  /** One append: nothing for a known operation, refused for a reused identifier. */
  function Extend(log: seq<Op>, op: Op): Option<seq<Op>> {
    match Place(log, op.id)
    case Some(i) => if log[i] == op then Some(log) else None
    case None => Some(log + [op])
  }

  function ExtendAll(log: seq<Op>, ops: seq<Op>): Option<seq<Op>> {
    if ops == [] then Some(log)
    else
      match ExtendAll(log, ops[..|ops| - 1])
      case Some(l) => Extend(l, ops[|ops| - 1])
      case None => None
  }

  lemma PlaceIs(log: seq<Op>, i: nat)
    requires DistinctIds(log) && i < |log|
    ensures Place(log, log[i].id) == Some(i)
  {
  }

  lemma ExtendKeeps(log: seq<Op>, op: Op)
    requires DistinctIds(log) && Extend(log, op).Some?
    ensures DistinctIds(Extend(log, op).value) && log <= Extend(log, op).value && op in Extend(log, op).value
    ensures forall x :: x in Extend(log, op).value ==> x in log || x == op
  {
    var more := Extend(log, op).value;
    if more != log {
      assert more == log + [op] && op in more;
    }
  }

  /** Appending a batch only ever adds operations of the batch, behind what was there, and finds every one
      of them a place. */
  lemma {:induction false} ExtendAllKeeps(log: seq<Op>, ops: seq<Op>)
    requires DistinctIds(log) && ExtendAll(log, ops).Some?
    ensures DistinctIds(ExtendAll(log, ops).value) && log <= ExtendAll(log, ops).value
    ensures forall op :: op in ops ==> op in ExtendAll(log, ops).value
    ensures forall x :: x in ExtendAll(log, ops).value ==> x in log || x in ops
  {
    hide DistinctIds, Extend;
    if ops != [] {
      var front, last := ops[..|ops| - 1], ops[|ops| - 1];
      ExtendAllKeeps(log, front);
      var mid := ExtendAll(log, front).value;
      ExtendKeeps(mid, last);
      assert ops == front + [last];
      forall op | op in ops
        ensures op in ExtendAll(log, ops).value
      {
        if op in front {
          var i :| 0 <= i < |mid| && mid[i] == op;
          assert ExtendAll(log, ops).value[i] == op;
        }
      }
    }
  }

  /** Operations that are all in the log leave it as it is. */
  lemma {:induction false} KnownChangeNothing(log: seq<Op>, ops: seq<Op>)
    requires DistinctIds(log) && (forall op :: op in ops ==> op in log)
    ensures ExtendAll(log, ops) == Some(log)
  {
    if ops != [] {
      var front, last := ops[..|ops| - 1], ops[|ops| - 1];
      assert ops == front + [last];
      assert last in ops && forall op :: op in front ==> op in ops;
      KnownChangeNothing(log, front);
      var i :| 0 <= i < |log| && log[i] == last;
      PlaceIs(log, i);
    }
  }

  /** The entries after `since`, at most `limit`. */
  function Since(log: seq<Op>, since: nat, limit: nat): (r: seq<Sequenced>)
    ensures |r| == if since >= |log| then 0 else if |log| - since < limit then |log| - since else limit
    ensures forall k :: 0 <= k < |r| ==> since + k < |log| && r[k] == Sequenced(since + k + 1, log[since + k])
    decreases limit
  {
    if since >= |log| || limit == 0 then []
    else [Sequenced(since + 1, log[since])] + Since(log, since + 1, limit - 1)
  }

  // ----- the table

  function UpTo(n: nat): (s: set<nat>)
    ensures forall k :: k in s <==> 1 <= k <= n
    ensures |s| == n
  {
    if n == 0 then {} else UpTo(n - 1) + {n}
  }

  /** A set of positive numbers as large as its largest member has no gap. */
  lemma NoGap(s: set<nat>, m: nat)
    requires (forall k :: k in s ==> 1 <= k <= m) && |s| == m
    ensures s == UpTo(m)
  {
    assert s <= UpTo(m);
    if s != UpTo(m) {
      SmallerThan(s, UpTo(m));
    }
  }

  lemma LargestOfAll(s: set<nat>, m: nat)
    requires (forall k :: k in s ==> k <= m) && (m == 0 || m in s)
    ensures s == UpTo(|s|) ==> m == |s|
  {
    assert s == UpTo(|s|) && |s| > 0 ==> |s| in s;
  }

  lemma {:induction false} SmallerThan(a: set<nat>, b: set<nat>)
    requires a < b
    ensures |a| < |b|
    decreases |b|
  {
    var x :| x in b && x !in a;
    assert a <= b - {x};
    if a < b - {x} {
      SmallerThan(a, b - {x});
    } else {
      assert a == b - {x};
    }
  }

  /** The table holds the log: row `s` is entry `s - 1`, and there are no other rows. */
  ghost predicate Holds(rows: map<nat, Op>, log: seq<Op>) {
    && rows.Keys == UpTo(|log|)
    && (forall s :: 1 <= s <= |log| ==> rows[s] == log[s - 1])
    && DistinctIds(log)
  }

  lemma HoldsMore(rows: map<nat, Op>, log: seq<Op>, op: Op)
    requires Holds(rows, log) && Place(log, op.id) == None
    ensures Holds(rows[|log| + 1 := op], log + [op])
  {
    hide Place, DistinctIds, UpTo;
    var n, more, longer := |log| + 1, rows[|log| + 1 := op], log + [op];
    DistinctMore(log, op);
    assert more.Keys == rows.Keys + {n};
    assert more.Keys == UpTo(n);
    forall s | 1 <= s <= n
      ensures more[s] == longer[s - 1]
    {
      assert s < n ==> rows[s] == log[s - 1];
    }
  }

  lemma DistinctMore(log: seq<Op>, op: Op)
    requires DistinctIds(log) && Place(log, op.id) == None
    ensures DistinctIds(log + [op])
  {
  }

  lemma HoldsLess(rows: map<nat, Op>, log: seq<Op>)
    requires Holds(rows, log) && log != []
    ensures Holds(rows - {|log|}, log[..|log| - 1])
  {
    var less := rows - {|log|};
    assert less.Keys == UpTo(|log| - 1);
  }

  lemma HeldCount(rows: map<nat, Op>, log: seq<Op>)
    requires Holds(rows, log)
    ensures |rows| == |log| && (log != [] ==> |log| in rows)
    ensures forall s :: s in rows <==> 1 <= s <= |log|
  {
    assert |rows| == |rows.Keys|;
  }

  lemma HeldAt(rows: map<nat, Op>, log: seq<Op>, s: nat)
    requires Holds(rows, log) && s in rows
    ensures 1 <= s <= |log| && rows[s] == log[s - 1] && DistinctIds(log)
  {
  }

  lemma NotPlaced(rows: map<nat, Op>, log: seq<Op>, id: nat)
    requires Holds(rows, log) && forall s :: s in rows ==> rows[s].id != id
    ensures Place(log, id) == None
  {
    HeldCount(rows, log);
    forall i | 0 <= i < |log|
      ensures log[i].id != id
    {
      assert rows[i + 1] == log[i];
    }
  }

  /** What an append reports of the new log. */
  ghost predicate Reports(before: seq<Op>, after: seq<Op>, op: Op, r: Appended) {
    && r.entry.op == op && 1 <= r.entry.seqno <= |after| && after[r.entry.seqno - 1] == op
    && (if r.inserted then after == before + [op] && r.entry.seqno == |after| else after == before)
  }

  class Oplog {
    var rows: map<nat, Op>
    ghost var log: seq<Op>

    constructor ()
      ensures Valid() && log == []
    {
      rows, log := map[], [];
    }

    ghost predicate Valid()
      reads this
    {
      Holds(rows, log)
    }

    /** `COALESCE(MAX(seq), 0)`. */
    method LatestSeq() returns (m: nat)
      ensures (forall s :: s in rows ==> s <= m) && (m == 0 || m in rows)
      ensures Valid() ==> m == |log|
    {
      hide Holds;
      m := 0;
      var todo := rows.Keys;
      while todo != {}
        invariant todo <= rows.Keys && (m == 0 || m in rows)
        invariant forall s :: s in rows && s !in todo ==> s <= m
      {
        var s :| s in todo;
        if s > m {
          m := s;
        }
        todo := todo - {s};
      }
      if Valid() {
        HeldCount(rows, log);
      }
    }

    /** `assert_gapless`: comparing the count with the maximum finds every gap. */
    method AssertGapless() returns (ok: bool)
      requires forall s :: s in rows ==> s > 0
      ensures ok <==> rows.Keys == UpTo(|rows|)
    {
      var m := LatestSeq();
      ok := |rows| == m;
      assert |rows| == |rows.Keys|;
      LargestOfAll(rows.Keys, m);
      if ok {
        NoGap(rows.Keys, m);
      }
    }

    method Lookup(id: nat) returns (r: Option<nat>)
      ensures match r
              case Some(s) => s in rows && rows[s].id == id
              case None => forall s :: s in rows ==> rows[s].id != id
    {
      var todo := rows.Keys;
      while todo != {}
        invariant todo <= rows.Keys
        invariant forall s :: s in rows && s !in todo ==> rows[s].id != id
      {
        var s :| s in todo;
        if rows[s].id == id {
          return Some(s);
        }
        todo := todo - {s};
      }
      r := None;
    }

    /** `append`; nothing for an identifier reused with another payload. */
    method Append(op: Op) returns (r: Option<Appended>)
      requires Valid()
      modifies this
      ensures Valid() && (r.Some? <==> Extend(old(log), op).Some?)
      ensures r.Some? ==> Extend(old(log), op) == Some(log) && Reports(old(log), log, op, r.value)
      ensures r.None? ==> log == old(log)
    {
      hide Place, DistinctIds, Holds, UpTo;
      var known := Lookup(op.id);
      HeldCount(rows, log);
      if known.Some? {
        HeldAt(rows, log, known.value);
        PlaceIs(log, known.value - 1);
        if rows[known.value] != op {
          return None;
        }
        return Some(Appended(Sequenced(known.value, op), false));
      }
      NotPlaced(rows, log, op.id);
      HoldsMore(rows, log, op);
      var seqno := LatestSeq();
      seqno := seqno + 1;
      rows := rows[seqno := op];
      log := log + [op];
      r := Some(Appended(Sequenced(seqno, op), true));
    }

    /** `remove_tail`: refused unless the entry is the last. */
    method RemoveTail(entry: Sequenced) returns (ok: bool)
      requires Valid() && entry.seqno > 0
      modifies this
      ensures Valid() && (ok <==> entry.seqno == |old(log)|)
      ensures log == if ok && old(log)[|old(log)| - 1].id == entry.op.id then old(log)[..|old(log)| - 1] else old(log)
    {
      hide DistinctIds;
      var latest := LatestSeq();
      if latest != entry.seqno {
        return false;
      }
      HeldCount(rows, log);
      if latest in rows && rows[latest].id == entry.op.id {
        HoldsLess(rows, log);
        rows := rows - {latest};
        log := log[..|log| - 1];
      }
      ok := true;
    }

    /** `ops_since`. */
    method OpsSince(since: nat, limit: nat) returns (ops: seq<Sequenced>)
      requires Valid()
      ensures ops == Since(log, since, limit)
    {
      hide DistinctIds, Since;
      HeldCount(rows, log);
      ops := [];
      var s := since + 1;
      while s in rows && |ops| < limit
        invariant s == since + 1 + |ops| && |ops| <= limit
        invariant since + |ops| <= |log| || ops == []
        invariant forall k :: 0 <= k < |ops| ==> since + k < |log| && ops[k] == Sequenced(since + k + 1, log[since + k])
        decreases limit - |ops|
      {
        ops := ops + [Sequenced(s, rows[s])];
        s := s + 1;
      }
      var spec := Since(log, since, limit);
      assert |ops| == |spec|;
    }
  }
}
