/** Ingest and replay of `server/src/state.rs`: the log, the replica it materialises into, and the channel
    that publishes accepted operations. */
module Ingest {
  import opened Results
  import opened Oplog

  const MAX_BATCH: nat := 256
  const REPLAY_BATCH_SIZE: nat := 1_000

  // ----- apply_sequenced_batch

  /** How operations change content: which are well-formed, and what each does, if it can be applied. */
  datatype Rules<!S> = Rules(valid: Op -> bool, apply: (S, Op) -> Option<S>)

  /** A notes replica: how far it has followed the log, the identifiers it has applied, each with its
      sequence number once it has one, and its content. */
  datatype Replica<S> = Replica(cursor: nat, applied: map<nat, Option<nat>>, content: S)

  function ApplyOne<S>(rules: Rules<S>, r: Replica<S>, e: Sequenced): Option<Replica<S>> {
    if e.seqno <= r.cursor then
      if exists id :: id in r.applied && r.applied[id] == Some(e.seqno) && id != e.op.id then None else Some(r)
    else if e.seqno != r.cursor + 1 then None
    else if e.op.id in r.applied then
      if r.applied[e.op.id].Some? && r.applied[e.op.id].value != e.seqno then None
      else Some(Replica(e.seqno, r.applied[e.op.id := Some(e.seqno)], r.content))
    else
      match rules.apply(r.content, e.op)
      case Some(content) => Some(Replica(e.seqno, r.applied[e.op.id := Some(e.seqno)], content))
      case None => None
  }

  function ApplyAll<S>(rules: Rules<S>, r: Replica<S>, es: seq<Sequenced>): Option<Replica<S>> {
    if es == [] then Some(r)
    else
      match ApplyAll(rules, r, es[..|es| - 1])
      case Some(m) => ApplyOne(rules, m, es[|es| - 1])
      case None => None
  }

  predicate AllValid<S>(rules: Rules<S>, es: seq<Sequenced>) { forall e :: e in es ==> rules.valid(e.op) }

  /** A batch is one transaction: all of it or nothing. */
  function ApplyBatch<S>(rules: Rules<S>, r: Replica<S>, es: seq<Sequenced>): Option<Replica<S>> {
    if AllValid(rules, es) then ApplyAll(rules, r, es) else None
  }

  lemma {:induction false} ApplyAppend<S>(rules: Rules<S>, r: Replica<S>, a: seq<Sequenced>, b: seq<Sequenced>)
    ensures ApplyAll(rules, r, a + b)
         == match ApplyAll(rules, r, a) case Some(m) => ApplyAll(rules, m, b) case None => None
    decreases |b|
  {
    if b == [] {
      assert a + b == a;
    } else {
      assert (a + b)[..|a + b| - 1] == a + b[..|b| - 1];
      ApplyAppend(rules, r, a, b[..|b| - 1]);
    }
  }

  lemma BatchAppend<S>(rules: Rules<S>, r: Replica<S>, a: seq<Sequenced>, b: seq<Sequenced>)
    ensures ApplyBatch(rules, r, a + b)
         == match ApplyBatch(rules, r, a) case Some(m) => ApplyBatch(rules, m, b) case None => None
  {
    hide ApplyAll;
    ApplyAppend(rules, r, a, b);
    assert forall e :: e in a + b <==> e in a || e in b;
  }

  // ----- log and replica

  /** The replica has followed a prefix of the log, and knows its sequence numbers and no others. */
  ghost predicate Follows<S>(r: Replica<S>, log: seq<Op>) {
    r.cursor <= |log| && Knows(r.applied, log, r.cursor) && KnowsOnly(r.applied, log, r.cursor)
  }

  ghost predicate Knows(applied: map<nat, Option<nat>>, log: seq<Op>, n: nat)
    requires n <= |log|
  {
    forall k :: 0 <= k < n ==> log[k].id in applied && applied[log[k].id] == Some(k + 1)
  }

  ghost predicate KnowsOnly(applied: map<nat, Option<nat>>, log: seq<Op>, n: nat)
    requires n <= |log|
  {
    forall id :: id in applied && applied[id].Some? ==> 1 <= applied[id].value <= n && log[applied[id].value - 1].id == id
  }

  lemma FollowsNext<S>(r: Replica<S>, log: seq<Op>, content: S)
    requires DistinctIds(log) && Follows(r, log) && r.cursor < |log|
    ensures Follows(Replica(r.cursor + 1, r.applied[log[r.cursor].id := Some(r.cursor + 1)], content), log)
  {
    hide DistinctIds, Knows, KnowsOnly;
    OwnId(log, r.cursor);
    KnowsNext(r.applied, log, r.cursor);
    KnowsOnlyNext(r.applied, log, r.cursor);
  }

  lemma OwnId(log: seq<Op>, c: nat)
    requires DistinctIds(log) && c < |log|
    ensures forall k :: 0 <= k < |log| && k != c ==> log[k].id != log[c].id
  {
  }

  lemma KnowsNext(applied: map<nat, Option<nat>>, log: seq<Op>, n: nat)
    requires n < |log| && Knows(applied, log, n)
    requires forall k :: 0 <= k < |log| && k != n ==> log[k].id != log[n].id
    ensures Knows(applied[log[n].id := Some(n + 1)], log, n + 1)
  {
  }

  lemma KnowsOnlyNext(applied: map<nat, Option<nat>>, log: seq<Op>, n: nat)
    requires n < |log| && KnowsOnly(applied, log, n)
    ensures KnowsOnly(applied[log[n].id := Some(n + 1)], log, n + 1)
  {
  }

  /** An entry of the log is applied to a replica that follows it only as a repetition or as the next. */
  lemma FollowsOne<S>(rules: Rules<S>, r: Replica<S>, log: seq<Op>, e: Sequenced)
    requires DistinctIds(log) && Follows(r, log) && 1 <= e.seqno <= |log| && log[e.seqno - 1] == e.op
    requires ApplyOne(rules, r, e).Some?
    ensures Follows(ApplyOne(rules, r, e).value, log)
    ensures ApplyOne(rules, r, e).value.cursor == if e.seqno <= r.cursor then r.cursor else e.seqno
    ensures e.seqno <= r.cursor ==> ApplyOne(rules, r, e) == Some(r)
  {
    hide Follows, DistinctIds;
    if e.seqno > r.cursor {
      FollowsNext(r, log, ApplyOne(rules, r, e).value.content);
    }
  }

  /** Applying an entry once more changes nothing. */
  lemma RepeatedOne<S>(rules: Rules<S>, r: Replica<S>, log: seq<Op>, e: Sequenced)
    requires DistinctIds(log) && Follows(r, log) && 1 <= e.seqno <= r.cursor && log[e.seqno - 1] == e.op
    ensures ApplyOne(rules, r, e) == Some(r)
  {
  }

  ghost predicate FromLog(es: seq<Sequenced>, log: seq<Op>) {
    forall i :: 0 <= i < |es| ==> 1 <= es[i].seqno <= |log| && log[es[i].seqno - 1] == es[i].op
  }

  lemma {:induction false} FollowsAll<S>(rules: Rules<S>, r: Replica<S>, log: seq<Op>, es: seq<Sequenced>)
    requires DistinctIds(log) && Follows(r, log) && FromLog(es, log) && ApplyAll(rules, r, es).Some?
    ensures Follows(ApplyAll(rules, r, es).value, log) && ApplyAll(rules, r, es).value.cursor >= r.cursor
    ensures forall i :: 0 <= i < |es| ==> es[i].seqno <= ApplyAll(rules, r, es).value.cursor
    ensures (forall i :: 0 <= i < |es| ==> es[i].seqno <= r.cursor) ==> ApplyAll(rules, r, es) == Some(r)
  {
    hide Follows, ApplyOne, DistinctIds;
    if es != [] {
      var front := es[..|es| - 1];
      FollowsAll(rules, r, log, front);
      FollowsOne(rules, ApplyAll(rules, r, front).value, log, es[|es| - 1]);
      forall i | 0 <= i < |es|
        ensures es[i].seqno <= ApplyAll(rules, r, es).value.cursor
      {
        if i < |front| {
          assert front[i] == es[i];
        }
      }
    }
  }

  lemma {:induction false} RepeatedAll<S>(rules: Rules<S>, r: Replica<S>, log: seq<Op>, es: seq<Sequenced>)
    requires DistinctIds(log) && Follows(r, log) && FromLog(es, log) && forall i :: 0 <= i < |es| ==> es[i].seqno <= r.cursor
    ensures ApplyAll(rules, r, es) == Some(r)
  {
    hide Follows, ApplyOne, DistinctIds;
    if es != [] {
      RepeatedAll(rules, r, log, es[..|es| - 1]);
      RepeatedOne(rules, r, log, es[|es| - 1]);
    }
  }

  /** A longer log changes nothing for a replica that follows its beginning. */
  lemma FollowsLonger<S>(r: Replica<S>, log: seq<Op>, more: seq<Op>)
    requires Follows(r, log) && log <= more
    ensures Follows(r, more)
  {
    hide Knows, KnowsOnly;
    SameFront(log, more);
    KnowsLonger(r.applied, log, more, r.cursor);
    KnowsOnlyLonger(r.applied, log, more, r.cursor);
  }

  lemma SameFront(log: seq<Op>, more: seq<Op>)
    requires log <= more
    ensures forall k :: 0 <= k < |log| ==> log[k] == more[k]
  {
  }

  lemma KnowsLonger(applied: map<nat, Option<nat>>, log: seq<Op>, more: seq<Op>, n: nat)
    requires n <= |log| <= |more| && Knows(applied, log, n) && forall k :: 0 <= k < |log| ==> log[k] == more[k]
    ensures Knows(applied, more, n)
  {
    forall k | 0 <= k < n
      ensures more[k].id in applied && applied[more[k].id] == Some(k + 1)
    {
      assert log[k] == more[k];
    }
  }

  lemma KnowsOnlyLonger(applied: map<nat, Option<nat>>, log: seq<Op>, more: seq<Op>, n: nat)
    requires n <= |log| <= |more| && KnowsOnly(applied, log, n) && forall k :: 0 <= k < |log| ==> log[k] == more[k]
    ensures KnowsOnly(applied, more, n)
  {
    forall id | id in applied && applied[id].Some?
      ensures 1 <= applied[id].value <= n && more[applied[id].value - 1].id == id
    {
      assert log[applied[id].value - 1] == more[applied[id].value - 1];
    }
  }

  // ----- ingest_operations

  /** The batch with the sequence number each operation has in the log. */
  function Numbered(log: seq<Op>, ops: seq<Op>): seq<Sequenced> {
    if ops == [] then []
    else
      var op := ops[|ops| - 1];
      Numbered(log, ops[..|ops| - 1]) + [Sequenced(match Place(log, op.id) case Some(i) => i + 1 case None => 0, op)]
  }

  lemma {:induction false} NumberedIs(log: seq<Op>, ops: seq<Op>)
    requires DistinctIds(log) && forall op :: op in ops ==> op in log
    ensures |Numbered(log, ops)| == |ops| && FromLog(Numbered(log, ops), log)
    ensures forall i :: 0 <= i < |ops| ==> Numbered(log, ops)[i].op == ops[i]
  {
    hide DistinctIds;
    if ops != [] {
      var front, last := ops[..|ops| - 1], ops[|ops| - 1];
      assert ops == front + [last] && last in ops;
      NumberedIs(log, front);
      var i :| 0 <= i < |log| && log[i] == last;
      PlaceIs(log, i);
    }
  }

  /** A number, once given, is not given again: the same in every longer log. */
  lemma {:induction false} NumberedLonger(log: seq<Op>, more: seq<Op>, ops: seq<Op>)
    requires DistinctIds(more) && log <= more && forall op :: op in ops ==> op in log
    ensures Numbered(more, ops) == Numbered(log, ops)
  {
    if ops != [] {
      var front, last := ops[..|ops| - 1], ops[|ops| - 1];
      assert ops == front + [last] && last in ops;
      NumberedLonger(log, more, front);
      var i :| 0 <= i < |log| && log[i] == last;
      assert more[i] == last;
      PlaceIs(more, i);
      PlaceIs(log, i);
    }
  }

  /** What a batch does: the new log and replica, or nothing at all. */
  function Taken<S>(rules: Rules<S>, log: seq<Op>, r: Replica<S>, ops: seq<Op>): Option<(seq<Op>, Replica<S>)> {
    if |ops| > MAX_BATCH then None
    else
      match ExtendAll(log, ops)
      case None => None
      case Some(l) =>
        match ApplyBatch(rules, r, Numbered(l, ops))
        case Some(n) => Some((l, n))
        case None => None
  }

  /** The log and the replica it has been materialised into. */
  ghost predicate InStep<S>(log: seq<Op>, r: Replica<S>) { DistinctIds(log) && Follows(r, log) && r.cursor == |log| }

  lemma TakenKeeps<S>(rules: Rules<S>, log: seq<Op>, r: Replica<S>, ops: seq<Op>)
    requires InStep(log, r) && Taken(rules, log, r, ops).Some?
    ensures var (l, n) := Taken(rules, log, r, ops).value;
      InStep(l, n) && log <= l && (forall x :: x in l ==> x in log || x in ops) && (forall op :: op in ops ==> op in l)
  {
    hide Follows, ApplyAll, DistinctIds, Numbered;
    ExtendAllKeeps(log, ops);
    var l := ExtendAll(log, ops).value;
    NumberedIs(l, ops);
    FollowsLonger(r, log, l);
    FollowsAll(rules, r, l, Numbered(l, ops));
    var n := ApplyAll(rules, r, Numbered(l, ops)).value;
    Reached(log, l, ops, n);
  }

  /** New entries of the log are operations of the batch, so the replica has reached the last of them. */
  lemma Reached<S>(log: seq<Op>, l: seq<Op>, ops: seq<Op>, n: Replica<S>)
    requires DistinctIds(l) && log <= l && (forall x :: x in l ==> x in log || x in ops) && (forall op :: op in ops ==> op in l)
    requires Follows(n, l) && n.cursor >= |log|
    requires |Numbered(l, ops)| == |ops| && forall i :: 0 <= i < |ops| ==> Numbered(l, ops)[i].seqno <= n.cursor
    ensures n.cursor == |l|
  {
    if |l| > |log| {
      var last := l[|l| - 1];
      assert last in l;
      assert forall j :: 0 <= j < |log| ==> log[j] == l[j] && l[j].id != last.id;
      var i :| 0 <= i < |ops| && ops[i] == last;
      NumberedAt(l, ops, i);
      PlaceIs(l, |l| - 1);
    }
  }

  lemma {:induction false} NumberedAt(log: seq<Op>, ops: seq<Op>, i: nat)
    requires i < |ops|
    ensures |Numbered(log, ops)| == |ops|
    ensures Numbered(log, ops)[i] == Sequenced(match Place(log, ops[i].id) case Some(k) => k + 1 case None => 0, ops[i])
  {
    hide Place;
    var front := ops[..|ops| - 1];
    if i < |front| {
      NumberedAt(log, front, i);
    } else if front != [] {
      NumberedAt(log, front, 0);
    }
  }

  /** Taking a batch again changes nothing and numbers it the same. */
  lemma TakenAgain<S>(rules: Rules<S>, log: seq<Op>, r: Replica<S>, ops: seq<Op>)
    requires InStep(log, r) && Taken(rules, log, r, ops).Some?
    ensures var (l, n) := Taken(rules, log, r, ops).value; Taken(rules, l, n, ops) == Some((l, n))
  {
    hide Follows, ApplyAll, DistinctIds, Numbered;
    TakenKeeps(rules, log, r, ops);
    var (l, n) := Taken(rules, log, r, ops).value;
    KnownChangeNothing(l, ops);
    NumberedIs(l, ops);
    RepeatedAll(rules, n, l, Numbered(l, ops));
  }

  // ----- runs of batches

  datatype State<S> = State(log: seq<Op>, replica: Replica<S>)

  /** The state after a batch, accepted or not. */
  function Step<S>(rules: Rules<S>, s: State<S>, ops: seq<Op>): State<S> {
    match Taken(rules, s.log, s.replica, ops)
    case Some(t) => State(t.0, t.1)
    case None => s
  }

  function Run<S>(rules: Rules<S>, s: State<S>, batches: seq<seq<Op>>): State<S> {
    if batches == [] then s else Step(rules, Run(rules, s, batches[..|batches| - 1]), batches[|batches| - 1])
  }

  /** Over every run the identifiers in the log stay distinct, the replica stays in step with it, and the
      log only grows at its end, so no operation ever changes its number. */
  lemma {:induction false} RunsKeep<S>(rules: Rules<S>, s: State<S>, batches: seq<seq<Op>>)
    requires InStep(s.log, s.replica)
    ensures InStep(Run(rules, s, batches).log, Run(rules, s, batches).replica) && s.log <= Run(rules, s, batches).log
    ensures forall ops :: (forall op :: op in ops ==> op in s.log) ==> Numbered(Run(rules, s, batches).log, ops) == Numbered(s.log, ops)
  {
    hide InStep, Taken, Numbered;
    var end := Run(rules, s, batches);
    if batches != [] {
      var before := Run(rules, s, batches[..|batches| - 1]);
      RunsKeep(rules, s, batches[..|batches| - 1]);
      if Taken(rules, before.log, before.replica, batches[|batches| - 1]).Some? {
        TakenKeeps(rules, before.log, before.replica, batches[|batches| - 1]);
      }
    }
    forall ops | forall op :: op in ops ==> op in s.log
      ensures Numbered(end.log, ops) == Numbered(s.log, ops)
    {
      StepIds(end);
      NumberedLonger(s.log, end.log, ops);
    }
  }

  lemma StepIds<S>(s: State<S>)
    requires InStep(s.log, s.replica)
    ensures DistinctIds(s.log)
  {
  }

  // ----- replay_oplog

  lemma SinceAppend(log: seq<Op>, since: nat, k: nat, more: nat)
    requires since + k <= |log|
    ensures Since(log, since, k) + Since(log, since + k, more) == Since(log, since, k + more)
  {
  }

  lemma SinceSplit(log: seq<Op>, since: nat, k: nat)
    requires since + k <= |log|
    ensures Since(log, since, k) + Since(log, since + k, |log|) == Since(log, since, |log|)
  {
    SinceAppend(log, since, k, |log|);
    SinceWhole(log, since, k + |log|);
  }

  lemma SinceWhole(log: seq<Op>, since: nat, k: nat)
    requires since + k >= |log|
    ensures Since(log, since, k) == Since(log, since, |log|)
  {
  }

  /** A page continues what was applied; a page that fails, fails the whole. */
  lemma OnePageMore<S>(rules: Rules<S>, log: seq<Op>, start: Replica<S>, r: Replica<S>, k: nat, page: seq<Sequenced>)
    requires ApplyBatch(rules, start, Since(log, start.cursor, k)) == Some(r)
    requires start.cursor + k + |page| <= |log| && page == Since(log, start.cursor + k, |page|)
    ensures ApplyBatch(rules, start, Since(log, start.cursor, k + |page|)) == ApplyBatch(rules, r, page)
    ensures ApplyBatch(rules, r, page) == None ==> ApplyBatch(rules, start, Since(log, start.cursor, |log|)) == None
  {
    hide Since, ApplyBatch, ApplyAll, AllValid;
    var a, n := Since(log, start.cursor, k), k + |page|;
    SinceAppend(log, start.cursor, k, |page|);
    BatchAppend(rules, start, a, page);
    var b, rest := Since(log, start.cursor, n), Since(log, start.cursor + n, |log|);
    SinceSplit(log, start.cursor, n);
    BatchAppend(rules, start, b, rest);
  }

  /** The paging loop: it succeeds exactly when one application of everything after the replica's cursor
      would, and with the same result. */
  method Replay<S>(rules: Rules<S>, oplog: Oplog, start: Replica<S>) returns (ok: bool, r: Replica<S>)
    requires oplog.Valid()
    ensures ok <==> ApplyBatch(rules, start, Since(oplog.log, start.cursor, |oplog.log|)).Some?
    ensures ok ==> ApplyBatch(rules, start, Since(oplog.log, start.cursor, |oplog.log|)) == Some(r)
  {
    hide Since, ApplyBatch, Holds, ApplyAll, AllValid;
    ghost var log := oplog.log;
    r := start;
    var cursor := start.cursor;
    ghost var k: nat := 0;
    NothingYet(rules, log, start);
    while true
      invariant cursor == start.cursor + k && (k > 0 ==> cursor <= |log|)
      invariant ApplyBatch(rules, start, Since(log, start.cursor, k)) == Some(r)
      decreases |log| - cursor, 0
    {
      var page := oplog.OpsSince(cursor, REPLAY_BATCH_SIZE);
      if page == [] {
        SinceWhole(log, start.cursor, k);
        return true, r;
      }
      var next := ApplyBatch(rules, r, page);
      PageIs(log, cursor, page);
      OnePageMore(rules, log, start, r, k, page);
      if next.None? {
        return false, r;
      }
      cursor := page[|page| - 1].seqno;
      r := next.value;
      k := k + |page|;
    }
  }

  lemma NothingYet<S>(rules: Rules<S>, log: seq<Op>, start: Replica<S>)
    ensures ApplyBatch(rules, start, Since(log, start.cursor, 0)) == Some(start)
  {
  }

  lemma PageIs(log: seq<Op>, since: nat, page: seq<Sequenced>)
    requires page == Since(log, since, REPLAY_BATCH_SIZE) && page != []
    ensures since + |page| <= |log| && page == Since(log, since, |page|) && page[|page| - 1].seqno == since + |page|
  {
  }

  /** Replaying from a cursor in the middle, or from the start, ends in the same state. */
  lemma ReplayFromAnywhere<S>(rules: Rules<S>, log: seq<Op>, start: Replica<S>, middle: Replica<S>)
    requires start.cursor <= middle.cursor <= |log|
    requires ApplyBatch(rules, start, Since(log, start.cursor, middle.cursor - start.cursor)) == Some(middle)
    ensures ApplyBatch(rules, start, Since(log, start.cursor, |log|)) == ApplyBatch(rules, middle, Since(log, middle.cursor, |log|))
  {
    hide Since, ApplyBatch, ApplyAll, AllValid;
    var k := middle.cursor - start.cursor;
    var a, b := Since(log, start.cursor, k), Since(log, middle.cursor, |log|);
    SinceSplit(log, start.cursor, k);
    BatchAppend(rules, start, a, b);
  }

  // ----- the appends of a batch

  lemma {:induction false} ExtendFront(log: seq<Op>, ops: seq<Op>, k: nat)
    requires k <= |ops| && DistinctIds(log)
    ensures ExtendAll(log, ops).Some? ==> ExtendAll(log, ops[..k]).Some? && ExtendAll(log, ops[..k]).value <= ExtendAll(log, ops).value
    decreases |ops|
  {
    hide Extend, DistinctIds;
    if k < |ops| {
      var front := ops[..|ops| - 1];
      assert front[..k] == ops[..k];
      ExtendFront(log, front, k);
      if ExtendAll(log, ops).Some? {
        ExtendAllKeeps(log, front);
        ExtendKeeps(ExtendAll(log, front).value, ops[|ops| - 1]);
      }
    } else {
      assert ops[..k] == ops;
    }
  }

  /** Append `k` of the batch took the log one step, and reported it. */
  ghost predicate Reported(before: seq<Op>, ops: seq<Op>, appends: seq<Appended>, k: nat)
    requires k < |appends| <= |ops|
  {
    var l, m := ExtendAll(before, ops[..k]), ExtendAll(before, ops[..k + 1]);
    l.Some? && m.Some? && Reports(l.value, m.value, ops[k], appends[k])
  }

  ghost predicate AllReported(before: seq<Op>, ops: seq<Op>, appends: seq<Appended>) {
    |appends| <= |ops| && forall k :: 0 <= k < |appends| ==> Reported(before, ops, appends, k)
  }

  lemma ExtendNext(log: seq<Op>, ops: seq<Op>, k: nat)
    requires k < |ops|
    ensures ExtendAll(log, ops[..k + 1])
         == match ExtendAll(log, ops[..k]) case Some(l) => Extend(l, ops[k]) case None => None
  {
    assert ops[..k + 1][..k] == ops[..k];
  }

  function Entries(appends: seq<Appended>): (es: seq<Sequenced>)
    ensures |es| == |appends| && forall i :: 0 <= i < |appends| ==> es[i] == appends[i].entry
  {
    if appends == [] then [] else Entries(appends[..|appends| - 1]) + [appends[|appends| - 1].entry]
  }

  /** The reported sequence numbers are those of the final log. */
  lemma EntriesNumbered(before: seq<Op>, log: seq<Op>, ops: seq<Op>, appends: seq<Appended>)
    requires DistinctIds(before) && ExtendAll(before, ops) == Some(log) && |appends| == |ops| && AllReported(before, ops, appends)
    ensures Entries(appends) == Numbered(log, ops)
  {
    hide DistinctIds, ExtendAll, Place;
    ExtendAllKeeps(before, ops);
    if ops != [] {
      NumberedAt(log, ops, 0);
    }
    forall k | 0 <= k < |ops|
      ensures Entries(appends)[k] == Numbered(log, ops)[k]
    {
      assert Reported(before, ops, appends, k);
      ExtendFront(before, ops, k + 1);
      var s := appends[k].entry.seqno;
      assert log[s - 1] == ops[k];
      PlaceIs(log, s - 1);
      NumberedAt(log, ops, k);
    }
  }

  lemma SinceMore(log: seq<Op>, op: Op, n: nat)
    requires n <= |log|
    ensures Since(log + [op], n, |log| + 1) == Since(log, n, |log|) + [Sequenced(|log| + 1, op)]
  {
  }

  lemma SinceNone(log: seq<Op>)
    ensures Since(log, |log|, |log|) == []
  {
  }

  // ----- the actor

  /** What an ingest does to the log, the replica and the channel, and what it answers. */
  ghost predicate Ingested<S>(rules: Rules<S>, log: seq<Op>, r: Replica<S>, sent: seq<Sequenced>, ops: seq<Op>,
                              after: seq<Op>, next: Replica<S>, nowSent: seq<Sequenced>, accepted: Option<seq<Sequenced>>) {
    match Taken(rules, log, r, ops)
    case None => after == log && next == r && nowSent == sent && accepted == None
    case Some(t) => after == t.0 && next == t.1 && nowSent == sent + Since(t.0, |log|, |t.0|) && accepted == Some(Numbered(t.0, ops))
  }

  class Server<S(!new)> {
    const rules: Rules<S>
    const oplog: Oplog
    var replica: Replica<S>
    /** Everything sent to the broadcast channel, in order. */
    var published: seq<Sequenced>

    constructor (rules: Rules<S>, content: S)
      ensures Valid() && fresh(oplog) && oplog.log == [] && replica == Replica(0, map[], content) && published == []
    {
      this.rules := rules;
      oplog := new Oplog();
      replica := Replica(0, map[], content);
      published := [];
    }

    ghost predicate Valid()
      reads this, oplog
    {
      oplog.Valid() && InStep(oplog.log, replica)
    }

    /** The append loop; stops at an operation that cannot be appended. */
    method AppendAll(ops: seq<Op>) returns (appends: seq<Appended>)
      requires oplog.Valid() && DistinctIds(oplog.log)
      modifies oplog
      ensures oplog.Valid() && AllReported(old(oplog.log), ops, appends)
      ensures ExtendAll(old(oplog.log), ops[..|appends|]) == Some(oplog.log)
      ensures |appends| < |ops| ==> ExtendAll(old(oplog.log), ops) == None
    {
      hide ExtendAll, Extend, Holds, DistinctIds, Reports;
      ghost var before := oplog.log;
      appends := [];
      NothingExtended(before, ops);
      for i := 0 to |ops|
        invariant |appends| == i && oplog.Valid() && AllReported(before, ops, appends)
        invariant ExtendAll(before, ops[..i]) == Some(oplog.log)
      {
        ExtendNext(before, ops, i);
        var r := oplog.Append(ops[i]);
        if r.None? {
          ExtendFront(before, ops, i + 1);
          return;
        }
        ghost var was := appends;
        appends := appends + [r.value];
        forall k | 0 <= k < |appends|
          ensures Reported(before, ops, appends, k)
        {
          assert k < |was| ==> Reported(before, ops, was, k);
        }
      }
    }

    /** The rollback: entries that were inserted go, newest first, and each of them is the tail by then. */
    method RollBack(appends: seq<Appended>, ghost before: seq<Op>, ghost ops: seq<Op>)
      requires oplog.Valid() && AllReported(before, ops, appends) && ExtendAll(before, ops[..|appends|]) == Some(oplog.log)
      modifies oplog
      ensures oplog.Valid() && oplog.log == before
    {
      hide ExtendAll, Holds;
      var i := |appends|;
      while i > 0
        invariant 0 <= i <= |appends| && oplog.Valid() && ExtendAll(before, ops[..i]) == Some(oplog.log)
      {
        i := i - 1;
        assert Reported(before, ops, appends, i);
        if appends[i].inserted {
          ghost var l := ExtendAll(before, ops[..i]).value;
          assert oplog.log == l + [ops[i]];
          var ok := oplog.RemoveTail(appends[i].entry);
          assert ok && (l + [ops[i]])[..|l|] == l;
        }
      }
      NothingExtended(before, ops);
    }

    /** The loop over accepted operations: new ones are published, in log order. */
    method Publish(appends: seq<Appended>, ghost before: seq<Op>, ghost ops: seq<Op>)
      requires AllReported(before, ops, appends) && |appends| == |ops| && ExtendAll(before, ops).Some? && DistinctIds(before)
      modifies this`published
      ensures published == old(published) + Since(ExtendAll(before, ops).value, |before|, |ExtendAll(before, ops).value|)
    {
      hide ExtendAll, DistinctIds, Since;
      NothingExtended(before, ops);
      SinceNone(before);
      for i := 0 to |appends|
        invariant ExtendAll(before, ops[..i]).Some?
        invariant published == old(published) + Since(ExtendAll(before, ops[..i]).value, |before|, |ExtendAll(before, ops[..i]).value|)
      {
        assert Reported(before, ops, appends, i);
        ghost var l := ExtendAll(before, ops[..i]).value;
        ExtendAllKeeps(before, ops[..i]);
        SinceMore(l, ops[i], |before|);
        if appends[i].inserted {
          published := published + [appends[i].entry];
        }
      }
      assert ops[..|ops|] == ops;
    }

    /** `ingest_operations`: all of the batch or none of it. */
    method IngestOperations(ops: seq<Op>) returns (accepted: Option<seq<Sequenced>>)
      requires Valid()
      modifies this, oplog
      ensures Valid()
      ensures Ingested(rules, old(oplog.log), old(replica), old(published), ops, oplog.log, replica, published, accepted)
    {
      hide ExtendAll, DistinctIds, Since, ApplyBatch, Numbered, Follows, Holds, AllReported;
      if |ops| > MAX_BATCH {
        return None;
      }
      ghost var before := oplog.log;
      var appends := AppendAll(ops);
      if |appends| < |ops| {
        RollBack(appends, before, ops);
        return None;
      }
      assert |appends| == |ops| by { Few(before, ops, appends); }
      assert ops[..|ops|] == ops;
      EntriesNumbered(before, oplog.log, ops, appends);
      var entries := Entries(appends);
      var next := ApplyBatch(rules, replica, entries);
      if next.None? {
        RollBack(appends, before, ops);
        return None;
      }
      TakenKeeps(rules, before, replica, ops);
      replica := next.value;
      Publish(appends, before, ops);
      accepted := Some(entries);
    }
  }

  lemma Few(before: seq<Op>, ops: seq<Op>, appends: seq<Appended>)
    requires AllReported(before, ops, appends)
    ensures |appends| <= |ops|
  {
  }

  lemma NothingExtended(log: seq<Op>, ops: seq<Op>)
    ensures ExtendAll(log, ops[..0]) == Some(log)
  {
    assert ops[..0] == [];
  }
}
