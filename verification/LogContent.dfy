/** What the notes hold after ingest and replay: the effects of the log, and of nothing else. */
module LogContent {
  import opened Results
  import opened Oplog
  import opened Ingest

  // ----- the effects of a list of operations

  /** Every operation performed on the content, in order. */
  function Effects<S>(rules: Rules<S>, content: S, ops: seq<Op>): Option<S> {
    if ops == [] then Some(content)
    else
      match rules.apply(content, ops[0])
      case Some(next) => Effects(rules, next, ops[1..])
      case None => None
  }

  /** The operations whose effects are not made yet. */
  function Missing(ops: seq<Op>, made: set<nat>): (r: seq<Op>)
    ensures |r| <= |ops|
  {
    if ops == [] then [] else (if ops[0].id in made then [] else [ops[0]]) + Missing(ops[1..], made)
  }

  lemma {:induction false} EffectsAppend<S>(rules: Rules<S>, content: S, a: seq<Op>, b: seq<Op>)
    ensures Effects(rules, content, a + b)
         == match Effects(rules, content, a) case Some(m) => Effects(rules, m, b) case None => None
  {
    if a == [] {
      assert a + b == b;
    } else {
      assert (a + b)[1..] == a[1..] + b;
      match rules.apply(content, a[0])
      case Some(next) => EffectsAppend(rules, next, a[1..], b);
      case None =>
    }
  }

  lemma Regrouped(a: seq<Op>, b: seq<Op>, c: seq<Op>)
    ensures a + (b + c) == a + b + c
  {
  }

  lemma {:induction false} MissingAppend(a: seq<Op>, b: seq<Op>, made: set<nat>)
    ensures Missing(a + b, made) == Missing(a, made) + Missing(b, made)
  {
    if a == [] {
      assert a + b == b;
    } else {
      assert (a + b)[1..] == a[1..] + b;
      MissingAppend(a[1..], b, made);
      Regrouped(if a[0].id in made then [] else [a[0]], Missing(a[1..], made), Missing(b, made));
    }
  }

  /** With nothing made beforehand, every operation is performed. */
  lemma {:induction false} AllMissing(ops: seq<Op>)
    ensures Missing(ops, {}) == ops
  {
    if ops != [] {
      AllMissing(ops[1..]);
    }
  }

  /** The log from `n` up to `m`. */
  function Part(log: seq<Op>, n: nat, m: nat): seq<Op>
    requires n <= m <= |log|
  {
    log[n..m]
  }

  /** Replica `m` is `r` with the effects of the entries between their cursors, save those made before. */
  ghost predicate Caught<S>(rules: Rules<S>, log: seq<Op>, r: Replica<S>, m: Replica<S>) {
    && r.cursor <= m.cursor <= |log|
    && Effects(rules, r.content, Missing(Part(log, r.cursor, m.cursor), r.applied.Keys)) == Some(m.content)
    && (forall id :: id in m.applied <==> id in r.applied || exists k :: r.cursor <= k < m.cursor && log[k].id == id)
  }

  lemma CaughtUp<S>(rules: Rules<S>, log: seq<Op>, r: Replica<S>)
    requires r.cursor <= |log|
    ensures Caught(rules, log, r, r)
  {
    assert log[r.cursor..r.cursor] == [];
  }

  lemma OneMissing(log: seq<Op>, n: nat, c: nat, made: set<nat>)
    requires n <= c < |log|
    ensures Missing(Part(log, n, c + 1), made) == Missing(Part(log, n, c), made) + if log[c].id in made then [] else [log[c]]
  {
    assert log[n..c + 1] == log[n..c] + [log[c]];
    MissingAppend(log[n..c], [log[c]], made);
  }

  /** The next entry of the log: refused exactly when its operation is new and cannot be performed. */
  lemma NextCaught<S>(rules: Rules<S>, log: seq<Op>, r: Replica<S>, m: Replica<S>)
    requires DistinctIds(log) && Follows(m, log) && Caught(rules, log, r, m) && m.cursor < |log|
    ensures var e, made := Sequenced(m.cursor + 1, log[m.cursor]), r.applied.Keys;
            var after := Effects(rules, r.content, Missing(Part(log, r.cursor, m.cursor + 1), made));
      && (ApplyOne(rules, m, e).Some? <==> after.Some?)
      && (after.Some? ==> Caught(rules, log, r, ApplyOne(rules, m, e).value) && ApplyOne(rules, m, e).value.cursor == m.cursor + 1)
  {
    hide Part, Missing, Effects, DistinctIds, Knows;
    var c := m.cursor;
    var op := log[c];
    OwnId(log, c);
    assert op.id in m.applied <==> op.id in r.applied.Keys;
    assert op.id in m.applied ==> m.applied[op.id] == None;
    OneMissing(log, r.cursor, c, r.applied.Keys);
    var done := Missing(Part(log, r.cursor, c), r.applied.Keys);
    EffectsAppend(rules, r.content, done, [op]);
    OneEffect(rules, m.content, op);
    assert done + [] == done;
  }

  lemma OneEffect<S>(rules: Rules<S>, content: S, op: Op)
    ensures Effects(rules, content, [op]) == rules.apply(content, op)
  {
    assert [op][1..] == [];
  }

  /** Effects that cannot all be made cannot be made with more behind them. */
  lemma StuckEarly<S>(rules: Rules<S>, content: S, log: seq<Op>, n: nat, c: nat, d: nat, made: set<nat>)
    requires n <= c <= d <= |log| && Effects(rules, content, Missing(Part(log, n, c), made)) == None
    ensures Effects(rules, content, Missing(Part(log, n, d), made)) == None
  {
    hide Missing, Effects;
    assert log[n..d] == log[n..c] + log[c..d];
    MissingAppend(log[n..c], log[c..d], made);
    EffectsAppend(rules, content, Missing(log[n..c], made), Missing(log[c..d], made));
  }

  // ----- ingest

  /** Where a batch has brought the replica after entries of the log up to `n`: caught up, or stuck. */
  ghost predicate Brought<S>(rules: Rules<S>, log: seq<Op>, r: Replica<S>, n: nat, m: Option<Replica<S>>)
    requires r.cursor <= n <= |log|
  {
    match m
    case Some(m) => Caught(rules, log, r, m) && m.cursor == n && Follows(m, log)
    case None => Effects(rules, r.content, Missing(Part(log, r.cursor, n), r.applied.Keys)) == None
  }

  lemma BroughtNext<S>(rules: Rules<S>, log: seq<Op>, r: Replica<S>, n: nat, m: Option<Replica<S>>)
    requires DistinctIds(log) && r.cursor <= n < |log| && Brought(rules, log, r, n, m)
    ensures Brought(rules, log, r, n + 1, match m case Some(m) => ApplyOne(rules, m, Sequenced(n + 1, log[n])) case None => None)
  {
    hide Caught, Follows, ApplyOne, DistinctIds, Effects, Missing, Part;
    match m
    case Some(m) =>
      NextCaught(rules, log, r, m);
      if ApplyOne(rules, m, Sequenced(n + 1, log[n])).Some? {
        FollowsOne(rules, m, log, Sequenced(n + 1, log[n]));
      }
    case None => StuckEarly(rules, r.content, log, r.cursor, n, n + 1, r.applied.Keys);
  }

  lemma BroughtNowhere<S>(rules: Rules<S>, log: seq<Op>, r: Replica<S>)
    requires Follows(r, log)
    ensures Brought(rules, log, r, r.cursor, Some(r))
  {
    hide Caught;
    CaughtUp(rules, log, r);
  }

  lemma {:induction false} BatchBrings<S>(rules: Rules<S>, log: seq<Op>, l: seq<Op>, r: Replica<S>, ops: seq<Op>)
    requires DistinctIds(log) && DistinctIds(l) && Follows(r, l) && r.cursor == |log|
    requires ExtendAll(log, ops).Some? && log <= ExtendAll(log, ops).value <= l
    ensures Brought(rules, l, r, |ExtendAll(log, ops).value|, ApplyAll(rules, r, Numbered(l, ops)))
  {
    hide Brought, Follows, ApplyOne, DistinctIds, Place, Extend;
    if ops == [] {
      BroughtNowhere(rules, l, r);
    } else {
      var front, op := ops[..|ops| - 1], ops[|ops| - 1];
      var mid, end := ExtendAll(log, front).value, ExtendAll(log, ops).value;
      ExtendAllKeeps(log, front);
      ExtendKeeps(mid, op);
      assert mid <= l && op in end;
      BatchBrings(rules, log, l, r, front);
      NumberedAt(l, ops, |front|);
      Numbered1(l, ops);
      var i :| 0 <= i < |end| && end[i] == op;
      assert l[i] == op;
      PlaceIs(l, i);
      LastBrought(rules, l, r, mid, end, ApplyAll(rules, r, Numbered(l, front)), Sequenced(i + 1, op));
    }
  }

  lemma LastBrought<S>(rules: Rules<S>, l: seq<Op>, r: Replica<S>, mid: seq<Op>, end: seq<Op>, m: Option<Replica<S>>, e: Sequenced)
    requires DistinctIds(l) && DistinctIds(mid) && r.cursor <= |mid| && mid <= l && end <= l && Extend(mid, e.op) == Some(end)
    requires 1 <= e.seqno <= |end| && end[e.seqno - 1] == e.op && Brought(rules, l, r, |mid|, m)
    ensures r.cursor <= |end| && Brought(rules, l, r, |end|, match m case Some(m) => ApplyOne(rules, m, e) case None => None)
  {
    hide Brought, ApplyOne, DistinctIds, Extend;
    if end == mid {
      BroughtAgain(rules, l, r, |mid|, m, e);
    } else {
      NewAtEnd(mid, e.op, end, e.seqno - 1);
      BroughtNext(rules, l, r, |mid|, m);
    }
  }

  lemma Numbered1(log: seq<Op>, ops: seq<Op>)
    requires ops != []
    ensures |Numbered(log, ops)| == |Numbered(log, ops[..|ops| - 1])| + 1
    ensures Numbered(log, ops)[..|Numbered(log, ops)| - 1] == Numbered(log, ops[..|ops| - 1])
  {
  }

  lemma NewAtEnd(mid: seq<Op>, op: Op, end: seq<Op>, i: nat)
    requires DistinctIds(mid) && Extend(mid, op) == Some(end) && end != mid && i < |end| && end[i] == op
    ensures i == |mid| && |end| == |mid| + 1
  {
  }

  lemma BroughtAgain<S>(rules: Rules<S>, log: seq<Op>, r: Replica<S>, n: nat, m: Option<Replica<S>>, e: Sequenced)
    requires DistinctIds(log) && r.cursor <= n <= |log| && Brought(rules, log, r, n, m)
    requires 1 <= e.seqno <= n && log[e.seqno - 1] == e.op
    ensures Brought(rules, log, r, n, match m case Some(m) => ApplyOne(rules, m, e) case None => None)
  {
    hide Caught, Follows, ApplyOne, DistinctIds, Effects, Missing, Part;
    match m
    case Some(m) => RepeatedOne(rules, m, log, e);
    case None =>
  }

  /** A batch is taken exactly when it is small enough, reuses no identifier, is well-formed, and the operations it adds
      can be performed; the notes then hold their effects as well. */
  lemma TakenExactly<S>(rules: Rules<S>, log: seq<Op>, r: Replica<S>, ops: seq<Op>)
    requires InStep(log, r)
    ensures Taken(rules, log, r, ops).Some? <==>
              && |ops| <= 256 && OneEach(log + ops) && (forall op :: op in ops ==> rules.valid(op))
              && Effects(rules, r.content, Missing(Added(log, ops), r.applied.Keys)).Some?
    ensures Taken(rules, log, r, ops).Some? ==>
              && Taken(rules, log, r, ops).value.0 == log + Added(log, ops)
              && Some(Taken(rules, log, r, ops).value.1.content) == Effects(rules, r.content, Missing(Added(log, ops), r.applied.Keys))
  {
    hide Follows, ApplyAll, DistinctIds, Numbered, Effects, Missing, OneEach, Added, AllValid;
    ExtendExactly(log, ops);
    if ExtendAll(log, ops).Some? {
      var l := ExtendAll(log, ops).value;
      ExtendAllKeeps(log, ops);
      FollowsLonger(r, log, l);
      BatchBrings(rules, log, l, r, ops);
      assert l[|log|..|l|] == Added(log, ops);
      NumberedIs(l, ops);
      ValidNumbered(rules, Numbered(l, ops), ops);
    }
  }

  lemma ValidNumbered<S>(rules: Rules<S>, es: seq<Sequenced>, ops: seq<Op>)
    requires |es| == |ops| && forall i :: 0 <= i < |ops| ==> es[i].op == ops[i]
    ensures AllValid(rules, es) <==> forall op :: op in ops ==> rules.valid(op)
  {
    forall op | op in ops
      ensures exists e :: e in es && e.op == op
    {
      var i :| 0 <= i < |ops| && ops[i] == op;
      assert es[i] in es;
    }
    forall e | e in es
      ensures e.op in ops
    {
      var i :| 0 <= i < |es| && es[i] == e;
      assert ops[i] in ops;
    }
  }

  /** No identifier stands for two operations. */
  predicate OneEach(ops: seq<Op>) { forall i, j :: 0 <= i < |ops| && 0 <= j < |ops| && ops[i].id == ops[j].id ==> ops[i] == ops[j] }

  /** The operations of a batch that the log does not have yet, each once, in the order of the batch. */
  function Added(log: seq<Op>, ops: seq<Op>): seq<Op>
    decreases |ops|
  {
    if ops == [] then []
    else if ops[0] in log then Added(log, ops[1..])
    else [ops[0]] + Added(log + [ops[0]], ops[1..])
  }

  lemma {:induction false} ExtendExactly(log: seq<Op>, ops: seq<Op>)
    requires DistinctIds(log)
    ensures ExtendAll(log, ops).Some? <==> OneEach(log + ops)
    ensures ExtendAll(log, ops).Some? ==> ExtendAll(log, ops).value == log + Added(log, ops)
    decreases |ops|
  {
    hide DistinctIds, Extend;
    if ops == [] {
      assert log + ops == log;
      EachOnce(log);
    } else {
      ExtendFirst(log, ops);
      FirstOnce(log, ops);
      assert log + ops == (log + [ops[0]]) + ops[1..];
      if Extend(log, ops[0]).Some? {
        ExtendKeeps(log, ops[0]);
        var more := Extend(log, ops[0]).value;
        ExtendExactly(more, ops[1..]);
        SameEach(log, ops);
        assert more != log ==> log + ([ops[0]] + Added(more, ops[1..])) == more + Added(more, ops[1..]);
      }
    }
  }

  lemma EachOnce(log: seq<Op>)
    requires DistinctIds(log)
    ensures OneEach(log)
  {
  }

  /** The first operation of a batch is refused when its identifier is taken, skipped when it is known. */
  lemma FirstOnce(log: seq<Op>, ops: seq<Op>)
    requires DistinctIds(log) && ops != []
    ensures Extend(log, ops[0]) == None ==> !OneEach(log + ops)
    ensures Extend(log, ops[0]).Some? ==> Extend(log, ops[0]).value == if ops[0] in log then log else log + [ops[0]]
  {
    var all := log + ops;
    assert all[|log|] == ops[0];
    match Place(log, ops[0].id)
    case Some(i) => assert all[i] == log[i];
    case None =>
  }

  lemma SameEach(log: seq<Op>, ops: seq<Op>)
    requires ops != [] && Extend(log, ops[0]).Some? && (Extend(log, ops[0]).value == if ops[0] in log then log else log + [ops[0]])
    ensures OneEach(log + ops) <==> OneEach(Extend(log, ops[0]).value + ops[1..])
  {
    var all, less := log + ops, Extend(log, ops[0]).value + ops[1..];
    assert forall op :: op in all <==> op in less;
    EachByMembers(all);
    EachByMembers(less);
  }

  lemma EachByMembers(ops: seq<Op>)
    ensures OneEach(ops) <==> forall a, b :: a in ops && b in ops && a.id == b.id ==> a == b
  {
  }

  /** Appending the first operation first. */
  lemma {:induction false} ExtendFirst(log: seq<Op>, ops: seq<Op>)
    requires ops != []
    ensures ExtendAll(log, ops) == match Extend(log, ops[0]) case Some(l) => ExtendAll(l, ops[1..]) case None => None
    decreases |ops|
  {
    hide Extend;
    var front := ops[..|ops| - 1];
    if front == [] {
      assert ops == [ops[0]] && ExtendAll(log, front) == Some(log);
    } else {
      ExtendFirst(log, front);
      assert ops[1..][..|ops| - 2] == front[1..];
    }
  }

  // ----- runs and replay

  /** After every run from a state in step the notes hold the effects of what the log gained, save the operations the
      replica had made on its own before. */
  lemma {:induction false} RunContent<S>(rules: Rules<S>, s: State<S>, batches: seq<seq<Op>>)
    requires InStep(s.log, s.replica)
    ensures var end := Run(rules, s, batches);
      InStep(end.log, end.replica) && s.log <= end.log && Caught(rules, end.log, s.replica, end.replica)
  {
    hide InStep, Taken, Caught;
    RunsKeep(rules, s, batches);
    if batches == [] {
      InStepCaught(rules, s);
    } else {
      var ops := batches[|batches| - 1];
      var before := Run(rules, s, batches[..|batches| - 1]);
      RunContent(rules, s, batches[..|batches| - 1]);
      if Taken(rules, before.log, before.replica, ops).Some? {
        TakenCatches(rules, s.replica, before, ops);
      }
    }
  }

  lemma InStepCaught<S>(rules: Rules<S>, s: State<S>)
    requires InStep(s.log, s.replica)
    ensures Caught(rules, s.log, s.replica, s.replica)
  {
    CaughtUp(rules, s.log, s.replica);
  }

  lemma TakenCatches<S>(rules: Rules<S>, r: Replica<S>, s: State<S>, ops: seq<Op>)
    requires InStep(s.log, s.replica) && Caught(rules, s.log, r, s.replica) && Taken(rules, s.log, s.replica, ops).Some?
    ensures var (l, n) := Taken(rules, s.log, s.replica, ops).value; Caught(rules, l, r, n)
  {
    hide Follows, ApplyAll, DistinctIds, Numbered, Caught;
    var (l, n) := Taken(rules, s.log, s.replica, ops).value;
    ExtendAllKeeps(s.log, ops);
    FollowsLonger(s.replica, s.log, l);
    BatchBrings(rules, s.log, l, s.replica, ops);
    CaughtThrough(rules, s.log, l, r, s.replica, n);
  }

  /** Catching up in two stages is catching up. */
  lemma CaughtThrough<S>(rules: Rules<S>, log: seq<Op>, l: seq<Op>, r: Replica<S>, m: Replica<S>, n: Replica<S>)
    requires DistinctIds(l) && log <= l && Caught(rules, log, r, m) && Caught(rules, l, m, n)
    ensures Caught(rules, l, r, n)
  {
    hide Missing, Effects;
    var made := r.applied.Keys;
    assert Part(log, r.cursor, m.cursor) == Part(l, r.cursor, m.cursor);
    assert Part(l, r.cursor, n.cursor) == Part(l, r.cursor, m.cursor) + Part(l, m.cursor, n.cursor);
    MissingAppend(Part(l, r.cursor, m.cursor), Part(l, m.cursor, n.cursor), made);
    assert forall k :: r.cursor <= k < m.cursor ==> log[k] == l[k];
    SameMissing(l, m.cursor, n.cursor, made, m.applied.Keys, r.cursor);
    EffectsAppend(rules, r.content, Missing(Part(l, r.cursor, m.cursor), made), Missing(Part(l, m.cursor, n.cursor), made));
  }

  /** Identifiers of earlier entries of the log make no difference to later ones. */
  lemma {:induction false} SameMissing(l: seq<Op>, c: nat, d: nat, made: set<nat>, more: set<nat>, lo: nat)
    requires DistinctIds(l) && lo <= c <= d <= |l| && made <= more
    requires forall id :: id in more - made ==> exists k :: lo <= k < c && l[k].id == id
    ensures Missing(Part(l, c, d), made) == Missing(Part(l, c, d), more)
    decreases d - c
  {
    if c < d {
      assert l[c..d][1..] == l[c + 1..d];
      assert forall k :: lo <= k < c ==> l[k].id != l[c].id;
      assert l[c].id !in more - made;
      assert l[c..d][0] == l[c] && (l[c].id in made <==> l[c].id in more);
      SameMissing(l, c + 1, d, made, more, lo);
    }
  }

  /** From an empty replica on, the notes are the effects of the whole log, in every run. */
  lemma RunFromNothing<S>(rules: Rules<S>, content: S, batches: seq<seq<Op>>)
    ensures var end := Run(rules, State([], Replica(0, map[], content)), batches);
            Effects(rules, content, end.log) == Some(end.replica.content)
  {
    hide Run, Effects;
    var s := State([], Replica(0, map[], content));
    RunContent(rules, s, batches);
    var end := Run(rules, s, batches);
    assert Part(end.log, 0, end.replica.cursor) == end.log;
    AllMissing(end.log);
    assert s.replica.applied.Keys == {};
  }

  lemma {:induction false} PageBrings<S>(rules: Rules<S>, log: seq<Op>, r: Replica<S>, n: nat)
    requires DistinctIds(log) && Follows(r, log) && r.cursor + n <= |log|
    ensures Brought(rules, log, r, r.cursor + n, ApplyAll(rules, r, Since(log, r.cursor, n)))
    decreases n
  {
    hide Brought, Follows, ApplyOne, DistinctIds;
    if n == 0 {
      BroughtNowhere(rules, log, r);
    } else {
      PageBrings(rules, log, r, n - 1);
      var page := Since(log, r.cursor, n);
      assert page[..n - 1] == Since(log, r.cursor, n - 1);
      BroughtNext(rules, log, r, r.cursor + n - 1, ApplyAll(rules, r, page[..n - 1]));
    }
  }

  /** Replaying a log to a replica that follows it succeeds exactly when the operations behind its cursor are
      well-formed and those it has not made can be performed; it then holds their effects as well. */
  lemma ReplayExactly<S>(rules: Rules<S>, log: seq<Op>, r: Replica<S>)
    requires DistinctIds(log) && Follows(r, log)
    ensures var end := ApplyBatch(rules, r, Since(log, r.cursor, |log|));
            var made := Effects(rules, r.content, Missing(log[r.cursor..], r.applied.Keys));
      && (end.Some? <==> made.Some? && forall op :: op in log[r.cursor..] ==> rules.valid(op))
      && (end.Some? ==> Some(end.value.content) == made && end.value.cursor == |log| && InStep(log, end.value))
  {
    hide Knows, KnowsOnly, ApplyAll, DistinctIds, Since, Effects, Missing, AllValid, Caught;
    var n := |log| - r.cursor;
    PageBrings(rules, log, r, n);
    SinceWhole(log, r.cursor, n);
    assert log[r.cursor..] == Part(log, r.cursor, |log|);
    var page := Since(log, r.cursor, |log|);
    ValidNumbered(rules, page, log[r.cursor..]);
    if ApplyAll(rules, r, page).Some? {
      CaughtContent(rules, log, r, ApplyAll(rules, r, page).value);
    }
  }

  lemma CaughtContent<S>(rules: Rules<S>, log: seq<Op>, r: Replica<S>, m: Replica<S>)
    requires r.cursor <= m.cursor <= |log| && Caught(rules, log, r, m)
    ensures Effects(rules, r.content, Missing(Part(log, r.cursor, m.cursor), r.applied.Keys)) == Some(m.content)
  {
  }

  // ----- entries from elsewhere

  /** Each number belongs to one identifier, and none is beyond the cursor. */
  ghost predicate NumbersOnce<S>(r: Replica<S>) {
    && (forall id :: id in r.applied && r.applied[id].Some? ==> r.applied[id].value <= r.cursor)
    && (forall a, b :: a in r.applied && b in r.applied && r.applied[a].Some? && r.applied[a] == r.applied[b] ==> a == b)
  }

  /** Some entry has this number, and its operation is applied under it. */
  ghost predicate Given(es: seq<Sequenced>, applied: map<nat, Option<nat>>, n: nat) {
    exists e :: e in es && e.seqno == n && e.op.id in applied && applied[e.op.id] == Some(n)
  }

  /** Whatever entries arrive, an accepted batch has no gap, gives no number to two operations and no operation a second
      number. */
  lemma {:induction false} NumbersHold<S>(rules: Rules<S>, r: Replica<S>, es: seq<Sequenced>)
    requires NumbersOnce(r) && ApplyAll(rules, r, es).Some?
    ensures var m := ApplyAll(rules, r, es).value;
      && NumbersOnce(m) && r.cursor <= m.cursor
      && (forall id :: id in r.applied && r.applied[id].Some? ==> id in m.applied && m.applied[id] == r.applied[id])
      && (forall e :: e in es ==> e.seqno <= m.cursor)
      && (forall n :: r.cursor < n <= m.cursor ==> Given(es, m.applied, n))
      && (forall e, id :: e in es && id in m.applied && m.applied[id] == Some(e.seqno) ==> id == e.op.id)
  {
    if es != [] {
      var front, last := es[..|es| - 1], es[|es| - 1];
      NumbersHold(rules, r, front);
      var m := ApplyAll(rules, r, front).value;
      OneHolds(rules, m, last);
      assert es == front + [last];
      var after := ApplyAll(rules, r, es).value;
      forall n | r.cursor < n <= after.cursor
        ensures Given(es, after.applied, n)
      {
        if n <= m.cursor {
          assert Given(front, m.applied, n);
          var e :| e in front && e.seqno == n && e.op.id in m.applied && m.applied[e.op.id] == Some(n);
          assert e in es;
        } else {
          assert last in es;
        }
      }
    }
  }

  lemma OneHolds<S>(rules: Rules<S>, m: Replica<S>, e: Sequenced)
    requires NumbersOnce(m) && ApplyOne(rules, m, e).Some?
    ensures var after := ApplyOne(rules, m, e).value;
      && NumbersOnce(after) && m.cursor <= after.cursor && e.seqno <= after.cursor
      && (forall id :: id in m.applied && m.applied[id].Some? ==> id in after.applied && after.applied[id] == m.applied[id])
      && (m.cursor < after.cursor ==> after.cursor == e.seqno == m.cursor + 1 && e.op.id in after.applied && after.applied[e.op.id] == Some(e.seqno))
      && (forall id :: id in after.applied && after.applied[id] == Some(e.seqno) ==> id == e.op.id)
      && (forall id :: id in after.applied && id != e.op.id ==> id in m.applied && after.applied[id] == m.applied[id])
      && (e.seqno <= m.cursor ==> after == m)
  {
  }
}
