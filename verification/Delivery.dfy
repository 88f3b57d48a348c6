/** Delivery to one client of `websocket_session` in `server/src/api.rs`: subscribe, then read the backlog, then
    follow the live stream, interleaved with an ingest that appends first and publishes later. */
module Delivery {
  import opened Results
  import opened Oplog

  const MAX_OPS_PAGE: nat := 1_000
  const CHANNEL_CAPACITY: nat := 1_024

  /** `start` is how many log entries had been published when the session subscribed. */
  datatype Session = Session(since: nat, start: nat, backlog: Option<seq<Sequenced>>, live: seq<Sequenced>, lagged: bool)

  /** The log, how much of it has been applied for good and how much published, whether a failed batch is being
      taken back, and the session. */
  datatype World = World(log: seq<Op>, committed: nat, published: nat, undoing: bool, session: Option<Session>)

  datatype Event =
    | Append(op: Op)
    | Commit
    | Publish
    | RollBack
    | Connect(since: nat)
    | ReadBacklog
    | Receive

  /** A batch is appended, then either applied and published entry by entry, or taken back entry by entry. */
  predicate Can(w: World, e: Event) {
    match e
    case Append(_) => !w.undoing && w.published == w.committed
    case Commit => !w.undoing && w.published == w.committed
    case Publish => w.published < w.committed
    case RollBack => w.published == w.committed < |w.log|
    case Connect(_) => w.session.None? && w.published <= |w.log|
    case ReadBacklog => w.session.Some? && w.session.value.backlog.None?
    case Receive =>
      w.session.Some? && w.session.value.backlog.Some? && !w.session.value.lagged
      && w.session.value.start + |w.session.value.live| < w.published <= |w.log|
  }

  /** One message from the channel, unless the receiver has fallen too far behind. */
  function Received(w: World, s: Session): Session
    requires s.start + |s.live| < w.published <= |w.log|
  {
    var at := s.start + |s.live|;
    if w.published - at > CHANNEL_CAPACITY then s.(lagged := true)
    else s.(live := s.live + [Sequenced(at + 1, w.log[at])])
  }

  function Next(w: World, e: Event): World
    requires Can(w, e)
  {
    match e
    case Append(op) => w.(log := w.log + [op])
    case Commit => w.(committed := |w.log|)
    case Publish => w.(published := w.published + 1)
    case RollBack => w.(log := w.log[..|w.log| - 1], undoing := |w.log| - 1 > w.committed)
    case Connect(since) => w.(session := Some(Session(since, w.published, None, [], false)))
    case ReadBacklog =>
      w.(session := Some(w.session.value.(backlog := Some(Since(w.log, w.session.value.since, MAX_OPS_PAGE)))))
    case Receive => w.(session := Some(Received(w, w.session.value)))
  }

  // ----- what always holds

  /** Only a batch in progress is uncommitted, nothing uncommitted is published, and the live stream is what the
      log holds at its numbers. */
  ghost predicate Steady(w: World) {
    && w.published <= w.committed <= |w.log| && (w.published < w.committed ==> w.committed == |w.log|)
    && (w.session.Some? ==>
          var s := w.session.value;
          && s.start + |s.live| <= w.published
          && (forall k :: 0 <= k < |s.live| ==> s.live[k] == Sequenced(s.start + k + 1, w.log[s.start + k]))
          && (s.backlog.None? ==> s.live == []))
  }

  lemma NextSteady(w: World, e: Event)
    requires Steady(w) && Can(w, e)
    ensures Steady(Next(w, e))
  {
    hide Since;
  }

  predicate Trace(ws: seq<World>, es: seq<Event>) {
    |ws| == |es| + 1 && forall i :: 0 <= i < |es| ==> Can(ws[i], es[i]) && ws[i + 1] == Next(ws[i], es[i])
  }

  lemma {:induction false} TracesSteady(ws: seq<World>, es: seq<Event>, i: nat)
    requires Trace(ws, es) && Steady(ws[0]) && i < |ws|
    ensures Steady(ws[i])
  {
    hide Steady, Next, Can;
    if i > 0 {
      TracesSteady(ws, es, i - 1);
      assert ws[i - 1 + 1] == Next(ws[i - 1], es[i - 1]);
      NextSteady(ws[i - 1], es[i - 1]);
    }
  }

  // ----- what holds as long as no entry of the backlog is taken back

  /** A backlog read when the log was `seen` long. */
  predicate ReadAt(log: seq<Op>, s: Session, seen: nat) {
    s.start <= seen <= |log| && s.backlog == Some(Since(log[..seen], s.since, MAX_OPS_PAGE))
  }

  ghost predicate InOrder(w: World) {
    Steady(w) &&
    (w.session.Some? && w.session.value.backlog.Some? ==> exists seen: nat :: ReadAt(w.log, w.session.value, seen))
  }

  /** No entry of the backlog can be taken back any more. */
  predicate Settled(w: World) {
    w.session.Some? && w.session.value.backlog.Some? ==>
      var s := w.session.value;
      s.backlog.value == [] || s.since + |s.backlog.value| <= w.committed
  }

  lemma NextInOrder(w: World, e: Event)
    requires InOrder(w) && Can(w, e) && (e.RollBack? ==> Settled(w))
    ensures InOrder(Next(w, e))
  {
    hide Since;
    NextSteady(w, e);
    if w.session.Some? {
      var s := w.session.value;
      if e.ReadBacklog? {
        assert w.log[..|w.log|] == w.log;
        assert ReadAt(w.log, Next(w, e).session.value, |w.log|);
      } else if s.backlog.Some? {
        var seen: nat :| ReadAt(w.log, s, seen);
        var kept := if e.RollBack? && seen > w.committed then w.committed else seen;
        EarlierRead(w, s, seen, kept);
        assert Next(w, e).log[..kept] == w.log[..kept];
        assert ReadAt(Next(w, e).log, Next(w, e).session.value, kept);
      }
    }
  }

  /** A settled backlog might as well have been read from the committed part of the log. */
  lemma EarlierRead(w: World, s: Session, seen: nat, kept: nat)
    requires Steady(w) && w.session == Some(s) && ReadAt(w.log, s, seen)
    requires kept == seen || (kept == w.committed < seen && Settled(w))
    ensures ReadAt(w.log, s, kept)
  {
    assert Since(w.log[..kept], s.since, MAX_OPS_PAGE) == s.backlog.value;
  }

  /** Rollbacks included, as long as each leaves the backlog alone. */
  lemma {:induction false} TracesInOrder(ws: seq<World>, es: seq<Event>, i: nat)
    requires Trace(ws, es) && InOrder(ws[0]) && i < |ws| && forall k :: 0 <= k < |es| && es[k].RollBack? ==> Settled(ws[k])
    ensures InOrder(ws[i])
  {
    hide InOrder, Next, Can, Settled;
    if i > 0 {
      TracesInOrder(ws, es, i - 1);
      assert ws[i - 1 + 1] == Next(ws[i - 1], es[i - 1]);
      NextInOrder(ws[i - 1], es[i - 1]);
    }
  }

  // ----- how far a receiver may fall behind

  /** The session has been handed everything published. */
  predicate Drained(w: World) {
    w.session.Some? && !w.session.value.lagged && w.session.value.start + |w.session.value.live| == w.published
  }

  /** A run in which the client receives and nothing else happens, up to its having everything. */
  ghost predicate Drains(w: World, ws: seq<World>, es: seq<Event>) {
    Trace(ws, es) && ws[0] == w && (forall e :: e in es ==> e == Receive) && Drained(ws[|es|])
  }

  lemma {:induction false} DrainsTo(w: World) returns (ws: seq<World>, es: seq<Event>)
    requires Steady(w) && w.session.Some? && w.session.value.backlog.Some? && !w.session.value.lagged
    requires w.published <= w.session.value.start + |w.session.value.live| + 1_024
    ensures Drains(w, ws, es)
    decreases w.published - w.session.value.start - |w.session.value.live|
  {
    if w.session.value.start + |w.session.value.live| == w.published {
      return [w], [];
    }
    NextSteady(w, Receive);
    var vs, fs := DrainsTo(Next(w, Receive));
    ws, es := [w] + vs, [Receive] + fs;
    TracePrepended(w, Receive, vs, fs);
  }

  /** A client that goes on receiving gets everything published exactly when it is no more than 1,024 messages behind. */
  lemma DrainsExactly(w: World)
    requires Steady(w) && w.session.Some? && w.session.value.backlog.Some? && !w.session.value.lagged
    ensures (exists ws: seq<World>, es: seq<Event> :: Drains(w, ws, es)) <==>
              w.published <= w.session.value.start + |w.session.value.live| + 1_024
  {
    if w.published <= w.session.value.start + |w.session.value.live| + 1_024 {
      var ws, es := DrainsTo(w);
    } else {
      forall ws: seq<World>, es: seq<Event>
        ensures !Drains(w, ws, es)
      {
        LeftBehind(w, ws, es);
      }
    }
  }

  lemma LeftBehind(w: World, ws: seq<World>, es: seq<Event>)
    requires w.session.Some? && w.published > w.session.value.start + |w.session.value.live| + 1_024
    ensures !Drains(w, ws, es)
  {
    if Trace(ws, es) && ws[0] == w && (forall e :: e in es ==> e == Receive) && |es| > 0 {
      assert |es| > 1 ==> es[1] in es;
      assert es[0] in es && ws[0 + 1] == Next(ws[0], es[0]);
    }
  }

  // ----- what the client has been sent

  predicate Has(s: Session, e: Sequenced)
    requires s.backlog.Some?
  {
    e in s.backlog.value || e in s.live
  }

  function Max(a: nat, b: nat): nat { if a < b then b else a }

  /** The last sequence number sent. */
  function Reach(s: Session): nat
    requires s.backlog.Some?
  {
    if s.live == [] then s.since + |s.backlog.value| else Max(s.since + |s.backlog.value|, s.start + |s.live|)
  }

  /** Operation `n` has been sent as it stands in the log. */
  predicate Gets(w: World, s: Session, n: nat)
    requires s.backlog.Some?
  {
    1 <= n <= |w.log| && Has(s, Sequenced(n, w.log[n - 1]))
  }

  /** Every operation after `since` up to the last one sent has been sent. */
  ghost predicate NoGap(w: World, s: Session)
    requires s.backlog.Some?
  {
    forall n: nat :: s.since < n <= Reach(s) ==> Gets(w, s, n)
  }

  /** What the backlog holds and where it ends. */
  lemma BacklogIs(w: World, s: Session, seen: nat)
    requires ReadAt(w.log, s, seen)
    ensures var b := s.backlog.value;
      && (forall k :: 0 <= k < |b| ==> s.since + k < |w.log| && b[k] == Sequenced(s.since + k + 1, w.log[s.since + k]))
      && |b| <= MAX_OPS_PAGE && (|b| < MAX_OPS_PAGE ==> s.start <= s.since + |b|)
  {
  }

  lemma Sent(w: World, s: Session, n: nat)
    requires InOrder(w) && w.session == Some(s) && s.backlog.Some? && s.since < n <= Reach(s)
    requires s.start <= s.since + |s.backlog.value| || n <= s.since + |s.backlog.value|
    ensures Gets(w, s, n)
  {
    hide Since;
    var seen: nat :| ReadAt(w.log, s, seen);
    BacklogIs(w, s, seen);
    var b := s.backlog.value;
    if n <= s.since + |b| {
      assert b[n - 1 - s.since] == Sequenced(n, w.log[n - 1]);
    } else {
      assert s.live[n - 1 - s.start] == Sequenced(n, w.log[n - 1]);
    }
  }

  /** With the backlog intact, the client has everything after `since` without a gap exactly when, at the time it
      subscribed, at most one page had been published after `since`, or it has received nothing live yet. */
  lemma NoGapExactly(w: World, s: Session)
    requires InOrder(w) && w.session == Some(s) && s.backlog.Some?
    ensures NoGap(w, s) <==> s.live == [] || s.start <= s.since + MAX_OPS_PAGE
  {
    hide Since;
    var seen: nat :| ReadAt(w.log, s, seen);
    BacklogIs(w, s, seen);
    var b := s.backlog.value;
    if s.live == [] || s.start <= s.since + |b| {
      forall n: nat | s.since < n <= Reach(s)
        ensures Gets(w, s, n)
      {
        Sent(w, s, n);
      }
    } else {
      Missing(w, s, s.since + |b| + 1);
    }
  }

  /** An operation between the end of the backlog and the subscription is never sent. */
  lemma Missing(w: World, s: Session, n: nat)
    requires InOrder(w) && w.session == Some(s) && s.backlog.Some?
    requires s.since + |s.backlog.value| < n <= s.start
    ensures n <= |w.log| && !Gets(w, s, n)
  {
    hide Since;
    var seen: nat :| ReadAt(w.log, s, seen);
    BacklogIs(w, s, seen);
  }

  /** A backlog shorter than a page leaves no gap; once the stream is drained and nothing is unpublished,
      the client has every operation after `since`. */
  lemma ShortBacklogIsEnough(w: World, s: Session)
    requires InOrder(w) && w.session == Some(s) && s.backlog.Some? && |s.backlog.value| < MAX_OPS_PAGE
    ensures NoGap(w, s)
    ensures s.start + |s.live| == w.published == |w.log| ==> forall n: nat :: s.since < n <= |w.log| ==> Gets(w, s, n)
  {
    hide Since;
    var seen: nat :| ReadAt(w.log, s, seen);
    BacklogIs(w, s, seen);
    forall n: nat | s.since < n <= Max(s.since + |s.backlog.value|, s.start + |s.live|)
      ensures Gets(w, s, n)
    {
      Sent(w, s, n);
    }
  }

  // ----- building traces

  const NOTHING := World([], 0, 0, false, None)

  lemma Continued(vs: seq<World>, fs: seq<Event>, e: Event) returns (ws: seq<World>, es: seq<Event>)
    requires Trace(vs, fs) && Can(vs[|vs| - 1], e)
    ensures Trace(ws, es) && ws[0] == vs[0] && ws[|ws| - 1] == Next(vs[|vs| - 1], e) && es == fs + [e]
  {
    hide Can, Next;
    ws, es := vs + [Next(vs[|vs| - 1], e)], fs + [e];
  }

  // ----- rollbacks

  /** Does the log hold this entry at its number? */
  predicate Holds(log: seq<Op>, e: Sequenced) { 1 <= e.seqno <= |log| && log[e.seqno - 1] == e.op }

  /** Everything the client has been sent is in the log, under its number. */
  ghost predicate Truthful(w: World) {
    w.session.Some? && w.session.value.backlog.Some? ==> forall e :: Has(w.session.value, e) ==> Holds(w.log, e)
  }

  /** And stays so whatever happens next. */
  ghost predicate StaysTruthful(w: World) {
    forall ws, es :: Trace(ws, es) && ws[0] == w ==> Truthful(ws[|ws| - 1])
  }

  /** May the backlog be read now? The page from `since` must end before the batch in progress, if there is one. */
  predicate ReadIsSafe(w: World, since: nat) {
    |w.log| <= w.committed || since + MAX_OPS_PAGE <= w.committed || since >= |w.log|
  }

  /** What is settled is never taken back. */
  lemma {:induction false} StaysSettled(ws: seq<World>, es: seq<Event>, i: nat)
    requires Trace(ws, es) && InOrder(ws[0]) && Settled(ws[0]) && ws[0].session.Some? && ws[0].session.value.backlog.Some?
    requires i < |ws|
    ensures InOrder(ws[i]) && Settled(ws[i]) && ws[i].session.Some? && ws[i].session.value.backlog.Some?
  {
    hide InOrder, Since;
    if i > 0 {
      StaysSettled(ws, es, i - 1);
      assert ws[i - 1 + 1] == Next(ws[i - 1], es[i - 1]);
      NextInOrder(ws[i - 1], es[i - 1]);
      StepSafe(ws[i - 1], es[i - 1]);
    }
  }

  /** Over every run in which the backlog is read at a safe moment, rollbacks anywhere included, the session stays in
      order, so that what is proved of such sessions holds. */
  lemma {:induction false} SafeReadsStayInOrder(ws: seq<World>, es: seq<Event>, i: nat)
    requires Trace(ws, es) && Steady(ws[0]) && ws[0].session.None? && i < |ws|
    requires forall k :: 0 <= k < |es| && es[k].ReadBacklog? && ws[k].session.Some? ==> ReadIsSafe(ws[k], ws[k].session.value.since)
    ensures InOrder(ws[i]) && Settled(ws[i])
  {
    hide InOrder, Since, ReadIsSafe, Steady;
    if i == 0 {
      NoSession(ws[0]);
    } else {
      SafeReadsStayInOrder(ws, es, i - 1);
      assert ws[i - 1 + 1] == Next(ws[i - 1], es[i - 1]);
      NextInOrder(ws[i - 1], es[i - 1]);
      StepSafe(ws[i - 1], es[i - 1]);
    }
  }

  lemma NoSession(w: World)
    requires Steady(w) && w.session.None?
    ensures InOrder(w) && Settled(w)
  {
  }

  lemma StepSafe(w: World, e: Event)
    requires InOrder(w) && Settled(w) && Can(w, e)
    requires e.ReadBacklog? && w.session.Some? ==> ReadIsSafe(w, w.session.value.since)
    ensures Settled(Next(w, e))
  {
  }

  lemma InOrderIsTruthful(w: World)
    requires InOrder(w)
    ensures Truthful(w)
  {
    hide Since;
    if w.session.Some? && w.session.value.backlog.Some? {
      var s := w.session.value;
      var seen: nat :| ReadAt(w.log, s, seen);
      BacklogIs(w, s, seen);
    }
  }

  /** A batch in progress can always be taken back whole. */
  lemma {:induction false} TakeBack(w: World) returns (ws: seq<World>, es: seq<Event>)
    requires Steady(w) && w.published == w.committed
    ensures Trace(ws, es) && ws[0] == w && |ws[|ws| - 1].log| == w.committed && ws[|ws| - 1].session == w.session
    decreases |w.log|
  {
    if |w.log| == w.committed {
      ws, es := [w], [];
    } else {
      var n := Next(w, RollBack);
      var vs, fs := TakeBack(n);
      ws, es := [w] + vs, [RollBack] + fs;
      TracePrepended(w, RollBack, vs, fs);
    }
  }

  lemma TracePrepended(w: World, e: Event, vs: seq<World>, fs: seq<Event>)
    requires Trace(vs, fs) && Can(w, e) && vs[0] == Next(w, e)
    ensures Trace([w] + vs, [e] + fs)
  {
    hide Can, Next;
    forall i | 0 <= i < |fs| + 1
      ensures Can(([w] + vs)[i], ([e] + fs)[i]) && ([w] + vs)[i + 1] == Next(([w] + vs)[i], ([e] + fs)[i])
    {
      assert i > 0 ==> vs[i] == Next(vs[i - 1], fs[i - 1]);
    }
  }

  /** A backlog stays what the log holds, through every continuation, exactly when no entry of it belongs to the
      batch in progress. */
  lemma StaysTruthfulExactly(w: World)
    requires InOrder(w) && w.session.Some? && w.session.value.backlog.Some?
    ensures StaysTruthful(w) <==> Settled(w)
  {
    hide InOrder, Since, Truthful;
    if Settled(w) {
      forall ws, es | Trace(ws, es) && ws[0] == w
        ensures Truthful(ws[|ws| - 1])
      {
        StaysSettled(ws, es, |ws| - 1);
        InOrderIsTruthful(ws[|ws| - 1]);
      }
    } else {
      UnsettledBreaks(w);
    }
  }

  lemma UnsettledBreaks(w: World)
    requires InOrder(w) && w.session.Some? && w.session.value.backlog.Some? && !Settled(w)
    ensures !StaysTruthful(w)
  {
    hide Since, Can, Next;
    var s := w.session.value;
    var seen: nat :| ReadAt(w.log, s, seen);
    BacklogIs(w, s, seen);
    var b := s.backlog.value;
    var last := b[|b| - 1];
    assert w.log[s.since + |b| - 1] == last.op && last.seqno == s.since + |b| > w.committed;
    var ws, es := TakeBack(w);
    assert Has(s, last) && !Holds(ws[|ws| - 1].log, last);
    assert !Truthful(ws[|ws| - 1]);
  }

  /** So a client is sent nothing but what the log holds and will hold, whatever is rolled back, exactly when its
      backlog is read at a safe moment. */
  lemma DeliveryIsTrueExactly(w: World)
    requires Steady(w) && w.session.Some? && w.session.value.backlog.None?
    ensures StaysTruthful(Next(w, ReadBacklog)) <==> ReadIsSafe(w, w.session.value.since)
  {
    hide StaysTruthful;
    NextInOrder(w, ReadBacklog);
    StaysTruthfulExactly(Next(w, ReadBacklog));
  }

  /** The unsafe moment is real: a client that reads its backlog during a batch that fails keeps an operation the log
      no longer has, and then receives another under the same number. */
  lemma RollBackBreaksDelivery(a: Op, b: Op) returns (ws: seq<World>, es: seq<Event>)
    requires a != b
    ensures Trace(ws, es) && ws[0] == NOTHING && ws[|ws| - 1].session.Some? && ws[|ws| - 1].session.value.backlog.Some?
    ensures Has(ws[|ws| - 1].session.value, Sequenced(1, a)) && Has(ws[|ws| - 1].session.value, Sequenced(1, b))
    ensures a !in ws[|ws| - 1].log
  {
    hide Since;
    ws, es := [NOTHING], [];
    ws, es := Continued(ws, es, Connect(0));
    ws, es := Continued(ws, es, Append(a));
    ws, es := Continued(ws, es, ReadBacklog);
    assert ws[|ws| - 1].session.value.backlog.value[0] == Sequenced(1, a);
    ws, es := Continued(ws, es, RollBack);
    ws, es := Continued(ws, es, Append(b));
    ws, es := Continued(ws, es, Commit);
    ws, es := Continued(ws, es, Publish);
    ws, es := Continued(ws, es, Receive);
    assert ws[|ws| - 1].session.value.live == [Sequenced(1, b)] && ws[|ws| - 1].log == [b];
  }

  // ----- the gap is real too

  /** Operations ingested one by one from an empty log. */
  lemma {:induction false} Ingested(ops: seq<Op>) returns (ws: seq<World>, es: seq<Event>)
    ensures Trace(ws, es) && ws[0] == NOTHING && ws[|ws| - 1] == World(ops, |ops|, |ops|, false, None)
    ensures forall e :: e in es ==> !e.RollBack?
  {
    if ops == [] {
      ws, es := [NOTHING], [];
    } else {
      var front, last := ops[..|ops| - 1], ops[|ops| - 1];
      ws, es := Ingested(front);
      ws, es := Continued(ws, es, Append(last));
      ws, es := Continued(ws, es, Commit);
      ws, es := Continued(ws, es, Publish);
      assert front + [last] == ops;
    }
  }

  /** A client that subscribes from the start when one operation more than a page has been published, and then
      receives the next one, misses an operation. */
  lemma GapHappens(ops: seq<Op>) returns (ws: seq<World>, es: seq<Event>)
    requires |ops| == MAX_OPS_PAGE + 2
    ensures Trace(ws, es) && ws[0] == NOTHING && (forall e :: e in es ==> !e.RollBack?)
    ensures var w := ws[|ws| - 1];
            && w.log == ops && w.session.Some? && w.session.value.backlog.Some? && |w.session.value.live| == 1
            && !NoGap(w, w.session.value)
  {
    hide Since, NoGap, InOrder;
    var front, last := ops[..MAX_OPS_PAGE + 1], ops[MAX_OPS_PAGE + 1];
    ws, es := Ingested(front);
    ws, es := Continued(ws, es, Connect(0));
    ws, es := Continued(ws, es, ReadBacklog);
    ws, es := Continued(ws, es, Append(last));
    ws, es := Continued(ws, es, Commit);
    ws, es := Continued(ws, es, Publish);
    ws, es := Continued(ws, es, Receive);
    assert front + [last] == ops;
    assert InOrder(NOTHING) by { NothingInOrder(); }
    TracesInOrder(ws, es, |ws| - 1);
    NoGapExactly(ws[|ws| - 1], ws[|ws| - 1].session.value);
  }

  lemma NothingInOrder()
    ensures InOrder(NOTHING)
  {
  }
}
