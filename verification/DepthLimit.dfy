/** What the depth limit of the walk in `crates/ink-format/src/snapshot.rs` comes to, said without the walk. */
module DepthLimit {
  import opened Fields
  import opened SnapshotSpec
  import opened FirstPaths
  import opened Snapshots

  /** The first of these to lead to `x`. */
  lemma {:induction false} FirstLeading(s: Snapshot, choices: seq<Id>, x: Id) returns (i: nat)
    requires exists c :: c in choices && Leads(s, c, x)
    ensures i < |choices| && Leads(s, choices[i], x) && forall j :: 0 <= j < i ==> !Leads(s, choices[j], x)
  {
    hide Leads;
    if Leads(s, choices[0], x) {
      return 0;
    }
    var rest := choices[1..];
    assert forall c :: c in choices && c != choices[0] ==> c in rest;
    i := FirstLeading(s, rest, x);
    i := i + 1;
    assert forall j :: 0 < j < i ==> choices[j] == rest[j - 1];
  }

  lemma StepTowards(s: Snapshot, y: Id, x: Id)
    requires Leads(s, y, x) && y != x
    ensures y in s.records && exists c :: c in s.records[y].dependencies && Leads(s, c, x)
  {
    var q :| RouteBetween(s, q, y, x);
    assert RouteBetween(s, q[1..], q[1], x);
    assert q[1] in s.records[y].dependencies && Leads(s, q[1], x);
  }

  /** Taking the first choice that leads there. */
  lemma FirstStep(s: Snapshot, q: seq<Id>, x: Id) returns (c: Id)
    requires (q == [] || Path(s, q)) && !Forestalled(s, q, x)
    requires (q != [] ==> q[|q| - 1] in s.records) && exists c :: c in Choices(s, q) && Leads(s, c, x)
    ensures c in Choices(s, q) && Leads(s, c, x) && Path(s, q + [c]) && !Forestalled(s, q + [c], x)
  {
    hide Leads, Choices, Prior;
    var choices := Choices(s, q);
    var i := FirstLeading(s, choices, x);
    c := choices[i];
    var p := q + [c];
    PriorIs(choices, i);
    forall j: nat, y | Skipped(s, p, j, y)
      ensures !Leads(s, y, x)
    {
      SkippedWithin(s, p, j, y);
      if j < |q| {
        SkippedEarlier(s, q, p, j, y);
      } else {
        assert p[..j] == q;
      }
    }
    Continued(s, q, c);
  }

  lemma Continued(s: Snapshot, q: seq<Id>, c: Id)
    requires (q == [] || Path(s, q)) && (q != [] ==> q[|q| - 1] in s.records) && c in Choices(s, q)
    ensures Path(s, q + [c])
  {
    var p := q + [c];
    forall i | 0 <= i < |p| - 1
      ensures p[i] in s.records && p[i + 1] in s.records[p[i]].dependencies
    {
      if i < |q| - 1 {
        assert p[i] == q[i] && p[i + 1] == q[i + 1];
      }
    }
  }

  /** In an acyclic snapshot a first path leads to whatever some path leads to. */
  lemma {:induction false} FirstPathFrom(s: Snapshot, order: seq<Id>, q: seq<Id>, at: nat, x: Id) returns (p: seq<Id>)
    requires Topological(s, order) && q != [] && Path(s, q) && !Forestalled(s, q, x) && Leads(s, q[|q| - 1], x)
    requires at < |order| && order[at] == q[|q| - 1]
    ensures First(s, p) && p[|p| - 1] == x
    decreases at
  {
    hide Leads, Forestalled, Path;
    var y := q[|q| - 1];
    if y == x {
      return q;
    }
    StepTowards(s, y, x);
    var c := FirstStep(s, q, x);
    var next :| 0 <= next < at && order[next] == c;
    p := FirstPathFrom(s, order, q + [c], next, x);
  }

  lemma FirstPathTo(s: Snapshot, x: Id) returns (p: seq<Id>)
    requires Acyclic(s) && Closed(s) && Reachable(s, x)
    ensures First(s, p) && p[|p| - 1] == x
  {
    hide Leads;
    var order :| Ordered(s, order);
    var some :| Path(s, some) && some[|some| - 1] == x;
    PathLeads(s, some, 0);
    assert some[0] in Choices(s, []);
    var c := FirstStep(s, [], x);
    assert [] + [c] == [c] && c in order;
    var at :| 0 <= at < |order| && order[at] == c;
    p := FirstPathFrom(s, order, [c], at, x);
  }

  /** No path to the record is short enough. */
  ghost predicate FarAway(s: Snapshot, x: Id) { x in s.records && forall p :: Path(s, p) && p[|p| - 1] == x ==> |p| > 65 }

  /** The depth check lets an exact snapshot pass when no dependency path has more than 65 records, and stops one with a
      record that only longer paths lead to. */
  lemma DepthBounds(w: World, s: Snapshot, supported: seq<U64>)
    requires Exact(w, s, supported) && Acyclic(s)
    ensures (forall p :: Path(s, p) ==> |p| <= 65) ==> forall p :: First(s, p) ==> !TooDeep(p)
    ensures (exists x :: FarAway(s, x)) ==> exists p :: First(s, p) && TooDeep(p)
  {
    hide Exact, Acyclic, Path, Forestalled, Reachable, Closed, ReadDocument, Entries;
    if forall p :: Path(s, p) ==> |p| <= 65 {
      forall p | First(s, p)
        ensures !TooDeep(p)
      {
        AcceptedGraph(w, s, supported, p);
      }
    }
    if x :| FarAway(s, x) {
      ExactRecords(w, s, supported);
      var p := FirstPathTo(s, x);
      assert TooDeep(p);
    }
  }
}
