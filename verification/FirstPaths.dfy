/** The order in which the depth-first walk of `crates/ink-format/src/snapshot.rs` meets records: each along its first
    path, the one that no earlier alternative forestalls. */
module FirstPaths {
  import opened Fields
  import opened SnapshotSpec

  // ----- routes along dependencies

  ghost predicate Route(s: Snapshot, q: seq<Id>) {
    q != [] && forall i :: 0 <= i < |q| - 1 ==> q[i] in s.records && q[i + 1] in s.records[q[i]].dependencies
  }

  ghost predicate RouteBetween(s: Snapshot, q: seq<Id>, y: Id, x: Id) { Route(s, q) && q[0] == y && q[|q| - 1] == x }

  /** Some route leads from `y` to `x`. */
  ghost predicate Leads(s: Snapshot, y: Id, x: Id) { exists q :: RouteBetween(s, q, y, x) }

  lemma LeadsSelf(s: Snapshot, x: Id)
    ensures Leads(s, x, x)
  {
    assert RouteBetween(s, [x], x, x);
  }

  lemma LeadsFurther(s: Snapshot, x: Id, y: Id, z: Id)
    requires Leads(s, x, y) && Leads(s, y, z)
    ensures Leads(s, x, z)
  {
    var a :| RouteBetween(s, a, x, y);
    var b :| RouteBetween(s, b, y, z);
    var c := a + b[1..];
    forall i | 0 <= i < |c| - 1
      ensures c[i] in s.records && c[i + 1] in s.records[c[i]].dependencies
    {
      if i < |a| - 1 {
        assert c[i] == a[i] && c[i + 1] == a[i + 1];
      } else {
        var j := i - (|a| - 1);
        assert c[i] == b[j] && c[i + 1] == b[j + 1];
      }
    }
    assert RouteBetween(s, c, x, z);
  }

  lemma LeadsToChild(s: Snapshot, x: Id, child: Id)
    requires x in s.records && child in s.records[x].dependencies
    ensures Leads(s, x, child)
  {
    assert RouteBetween(s, [x, child], x, child);
  }

  lemma PathLeads(s: Snapshot, p: seq<Id>, i: nat)
    requires Path(s, p) && i < |p|
    ensures Leads(s, p[i], p[|p| - 1])
  {
    var q := p[i..];
    forall k | 0 <= k < |q| - 1
      ensures q[k] in s.records && q[k + 1] in s.records[q[k]].dependencies
    {
      assert q[k] == p[i + k] && q[k + 1] == p[i + k + 1];
    }
    assert RouteBetween(s, q, p[i], p[|p| - 1]);
  }

  /** What contains every dependency of its members contains whatever they lead to. */
  ghost predicate ClosedSet(s: Snapshot, visited: set<Id>) {
    forall x, d :: x in visited && x in s.records && d in s.records[x].dependencies ==> d in visited
  }

  lemma {:induction false} RouteInside(s: Snapshot, visited: set<Id>, q: seq<Id>, i: nat)
    requires ClosedSet(s, visited) && Route(s, q) && q[0] in visited && i < |q|
    ensures q[i] in visited
  {
    if i > 0 {
      RouteInside(s, visited, q, i - 1);
      assert q[i - 1 + 1] in s.records[q[i - 1]].dependencies;
    }
  }

  lemma LeadsInside(s: Snapshot, visited: set<Id>, y: Id, x: Id)
    requires ClosedSet(s, visited) && y in visited && Leads(s, y, x)
    ensures x in visited
  {
    hide ClosedSet;
    var q :| RouteBetween(s, q, y, x);
    RouteInside(s, visited, q, |q| - 1);
  }

  // ----- first paths

  /** The entries before the first `x`. */
  function Prior(list: seq<Id>, x: Id): seq<Id> {
    if list == [] || list[0] == x then [] else [list[0]] + Prior(list[1..], x)
  }

  lemma {:induction false} PriorIs(list: seq<Id>, i: nat)
    requires i < |list| && list[i] !in list[..i]
    ensures Prior(list, list[i]) == list[..i]
  {
    if i > 0 {
      assert list[0] in list[..i] && list[1..][i - 1] == list[i];
      assert forall x :: x in list[1..][..i - 1] ==> x in list[..i];
      PriorIs(list[1..], i - 1);
      assert list[..i] == [list[0]] + list[1..][..i - 1];
    }
  }

  /** What a path may continue with: the dependencies of its last record, of the root where it begins. */
  function Choices(s: Snapshot, p: seq<Id>): seq<Id> {
    if p == [] then s.root.dependencies
    else if p[|p| - 1] in s.records then s.records[p[|p| - 1]].dependencies
    else []
  }

  /** At step `i` the path could have taken `y` instead, earlier in the list. */
  predicate Skipped(s: Snapshot, p: seq<Id>, i: nat, y: Id) { i < |p| && y in Prior(Choices(s, p[..i]), p[i]) }

  /** An earlier alternative at some step leads to `x` as well. */
  ghost predicate Forestalled(s: Snapshot, p: seq<Id>, x: Id) { exists i: nat, y :: Skipped(s, p, i, y) && Leads(s, y, x) }

  /** No earlier alternative leads to where the path leads. */
  ghost predicate First(s: Snapshot, p: seq<Id>) { Path(s, p) && !Forestalled(s, p, p[|p| - 1]) }

  lemma SkippedEarlier(s: Snapshot, q: seq<Id>, p: seq<Id>, i: nat, y: Id)
    requires q <= p && i < |q|
    ensures Skipped(s, q, i, y) <==> Skipped(s, p, i, y)
  {
    assert q[..i] == p[..i] && q[i] == p[i];
  }

  lemma ForestalledLonger(s: Snapshot, q: seq<Id>, p: seq<Id>, x: Id)
    requires q <= p && Forestalled(s, q, x)
    ensures Forestalled(s, p, x)
  {
    hide Skipped;
    var i: nat, y :| Skipped(s, q, i, y) && Leads(s, y, x);
    assert i < |q| by { SkippedWithin(s, q, i, y); }
    SkippedEarlier(s, q, p, i, y);
  }

  lemma SkippedWithin(s: Snapshot, q: seq<Id>, i: nat, y: Id)
    requires Skipped(s, q, i, y)
    ensures i < |q|
  {
  }

  /** Once a record of a path is forestalled, so is where the path leads. */
  lemma NotFirst(s: Snapshot, q: seq<Id>, p: seq<Id>)
    requires q != [] && q <= p && Forestalled(s, q, q[|q| - 1])
    ensures !First(s, p)
  {
    hide Skipped;
    if Path(s, p) {
      ForestalledLonger(s, q, p, q[|q| - 1]);
      var i: nat, y :| Skipped(s, p, i, y) && Leads(s, y, q[|q| - 1]);
      assert p[|q| - 1] == q[|q| - 1];
      PathLeads(s, p, |q| - 1);
      LeadsFurther(s, y, q[|q| - 1], p[|p| - 1]);
    }
  }

  // ----- where the walk stands when it is about to continue the path `q`

  /** The alternatives skipped on the way are visited, and nothing else is but what they lead to. */
  ghost predicate AtEdge(s: Snapshot, p: seq<Id>, visited: set<Id>) {
    && (forall i: nat, y :: Skipped(s, p, i, y) ==> y in visited)
    && (forall x :: x in visited ==> Forestalled(s, p, x))
  }

  /** After the first `i` choices behind `q`: what is visited was visited before, or is what they lead to. */
  ghost predicate Grew(s: Snapshot, before: set<Id>, choices: seq<Id>, i: nat, visited: set<Id>)
    requires i <= |choices|
  {
    && before <= visited && (forall j :: 0 <= j < i ==> choices[j] in visited)
    && (forall x :: x in visited && x !in before ==> LedTo(s, choices, i, x))
  }

  ghost predicate LedTo(s: Snapshot, choices: seq<Id>, i: nat, x: Id)
    requires i <= |choices|
  {
    exists j :: 0 <= j < i && Leads(s, choices[j], x)
  }

  /** Continuing with a choice not made before. */
  lemma EdgeBehind(s: Snapshot, q: seq<Id>, before: set<Id>, i: nat, visited: set<Id>)
    requires AtEdge(s, q, before) && i < |Choices(s, q)| && Grew(s, before, Choices(s, q), i, visited)
    requires Choices(s, q)[i] !in Choices(s, q)[..i]
    ensures AtEdge(s, q + [Choices(s, q)[i]], visited)
  {
    hide Leads, Skipped, Choices;
    var choices := Choices(s, q);
    var p := q + [choices[i]];
    forall x | x in visited
      ensures Forestalled(s, p, x)
    {
      if x in before {
        ForestalledLonger(s, q, p, x);
      } else {
        assert LedTo(s, choices, i, x);
        var j :| 0 <= j < i && Leads(s, choices[j], x);
        SkippedLast(s, q, i, choices[j]);
      }
    }
    forall k: nat, y | Skipped(s, p, k, y)
      ensures y in visited
    {
      SkippedWithin(s, p, k, y);
      if k < |q| {
        SkippedEarlier(s, q, p, k, y);
      } else {
        SkippedLast(s, q, i, y);
        var j :| 0 <= j < |choices[..i]| && choices[..i][j] == y;
      }
    }
  }

  lemma SkippedLast(s: Snapshot, q: seq<Id>, i: nat, y: Id)
    requires i < |Choices(s, q)| && Choices(s, q)[i] !in Choices(s, q)[..i]
    ensures Skipped(s, q + [Choices(s, q)[i]], |q|, y) <==> y in Choices(s, q)[..i]
  {
    hide Choices;
    PriorIs(Choices(s, q), i);
    assert (q + [Choices(s, q)[i]])[..|q|] == q;
  }

  /** A record about to be visited for the first time is met on its first path. */
  lemma EdgeIsFirst(s: Snapshot, p: seq<Id>, visited: set<Id>)
    requires Path(s, p) && AtEdge(s, p, visited) && ClosedSet(s, visited) && p[|p| - 1] !in visited
    ensures First(s, p)
  {
    hide Leads, Skipped, ClosedSet;
    if Forestalled(s, p, p[|p| - 1]) {
      var i: nat, y :| Skipped(s, p, i, y) && Leads(s, y, p[|p| - 1]);
      LeadsInside(s, visited, y, p[|p| - 1]);
    }
  }

  /** No first path behind `q` through its first `i` choices is longer than the walk may go. */
  ghost predicate Bounded(s: Snapshot, q: seq<Id>, i: nat)
    requires i <= |Choices(s, q)|
  {
    forall p :: First(s, p) && Behind(s, q, i, p) ==> |p| <= LONGEST_PATH
  }

  predicate Behind(s: Snapshot, q: seq<Id>, i: nat, p: seq<Id>)
    requires i <= |Choices(s, q)|
  {
    q <= p && |p| > |q| && p[|q|] in Choices(s, q)[..i]
  }

  ghost predicate AllBounded(s: Snapshot, q: seq<Id>) { forall p :: First(s, p) && q <= p ==> |p| <= LONGEST_PATH }

  /** One more choice, which the walk has dealt with. */
  lemma BoundedMore(s: Snapshot, q: seq<Id>, before: set<Id>, i: nat, visited: set<Id>)
    requires AtEdge(s, q, before) && i < |Choices(s, q)| && Grew(s, before, Choices(s, q), i, visited) && Bounded(s, q, i)
    requires Choices(s, q)[i] in visited || AllBounded(s, q + [Choices(s, q)[i]])
    ensures Bounded(s, q, i + 1)
  {
    hide Leads, Skipped, Choices, First, Grew;
    var choices := Choices(s, q);
    var c := choices[i];
    forall p | First(s, p) && Behind(s, q, i + 1, p)
      ensures |p| <= LONGEST_PATH
    {
      if p[|q|] !in choices[..i] {
        assert choices[..i + 1] == choices[..i] + [c];
        assert q + [c] <= p;
        if c in visited {
          EdgeBehind(s, q, before, i, visited);
          NotFirst(s, q + [c], p);
        }
      } else {
        assert Behind(s, q, i, p);
      }
    }
  }

  /** All choices dealt with. */
  lemma BoundedAll(s: Snapshot, q: seq<Id>)
    requires Bounded(s, q, |Choices(s, q)|) && |q| <= LONGEST_PATH
    ensures AllBounded(s, q)
  {
    hide Leads, Skipped, Forestalled;
    var choices := Choices(s, q);
    forall p | First(s, p) && q <= p
      ensures |p| <= LONGEST_PATH
    {
      if |p| > |q| {
        ContinuesChoices(s, q, p);
        assert choices[..|choices|] == choices;
        assert Behind(s, q, |choices|, p);
      }
    }
  }

  lemma ContinuesChoices(s: Snapshot, q: seq<Id>, p: seq<Id>)
    requires Path(s, p) && q <= p && |p| > |q|
    ensures p[|q|] in Choices(s, q)
  {
    if q != [] {
      var i := |q| - 1;
      assert p[i] == q[i] && p[i + 1] in s.records[p[i]].dependencies;
    }
  }

  lemma ChoicesOf(s: Snapshot, trail: seq<Id>, id: Id)
    requires id in s.records
    ensures Choices(s, trail + [id]) == s.records[id].dependencies
  {
  }

  lemma NothingGrew(s: Snapshot, visited: set<Id>, q: seq<Id>)
    ensures Grew(s, visited, Choices(s, q), 0, visited) && Bounded(s, q, 0)
  {
  }

  lemma GrewHas(s: Snapshot, before: set<Id>, choices: seq<Id>, i: nat, visited: set<Id>)
    requires i <= |choices| && Grew(s, before, choices, i, visited)
    ensures before <= visited && forall x :: x in choices[..i] ==> x in visited
  {
  }

  /** The walk behind one more choice adds what that leads to. */
  lemma GrewMore(s: Snapshot, before: set<Id>, choices: seq<Id>, i: nat, visited: set<Id>, after: set<Id>)
    requires i < |choices| && Grew(s, before, choices, i, visited)
    requires visited <= after && choices[i] in after && forall x :: x in after && x !in visited ==> Leads(s, choices[i], x)
    ensures Grew(s, before, choices, i + 1, after)
  {
    hide Leads;
    forall x | x in after && x !in before
      ensures LedTo(s, choices, i + 1, x)
    {
      if x in visited {
        assert LedTo(s, choices, i, x);
        var j :| 0 <= j < i && Leads(s, choices[j], x);
      } else {
        assert Leads(s, choices[i], x);
      }
    }
  }

  lemma LedToIsLed(s: Snapshot, id: Id, before: set<Id>, visited: set<Id>)
    requires id in s.records && Grew(s, before, s.records[id].dependencies, |s.records[id].dependencies|, visited)
    ensures forall x :: x in visited + {id} && x !in before ==> Leads(s, id, x)
  {
    hide Leads;
    var choices := s.records[id].dependencies;
    forall x | x in visited + {id} && x !in before
      ensures Leads(s, id, x)
    {
      if x == id {
        LeadsSelf(s, id);
      } else {
        assert LedTo(s, choices, |choices|, x);
        var j :| 0 <= j < |choices| && Leads(s, choices[j], x);
        LeadsToChild(s, id, choices[j]);
        LeadsFurther(s, id, choices[j], x);
      }
    }
  }
}
