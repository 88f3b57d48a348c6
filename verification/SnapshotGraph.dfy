/** The depth-first walk of `validate_metadata` over the dependency graph. */
module SnapshotGraph {
  import opened Fields
  import opened Records
  import opened SnapshotSpec
  import opened FirstPaths

  /** Accepted; refused for a cycle or for depth; refused for any other reason. */
  datatype Verdict = Accepted | Deep | Refused

  /** The checks on one record before its dependencies are visited. */
  method CheckNode(w: World, s: Snapshot, r: Record) returns (ok: bool)
    ensures ok <==> NodeFits(w, s, r)
  {
    hide ReadPage, ReadStroke, ReadGeometry, ReadProfile, ReadSession, ReadBrush, StrokeAt, GeometryAt, ProfileAt,
         SessionAt, BrushAt;
    for i := 0 to |r.resources|
      invariant forall h :: h in r.resources[..i] ==> h in s.resources
    {
      if r.resources[i] !in s.resources {
        assert r.resources[i] in r.resources;
        return false;
      }
      assert r.resources[..i + 1] == r.resources[..i] + [r.resources[i]];
    }
    assert r.resources[..|r.resources|] == r.resources;
    if r.kind == PAGE {
      ok := CheckPage(w, s, r);
    } else if r.kind == STROKE {
      ok := StrokeFits(w, s, r);
    } else if r.kind == GEOMETRY {
      ok := GeometryFits(w, s, r);
    } else if r.kind == SOURCE_PROFILE {
      ok := ReadProfile(w, r).Ok?;
    } else if r.kind == BRUSH {
      ok := ReadBrush(w, r).Ok?;
    } else if r.kind == SESSION {
      ok := ReadSession(w, r).Ok?;
    } else {
      ok := false;
    }
  }

  method CheckPage(w: World, s: Snapshot, r: Record) returns (ok: bool)
    ensures ok <==> PageFits(w, s, r)
  {
    hide ReadPage, StrokeAt;
    var page := ReadPage(w, r);
    if page.Err? || page.value.recognition != [] || page.value.corrections != [] {
      return false;
    }
    var objects := page.value.objects;
    for i := 0 to |objects|
      invariant forall o :: o in objects[..i] ==> PlacedObject(w, s, o)
    {
      if !PlacedObject(w, s, objects[i]) {
        assert objects[i] in objects;
        return false;
      }
      assert objects[..i + 1] == objects[..i] + [objects[i]];
    }
    assert objects[..|objects|] == objects;
    ok := true;
  }

  lemma Extend(s: Snapshot, p: seq<Id>, child: Id)
    requires Path(s, p) && p[|p| - 1] in s.records && child in s.records[p[|p| - 1]].dependencies
    ensures Path(s, p + [child])
  {
    var q := p + [child];
    forall i | 0 <= i < |q| - 1
      ensures q[i] in s.records && q[i + 1] in s.records[q[i]].dependencies
    {
      if i < |p| - 1 {
        assert q[i] == p[i] && q[i + 1] == p[i + 1];
      }
    }
  }

  /** The records walked so far: sound, reachable, and in an order that puts dependencies first. */
  ghost predicate Walked(w: World, s: Snapshot, visited: set<Id>, order: seq<Id>) {
    && (forall x :: x in visited <==> x in order)
    && Topological(s, order)
    && (forall x :: x in visited ==> x in s.records && NodeFits(w, s, s.records[x]) && Reachable(s, x))
  }

  lemma WalkedOne(w: World, s: Snapshot, visited: set<Id>, order: seq<Id>, p: seq<Id>, id: Id)
    requires Walked(w, s, visited, order) && id !in visited
    requires Path(s, p) && p[|p| - 1] == id
    requires id in s.records && NodeFits(w, s, s.records[id])
    requires forall d :: d in s.records[id].dependencies ==> d in visited
    ensures Walked(w, s, visited + {id}, order + [id])
  {
    hide NodeFits, Path;
    var more := order + [id];
    forall i, j | 0 <= i < j < |more|
      ensures more[i] != more[j]
    {
      if j == |order| {
        assert order[i] in order;
      }
    }
    forall i, d | 0 <= i < |more| && d in s.records[more[i]].dependencies
      ensures d in more[..i]
    {
      if i < |order| {
        assert more[..i] == order[..i];
      } else {
        assert more[..i] == order;
      }
    }
    assert Reachable(s, id);
  }

  class Walk {
    const w: World
    const s: Snapshot
    var visited: set<Id>
    var active: set<Id>
    ghost var order: seq<Id>

    constructor (w: World, s: Snapshot)
      ensures this.w == w && this.s == s && visited == {} && active == {} && order == []
      ensures Valid()
    {
      this.w, this.s := w, s;
      visited, active, order := {}, {}, [];
    }

    ghost predicate Valid()
      reads this
    {
      Walked(w, s, visited, order) && visited !! active
    }

    /** Visits a record along the path `trail`. When it is accepted, the walk has grown by the record and what it leads
        to, in topological order, and no first path through here is too long; when it is refused, `bad` is a real path
        to the reason: a first path that meets a record again or is longer than 64 steps, or a path to a record that
        does not fit. */
    method Visit(id: Id, depth: nat, ghost trail: seq<Id>) returns (v: Verdict, ghost bad: seq<Id>)
      requires Valid() && depth == |trail| <= LONGEST_PATH && Path(s, trail + [id])
      requires active == set x | x in trail
      requires id !in visited ==> AtEdge(s, trail + [id], visited)
      modifies this
      ensures v.Accepted? ==> Valid() && active == old(active) && old(order) <= order && id in visited && old(visited) <= visited
      ensures v.Accepted? ==> forall x :: x in visited && x !in old(visited) ==> Leads(s, id, x)
      ensures v.Accepted? && id !in old(visited) ==> AllBounded(s, trail + [id])
      ensures v.Deep? ==> First(s, bad) && TooDeep(bad)
      ensures v.Refused? ==> Path(s, bad) && Broken(w, s, bad[|bad| - 1])
      decreases LONGEST_PATH - depth
    {
      hide NodeFits, Path, Walked, AtEdge, Bounded, AllBounded, First, Leads, ClosedSet, Choices, Grew;
      ghost var q := trail + [id];
      bad := q;
      if id in visited {
        assert id in order by { Members(w, s, visited, order); }
        return Accepted, bad;
      }
      WalkedClosed(w, s, visited, order);
      if depth > 64 || id in active {
        assert bad[..|bad| - 1] == trail;
        EdgeIsFirst(s, bad, visited);
        return Deep, bad;
      }
      active := active + {id};
      var r := Get(s, id);
      if r.Err? {
        return Refused, bad;
      }
      var ok := CheckNode(w, s, r.value);
      if !ok {
        return Refused, bad;
      }
      var children := r.value.dependencies;
      assert Choices(s, q) == children by { ChoicesOf(s, trail, id); }
      NothingGrew(s, visited, q);
      for i := 0 to |children|
        invariant Valid() && active == set x | x in trail + [id]
        invariant old(order) <= order && Grew(s, old(visited), children, i, visited) && Bounded(s, q, i)
      {
        Extend(s, q, children[i]);
        ghost var before, done := visited, order;
        if children[i] !in visited {
          assert children[i] !in children[..i] by { GrewHas(s, old(visited), children, i, visited); }
          EdgeBehind(s, q, old(visited), i, visited);
        }
        v, bad := Visit(children[i], depth + 1, q);
        if !v.Accepted? {
          return;
        }
        BoundedMore(s, q, old(visited), i, before);
        GrewMore(s, old(visited), children, i, before, visited);
      }
      BoundedAll(s, q);
      assert id !in trail;
      assert active - {id} == set x | x in trail;
      LedToIsLed(s, id, old(visited), visited);
      GrewHas(s, old(visited), children, |children|, visited);
      WalkedOne(w, s, visited, order, q, id);
      active := active - {id};
      visited := visited + {id};
      order := order + [id];
      v := Accepted;
    }
  }

  lemma WalkedClosed(w: World, s: Snapshot, visited: set<Id>, order: seq<Id>)
    requires Walked(w, s, visited, order)
    ensures ClosedSet(s, visited)
  {
    hide NodeFits, Path;
    forall x, d | x in visited && x in s.records && d in s.records[x].dependencies
      ensures d in visited
    {
      var k :| 0 <= k < |order| && order[k] == x;
      assert d in order[..k];
    }
  }

  lemma Members(w: World, s: Snapshot, visited: set<Id>, order: seq<Id>)
    requires Walked(w, s, visited, order)
    ensures forall x :: x in visited <==> x in order
  {
    hide NodeFits;
  }

  lemma Grown(w: World, s: Snapshot, before: set<Id>, done: seq<Id>, after: set<Id>, order: seq<Id>)
    requires Walked(w, s, before, done) && Walked(w, s, after, order) && done <= order
    ensures before <= after
  {
    hide NodeFits;
    forall x | x in before
      ensures x in after
    {
      var i :| 0 <= i < |done| && done[i] == x;
      assert order[i] == x;
    }
  }
}
