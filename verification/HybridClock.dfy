/** The hybrid logical clock of `crates/notes-core/src/hlc.rs`, step by step and over whole runs. */
module HybridClock {
  import opened Results

  const U32_MAX: nat := 0xFFFF_FFFF

  type U32 = n: nat | n <= 0xFFFF_FFFF
  type U64 = n: nat | n < 0x1_0000_0000_0000_0000
  type U128 = n: nat | n < 0x1_0000_0000_0000_0000_0000_0000_0000_0000

  datatype Hlc = Hlc(wall: U64, counter: U32, device: U128)

  /** The derived order: wall time, then counter, then device. */
  predicate Less(a: Hlc, b: Hlc) {
    a.wall < b.wall || (a.wall == b.wall && (a.counter < b.counter || (a.counter == b.counter && a.device < b.device)))
  }

  function Max(a: nat, b: nat): nat { if a < b then b else a }

  function SaturatingSucc(c: U32): U32 { if c == U32_MAX then c else c + 1 }

  /** `Hlc::send`. */
  function Send(previous: Option<Hlc>, now: U64, device: U128): Hlc {
    if previous.Some? && previous.value.wall >= now
    then Hlc(previous.value.wall, SaturatingSucc(previous.value.counter), device)
    else Hlc(now, 0, device)
  }

  /** `Hlc::receive`. */
  function Receive(local: Option<Hlc>, remote: Hlc, now: U64, device: U128): Hlc {
    var localWall := if local.Some? then local.value.wall else 0;
    var wall := Max(Max(now, localWall), remote.wall);
    var here, there := local.Some? && local.value.wall == wall, remote.wall == wall;
    var counter: U32 :=
      if here && there then SaturatingSucc(Max(local.value.counter, remote.counter))
      else if here then SaturatingSucc(local.value.counter)
      else if there then SaturatingSucc(remote.counter)
      else 0;
    Hlc(wall, counter, device)
  }

  // ----- one step

  /** A receipt is later than the message, except when the message already holds the largest counter at the
      resulting wall time and its device does not sort before the receiver's. */
  lemma ReceiveAfterRemote(local: Option<Hlc>, remote: Hlc, now: U64, device: U128)
    ensures Less(remote, Receive(local, remote, now, device)) <==>
              !(remote.counter == U32_MAX && remote.wall >= now && (local.Some? ==> remote.wall >= local.value.wall)
                && device <= remote.device)
  {
  }

  /** A receipt is later than the receiver's own clock, except when the counter is used up there. */
  lemma ReceiveAfterLocal(local: Hlc, remote: Hlc, now: U64)
    ensures Less(local, Receive(Some(local), remote, now, local.device)) <==>
              !(local.counter == U32_MAX && local.wall >= now && local.wall >= remote.wall)
  {
  }

  lemma SendAfterPrevious(previous: Hlc, now: U64)
    ensures Less(previous, Send(Some(previous), now, previous.device)) <==>
              !(previous.counter == U32_MAX && previous.wall >= now)
  {
  }

  /** The exception is real: a used-up counter makes an event that is not later than its cause. */
  lemma SaturationBreaksOrder()
    ensures var used := Hlc(5, U32_MAX, 1);
            Send(Some(used), 5, 1) == used && !Less(used, Receive(None, used, 5, 1))
  {
  }

  // ----- runs

  /** An event on a device: its physical clock reading, and the event whose timestamp it received, if any. */
  datatype Event = Event(device: U128, now: U64, from: Option<nat>)

  /** Messages are received after they were sent; clocks and the pattern of messages are arbitrary. */
  predicate Run(es: seq<Event>) { forall i :: 0 <= i < |es| && es[i].from.Some? ==> es[i].from.value < i }

  /** The last event of a device among the first `n`. */
  function Latest(es: seq<Event>, device: U128, n: nat): (r: Option<nat>)
    requires n <= |es|
    ensures match r
            case Some(j) => j < n && es[j].device == device && forall k :: j < k < n ==> es[k].device != device
            case None => forall k :: 0 <= k < n ==> es[k].device != device
  {
    if n == 0 then None else if es[n - 1].device == device then Some(n - 1) else Latest(es, device, n - 1)
  }

  function Previous(es: seq<Event>, i: nat): Option<nat>
    requires i < |es|
  {
    Latest(es, es[i].device, i)
  }

  /** The timestamp of an event. */
  function Stamp(es: seq<Event>, i: nat): Hlc
    requires Run(es) && i < |es|
  {
    var p := Previous(es, i);
    var local := if p.Some? then Some(Stamp(es, p.value)) else None;
    match es[i].from
    case None => Send(local, es[i].now, es[i].device)
    case Some(j) => Receive(local, Stamp(es, j), es[i].now, es[i].device)
  }

  /** Direct causes: the previous event of the device, and the event whose message is received. */
  predicate Cause(es: seq<Event>, i: nat, j: nat)
    requires j < |es|
  {
    Previous(es, j) == Some(i) || es[j].from == Some(i)
  }

  /** Happens-before: the transitive closure of direct causes. */
  ghost predicate Before(es: seq<Event>, i: nat, j: nat)
    requires Run(es) && j < |es|
    decreases j
  {
    exists k :: 0 <= k < j && Cause(es, k, j) && (k == i || Before(es, i, k))
  }

  /** No counter in the run has reached its limit. */
  ghost predicate Unsaturated(es: seq<Event>)
    requires Run(es)
  {
    forall i :: 0 <= i < |es| ==> Stamp(es, i).counter < U32_MAX
  }

  /** The clock moves past an input: its wall time is not smaller and, where equal, its counter is. */
  predicate Passes(a: Hlc, r: Hlc) { a.wall <= r.wall && (a.wall == r.wall ==> a.counter < r.counter) }

  /** The counter of the result continues this input. */
  predicate Continues(a: Hlc, r: Hlc) { a.wall == r.wall && a.counter + 1 == r.counter }

  lemma SendFacts(local: Option<Hlc>, now: U64, device: U128)
    requires local.Some? ==> local.value.counter < U32_MAX
    ensures var r := Send(local, now, device);
      && r.device == device && r.wall >= now && (local.Some? ==> Passes(local.value, r))
      && (r.wall == now || (local.Some? && local.value.wall == r.wall))
      && (r.counter > 0 ==> local.Some? && Continues(local.value, r))
  {
  }

  lemma ReceiveFacts(local: Option<Hlc>, remote: Hlc, now: U64, device: U128)
    requires remote.counter < U32_MAX && (local.Some? ==> local.value.counter < U32_MAX)
    ensures var r := Receive(local, remote, now, device);
      && r.device == device && r.wall >= now && (local.Some? ==> Passes(local.value, r)) && Passes(remote, r)
      && (r.wall == now || (local.Some? && local.value.wall == r.wall) || remote.wall == r.wall)
      && (r.counter > 0 ==> (local.Some? && Continues(local.value, r)) || Continues(remote, r))
  {
  }

  /** What one event adds to its causes. */
  lemma StampStep(es: seq<Event>, j: nat)
    requires Run(es) && j < |es| && Unsaturated(es)
    ensures Stamp(es, j).device == es[j].device && Stamp(es, j).wall >= es[j].now
    ensures forall i :: 0 <= i < j && Cause(es, i, j) ==> Passes(Stamp(es, i), Stamp(es, j))
    ensures Stamp(es, j).wall == es[j].now ||
            exists i :: 0 <= i < j && Cause(es, i, j) && Stamp(es, i).wall == Stamp(es, j).wall
    ensures Stamp(es, j).counter > 0 ==> exists i :: 0 <= i < j && Cause(es, i, j) && Continues(Stamp(es, i), Stamp(es, j))
  {
    hide Send, Receive, Passes, Continues, Latest;
    var p, f := Previous(es, j), es[j].from;
    var local := if p.Some? then Some(Stamp(es, p.value)) else None;
    assert p.Some? ==> Cause(es, p.value, j);
    assert f.Some? ==> Cause(es, f.value, j);
    if f.None? {
      SendFacts(local, es[j].now, es[j].device);
    } else {
      ReceiveFacts(local, Stamp(es, f.value), es[j].now, es[j].device);
    }
  }

  /** Whatever the skew, an event that happens before another has a smaller timestamp; even its wall time
      and counter are smaller, whatever the devices. */
  lemma {:induction false} BeforeIsLess(es: seq<Event>, i: nat, j: nat)
    requires Run(es) && j < |es| && Unsaturated(es) && Before(es, i, j)
    ensures i < j && Less(Stamp(es, i), Stamp(es, j))
    ensures Stamp(es, i).wall < Stamp(es, j).wall ||
            (Stamp(es, i).wall == Stamp(es, j).wall && Stamp(es, i).counter < Stamp(es, j).counter)
    decreases j
  {
    hide Stamp, Previous;
    var k :| 0 <= k < j && Cause(es, k, j) && (k == i || Before(es, i, k));
    StampStep(es, j);
    if k != i {
      BeforeIsLess(es, i, k);
    }
  }

  /** Events of one device are ordered. */
  lemma {:induction false} DeviceOrder(es: seq<Event>, i: nat, j: nat)
    requires Run(es) && i < j < |es| && es[i].device == es[j].device
    ensures Before(es, i, j)
    decreases j
  {
    var p := Previous(es, j);
    assert p.Some? && i <= p.value;
    assert Cause(es, p.value, j);
    if p.value != i {
      DeviceOrder(es, i, p.value);
    }
  }

  /** No two events of a run share a timestamp. */
  lemma StampsAreUnique(es: seq<Event>, i: nat, j: nat)
    requires Run(es) && Unsaturated(es) && i < j < |es|
    ensures Stamp(es, i) != Stamp(es, j)
  {
    hide Stamp, Before;
    StampStep(es, i);
    StampStep(es, j);
    if es[i].device == es[j].device {
      DeviceOrder(es, i, j);
      BeforeIsLess(es, i, j);
    }
  }

  // ----- what wall time and counter mean

  /** The causal past of an event, itself included. */
  ghost predicate Past(es: seq<Event>, i: nat, j: nat)
    requires Run(es) && j < |es|
  {
    i == j || Before(es, i, j)
  }

  lemma PastOfCause(es: seq<Event>, i: nat, k: nat, j: nat)
    requires Run(es) && k < j < |es| && Cause(es, k, j) && Past(es, i, k)
    ensures Past(es, i, j)
  {
  }

  /** Wall times do not depend on counters. */
  lemma WallStep(es: seq<Event>, j: nat)
    requires Run(es) && j < |es|
    ensures Stamp(es, j).wall >= es[j].now
    ensures forall i :: 0 <= i < j && Cause(es, i, j) ==> Stamp(es, i).wall <= Stamp(es, j).wall
    ensures Stamp(es, j).wall == es[j].now ||
            exists i :: 0 <= i < j && Cause(es, i, j) && Stamp(es, i).wall == Stamp(es, j).wall
  {
    hide Latest;
    var p, f := Previous(es, j), es[j].from;
    assert p.Some? ==> Cause(es, p.value, j);
    assert f.Some? ==> Cause(es, f.value, j);
  }

  /** The wall time is the largest physical reading in the causal past, even of runs whose counters are used up. */
  lemma {:induction false} WallIsLatestReading(es: seq<Event>, j: nat) returns (source: nat)
    requires Run(es) && j < |es|
    ensures forall i :: 0 <= i <= j && Past(es, i, j) ==> es[i].now <= Stamp(es, j).wall
    ensures source <= j && Past(es, source, j) && es[source].now == Stamp(es, j).wall
    decreases j
  {
    hide Stamp, Cause;
    WallStep(es, j);
    forall i | 0 <= i < j && Before(es, i, j)
      ensures es[i].now <= Stamp(es, j).wall
    {
      var k :| 0 <= k < j && Cause(es, k, j) && (k == i || Before(es, i, k));
      var s := WallIsLatestReading(es, k);
      assert Past(es, i, k);
      EarlierOrEqual(es, i, k);
    }
    if Stamp(es, j).wall == es[j].now {
      source := j;
    } else {
      var k :| 0 <= k < j && Cause(es, k, j) && Stamp(es, k).wall == Stamp(es, j).wall;
      source := WallIsLatestReading(es, k);
      PastOfCause(es, source, k, j);
    }
  }

  lemma {:induction false} EarlierOrEqual(es: seq<Event>, i: nat, j: nat)
    requires Run(es) && j < |es| && Past(es, i, j)
    ensures i <= j
    decreases j
  {
    if i != j {
      var k :| 0 <= k < j && Cause(es, k, j) && (k == i || Before(es, i, k));
      EarlierOrEqual(es, i, k);
    }
  }

  /** A chain of direct causes that ends at event `j` and stays at its wall time. */
  ghost predicate Chain(es: seq<Event>, c: seq<nat>, j: nat)
    requires Run(es) && j < |es|
  {
    && c != [] && c[|c| - 1] == j
    && (forall k :: 0 <= k < |c| ==> c[k] < |es| && Stamp(es, c[k]).wall == Stamp(es, j).wall)
    && (forall k :: 0 <= k < |c| - 1 ==> Linked(es, c[k], c[k + 1]))
  }

  predicate Linked(es: seq<Event>, i: nat, j: nat) { i < j < |es| && Cause(es, i, j) }

  /** No causal chain at one wall time is longer than the counter says. */
  lemma {:induction false} ChainsAreShort(es: seq<Event>, c: seq<nat>, j: nat)
    requires Run(es) && j < |es| && Unsaturated(es) && Chain(es, c, j)
    ensures |c| - 1 <= Stamp(es, j).counter
    decreases |c|
  {
    hide Stamp, Cause;
    if |c| > 1 {
      var n := |c| - 1;
      var front := c[..n];
      assert Linked(es, c[n - 1], c[n - 1 + 1]);
      StampStep(es, j);
      forall k | 0 <= k < |front| - 1
        ensures Linked(es, front[k], front[k + 1])
      {
        assert Linked(es, c[k], c[k + 1]);
      }
      ChainsAreShort(es, front, c[n - 1]);
    }
  }

  /** The counter is the length of the longest causal chain at this wall time: this one is that long. */
  lemma {:induction false} LongestChain(es: seq<Event>, j: nat) returns (c: seq<nat>)
    requires Run(es) && j < |es| && Unsaturated(es)
    ensures Chain(es, c, j) && |c| - 1 == Stamp(es, j).counter
    decreases j
  {
    hide Stamp, Cause;
    StampStep(es, j);
    if Stamp(es, j).counter == 0 {
      c := [j];
    } else {
      var i :| 0 <= i < j && Cause(es, i, j) && Continues(Stamp(es, i), Stamp(es, j));
      var rest := LongestChain(es, i);
      c := rest + [j];
      forall k | 0 <= k < |c| - 1
        ensures Linked(es, c[k], c[k + 1])
      {
        if k + 1 < |rest| {
          assert Linked(es, rest[k], rest[k + 1]);
        }
      }
    }
  }
}
