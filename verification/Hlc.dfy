/** Hybrid logical clocks (internal/clock/hlc.go), refined to a one-line clock on encoded stamps. */
module HlcModel {
  const LOGICAL := 0x1_0000   // 1 << logicalBits

  /** physical << 16 | logical & 0xFFFF. */
  function Encode(physical: int, logical: int): int
  {
    physical * LOGICAL + logical % LOGICAL
  }

  function PhysicalMillis(ts: int): int
  {
    ts / LOGICAL
  }

  function Logical(ts: int): nat
  {
    ts % LOGICAL
  }

  lemma EncodeDecode(physical: int, logical: int, ts: int)
    ensures 0 <= logical < LOGICAL ==>
      PhysicalMillis(Encode(physical, logical)) == physical && Logical(Encode(physical, logical)) == logical
    ensures Encode(PhysicalMillis(ts), Logical(ts)) == ts
  {
  }

  /** Go's integer division, which truncates toward zero. */
  function GoDiv(a: int, b: int): int
    requires b > 0
  {
    if a >= 0 then a / b else -((-a) / b)
  }

  /** wallPhysical: the skewed wall clock in milliseconds. */
  function Wall(unixNano: int, skewNanos: int): int
  {
    GoDiv(unixNano + skewNanos, 1_000_000)
  }

  function Max(a: int, b: int): int
  {
    if a >= b then a else b
  }

  /** The one-line clock: the next stamp of a local event ... */
  function Tick(last: int, wall: int): int
  {
    Max(last + 1, wall * LOGICAL)
  }

  /** ... and of an event that has received a remote stamp. */
  function Join(last: int, remote: int, wall: int): int
  {
    Max(Max(last + 1, remote + 1), wall * LOGICAL)
  }

  /** A local event gets the least stamp after the last one that is not behind the wall clock ... */
  lemma TickIsLeast(last: int, wall: int, ts: int)
    ensures Tick(last, wall) > last && PhysicalMillis(Tick(last, wall)) >= wall
    ensures ts > last && PhysicalMillis(ts) >= wall ==> ts >= Tick(last, wall)
  {
  }

  /** ... and an event that has received a remote stamp, the least after that one, too. */
  lemma JoinIsLeast(last: int, remote: int, wall: int, ts: int)
    ensures Join(last, remote, wall) > last && Join(last, remote, wall) > remote
    ensures PhysicalMillis(Join(last, remote, wall)) >= wall
    ensures ts > last && ts > remote && PhysicalMillis(ts) >= wall ==> ts >= Join(last, remote, wall)
  {
  }

  // ---------------------------------------------------------------- any number of clocks

  /** An event of one clock; an update receives the stamp of the earlier event `from`. */
  datatype Event =
    | Local(clock: nat, wall: int)
    | Receive(clock: nat, wall: int, from: nat)

  ghost predicate WellFormed(events: seq<Event>)
  {
    forall i :: 0 <= i < |events| && events[i].Receive? ==> events[i].from < i
  }

  /** The last stamp of clock c: 0, as a new HLC starts, or its latest event's. */
  function LastOf(events: seq<Event>, stamps: seq<int>, c: nat): int
    requires |events| == |stamps|
  {
    if events == [] then 0
    else if events[|events| - 1].clock == c then stamps[|stamps| - 1]
    else LastOf(events[..|events| - 1], stamps[..|stamps| - 1], c)
  }

  /** The stamps a run of events produces. */
  function Stamps(events: seq<Event>): (r: seq<int>)
    requires WellFormed(events)
    ensures |r| == |events|
  {
    if events == [] then []
    else
      var init, e := events[..|events| - 1], events[|events| - 1];
      var before := Stamps(init);
      before + [match e
                case Local(c, wall) => Tick(LastOf(init, before, c), wall)
                case Receive(c, wall, from) => Join(LastOf(init, before, c), before[from], wall)]
  }

  lemma {:induction false} StampsPrefix(events: seq<Event>, k: nat)
    requires WellFormed(events) && k <= |events|
    ensures Stamps(events[..k]) == Stamps(events)[..k]
    decreases |events|
  {
    if k < |events| {
      var init := events[..|events| - 1];
      assert init[..k] == events[..k];
      StampsPrefix(init, k);
    } else {
      assert events[..k] == events;
    }
  }

  lemma {:induction false} LastIsLatest(events: seq<Event>, stamps: seq<int>, j: nat)
    requires |events| == |stamps| && j < |events|
    requires forall i :: j < i < |events| && events[i].clock == events[j].clock ==> stamps[j] <= stamps[i]
    ensures stamps[j] <= LastOf(events, stamps, events[j].clock)
    decreases |events|
  {
    if j < |events| - 1 && events[|events| - 1].clock != events[j].clock {
      LastIsLatest(events[..|events| - 1], stamps[..|stamps| - 1], j);
    }
  }

  /** A direct cause: an earlier event of the same clock, or the event whose stamp was received. */
  predicate Causes(events: seq<Event>, j: nat, i: nat)
    requires j < i < |events|
  {
    events[j].clock == events[i].clock || (events[i].Receive? && events[i].from == j)
  }

  ghost predicate HappensBefore(events: seq<Event>, j: nat, i: nat)
    requires i < |events|
    decreases i
  {
    j < i && (Causes(events, j, i) || exists k :: j < k < i && HappensBefore(events, j, k) && Causes(events, k, i))
  }

  /** The stamp of an event, from the stamps before it. */
  lemma StampAt(events: seq<Event>, i: nat)
    requires WellFormed(events) && i < |events|
    ensures |Stamps(events[..i])| == i && Stamps(events)[..i] == Stamps(events[..i])
    ensures var last := LastOf(events[..i], Stamps(events[..i]), events[i].clock);
      Stamps(events)[i] == if events[i].Local? then Tick(last, events[i].wall)
                           else Join(last, Stamps(events)[events[i].from], events[i].wall)
  {
    hide LastOf, Tick, Join;
    StampsPrefix(events, i);
    StampsPrefix(events, i + 1);
    assert events[..i + 1][..i] == events[..i];
    assert Stamps(events)[i] == Stamps(events[..i + 1])[i];
  }

  lemma {:induction false} CauseIncreases(events: seq<Event>, j: nat, i: nat)
    requires WellFormed(events) && j < i < |events| && Causes(events, j, i)
    ensures Stamps(events)[j] < Stamps(events)[i]
    decreases i
  {
    hide Stamps;
    var init := events[..i];
    var before := Stamps(init);
    StampAt(events, i);
    assert before[j] == Stamps(events)[j];
    if events[j].clock == events[i].clock {
      forall m | j < m < i && events[m].clock == events[j].clock
        ensures before[j] <= before[m]
      {
        CauseIncreases(events, j, m);
      }
      LastIsLatest(init, before, j);
    }
  }

  /** Stamps strictly increase along happens-before, across any number of clocks and any skew. */
  lemma {:induction false} CausalityIncreases(events: seq<Event>, j: nat, i: nat)
    requires WellFormed(events) && i < |events| && HappensBefore(events, j, i)
    ensures Stamps(events)[j] < Stamps(events)[i]
    decreases i
  {
    if Causes(events, j, i) {
      CauseIncreases(events, j, i);
    } else {
      var k :| j < k < i && HappensBefore(events, j, k) && Causes(events, k, i);
      CausalityIncreases(events, j, k);
      CauseIncreases(events, k, i);
    }
  }

  function MaxWall(events: seq<Event>): int
  {
    if events == [] then 0 else Max(MaxWall(events[..|events| - 1]), events[|events| - 1].wall)
  }

  lemma {:induction false} LastOfBounded(events: seq<Event>, stamps: seq<int>, c: nat, bound: int)
    requires |events| == |stamps| && bound >= 0 && forall i :: 0 <= i < |stamps| ==> stamps[i] <= bound
    ensures LastOf(events, stamps, c) <= bound
    decreases |events|
  {
    if events != [] {
      LastOfBounded(events[..|events| - 1], stamps[..|stamps| - 1], c, bound);
    }
  }

  /** No stamp runs ahead of the largest wall reading by more than the number of events. */
  lemma {:induction false} DriftBounded(events: seq<Event>, i: nat)
    requires WellFormed(events) && i < |events|
    ensures Stamps(events)[i] <= MaxWall(events) * LOGICAL + |events|
    decreases |events|
  {
    var init := events[..|events| - 1];
    var bound := MaxWall(init) * LOGICAL + |init|;
    WallNonNegative(init);
    forall j | 0 <= j < |init|
      ensures Stamps(init)[j] <= bound
    {
      DriftBounded(init, j);
    }
    LastOfBounded(init, Stamps(init), events[|events| - 1].clock, bound);
  }

  lemma {:induction false} WallNonNegative(events: seq<Event>)
    ensures MaxWall(events) >= 0
  {
    if events != [] {
      WallNonNegative(events[..|events| - 1]);
    }
  }

  /** So the int64 encoding cannot overflow before wall time and event count together reach 2^63. */
  lemma NoOverflow(events: seq<Event>, i: nat)
    requires WellFormed(events) && i < |events| && MaxWall(events) * LOGICAL + |events| < 0x8000_0000_0000_0000
    ensures 0 < Stamps(events)[i] < 0x8000_0000_0000_0000
  {
    DriftBounded(events, i);
    StampPositive(events, i);
  }

  lemma {:induction false} StampPositive(events: seq<Event>, i: nat)
    requires WellFormed(events) && i < |events|
    ensures Stamps(events)[i] > 0
    decreases i
  {
    StampsPrefix(events, i);
    StampsPrefix(events, i + 1);
    assert events[..i + 1][..i] == events[..i];
    var before := Stamps(events[..i]);
    forall j | 0 <= j < i
      ensures before[j] >= 0
    {
      StampPositive(events, j);
    }
    LastNonNegative(events[..i], before, events[i].clock);
  }

  lemma {:induction false} LastNonNegative(events: seq<Event>, stamps: seq<int>, c: nat)
    requires |events| == |stamps| && forall i :: 0 <= i < |stamps| ==> stamps[i] >= 0
    ensures LastOf(events, stamps, c) >= 0
    decreases |events|
  {
    if events != [] {
      LastNonNegative(events[..|events| - 1], stamps[..|stamps| - 1], c);
    }
  }
}

module HlcObject {
  import opened HlcModel

  class HLC {
    var lastPhysical: int
    var logical: int
    var skewNanos: int

    ghost predicate Valid()
      reads this
    {
      0 <= logical < LOGICAL
    }

    /** The stamp the clock last emitted. */
    function Last(): int
      reads this
    {
      Encode(lastPhysical, logical)
    }

    constructor ()
      ensures Valid() && Last() == 0 && skewNanos == 0
    {
      lastPhysical, logical, skewNanos := 0, 0, 0;
    }

    method Now(unixNano: int) returns (ts: int)
      requires Valid()
      modifies this`lastPhysical, this`logical
      ensures Valid() && ts == Last() == Tick(old(Last()), Wall(unixNano, skewNanos))
    {
      var wall := Wall(unixNano, skewNanos);
      if wall > lastPhysical {
        lastPhysical := wall;
        logical := 0;
      } else {
        logical := logical + 1;
        while logical > LOGICAL - 1
          invariant 0 <= logical && lastPhysical * LOGICAL + logical == old(Last()) + 1
          invariant lastPhysical >= old(lastPhysical)
        {
          lastPhysical := lastPhysical + 1;
          logical := logical - LOGICAL;
        }
      }
      ts := Encode(lastPhysical, logical);
    }

    method Update(remote: int, unixNano: int) returns (ts: int)
      requires Valid()
      modifies this`lastPhysical, this`logical
      ensures Valid() && ts == Last() == Join(old(Last()), remote, Wall(unixNano, skewNanos))
    {
      var remotePhysical, remoteLogical := PhysicalMillis(remote), Logical(remote);
      var wall := Wall(unixNano, skewNanos);
      var newPhysical := lastPhysical;
      if wall > newPhysical {
        newPhysical := wall;
      }
      if remotePhysical > newPhysical {
        newPhysical := remotePhysical;
      }
      if newPhysical == lastPhysical && newPhysical == remotePhysical {
        if remoteLogical > logical {
          logical := remoteLogical;
        }
        logical := logical + 1;
      } else if newPhysical == lastPhysical {
        logical := logical + 1;
      } else if newPhysical == remotePhysical {
        logical := remoteLogical + 1;
      } else {
        logical := 0;
      }
      ghost var goal := newPhysical * LOGICAL + logical;
      assert goal == Join(old(Last()), remote, wall);
      while logical > LOGICAL - 1
        invariant 0 <= logical && newPhysical * LOGICAL + logical == goal
      {
        newPhysical := newPhysical + 1;
        logical := logical - LOGICAL;
      }
      lastPhysical := newPhysical;
      ts := Encode(lastPhysical, logical);
    }

    method SetSkewMillis(ms: int)
      requires Valid()
      modifies this`skewNanos
      ensures Valid() && skewNanos == ms * 1_000_000 && Last() == old(Last())
    {
      skewNanos := ms * 1_000_000;
    }
  }
}
