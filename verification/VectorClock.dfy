/** Vector clocks (internal/storage/entry.go): an order with a join, whatever keys the maps spell out. */
module VectorClocks {
  import opened Storage

  /** A Go map read: a missing component is 0. */
  function At(vc: Clock, n: NodeId): nat
  {
    if n in vc then vc[n] else 0
  }

  ghost predicate Leq(a: Clock, b: Clock)
  {
    forall n :: n in a ==> a[n] <= At(b, n)
  }

  /** The same history: equal at every node. */
  ghost predicate Same(a: Clock, b: Clock)
  {
    forall n :: At(a, n) == At(b, n)
  }

  ghost predicate Before(a: Clock, b: Clock)
  {
    Leq(a, b) && !Leq(b, a)
  }

  /** c is the least clock at or above a and b. */
  ghost predicate IsJoin(a: Clock, b: Clock, c: Clock)
  {
    forall n :: At(c, n) == if At(a, n) >= At(b, n) then At(a, n) else At(b, n)
  }

  /** Clocks of running nodes spell out no zeros. */
  ghost predicate Positive(vc: Clock)
  {
    forall n :: n in vc ==> vc[n] > 0
  }

  lemma LeqPointwise(a: Clock, b: Clock)
    ensures Leq(a, b) <==> forall n :: At(a, n) <= At(b, n)
  {
  }

  function Increment(vc: Clock, n: NodeId): Clock
  {
    vc[n := At(vc, n) + 1]
  }

  /** What Merge leaves in the receiver. */
  function Joined(a: Clock, b: Clock): (c: Clock)
    ensures IsJoin(a, b, c)
    ensures Positive(a) && Positive(b) ==> Positive(c)
  {
    map n | n in a.Keys + b.Keys && (n in a || b[n] > 0) :: if At(b, n) > At(a, n) then At(b, n) else At(a, n)
  }

  /** The test Equal makes: as many components, and the receiver's all match. */
  predicate EqualTest(a: Clock, b: Clock)
  {
    |a| == |b| && forall n :: n in a ==> At(b, n) == a[n]
  }

  lemma SameSize(a: Clock, b: Clock)
    requires a.Keys <= b.Keys && |a| == |b|
    ensures a.Keys == b.Keys
  {
    assert |b.Keys - a.Keys| == 0 by {
      assert b.Keys == a.Keys + (b.Keys - a.Keys);
      assert |a.Keys| == |a| && |b.Keys| == |b|;
    }
  }

  /** Without spelled-out zeros the test is sameness, and sameness is equality. */
  lemma EqualExact(a: Clock, b: Clock)
    requires Positive(a) && Positive(b)
    ensures EqualTest(a, b) <==> Same(a, b)
    ensures Same(a, b) ==> a == b
  {
    if EqualTest(a, b) {
      SameSize(a, b);
      assert forall n :: n in a <==> n in b;
    }
    if Same(a, b) {
      forall n
        ensures n in a <==> n in b
        ensures n in a ==> a[n] == b[n]
      {
        assert At(a, n) == At(b, n);
      }
      assert a == b;
    }
  }

  lemma {:induction false} LongestName(ids: set<NodeId>) returns (n: nat)
    ensures forall x :: x in ids ==> |x.name| <= n
  {
    if ids == {} {
      n := 0;
    } else {
      var x :| x in ids;
      n := LongestName(ids - {x});
      n := if |x.name| > n then |x.name| else n;
    }
  }

  /** Equal never calls different histories equal. */
  ghost predicate NeverFooled(a: Clock)
  {
    forall b :: EqualTest(a, b) ==> Same(a, b)
  }

  /** Equal recognizes the same history when the other side spells out no zero. */
  ghost predicate NeverMisses(a: Clock)
  {
    forall b :: Positive(b) && Same(a, b) ==> EqualTest(a, b)
  }

  /** With a zero for x spelled out, another node in its place passes the test. */
  lemma FooledByZero(a: Clock, x: NodeId, y: NodeId)
    requires x in a && a[x] == 0 && y !in a
    ensures EqualTest(a, (a - {x})[y := 5]) && !Same(a, (a - {x})[y := 5])
  {
    var b := (a - {x})[y := 5];
    assert b.Keys == a.Keys - {x} + {y};
    assert |a| == |a.Keys| && |b| == |b.Keys|;
    assert At(a, y) == 0 && At(b, y) == 5;
  }

  /** With a zero for x spelled out, the same clock without its zeros fails the test. */
  lemma MissedByZero(a: Clock, x: NodeId) returns (b: Clock)
    requires x in a && a[x] == 0
    ensures Positive(b) && Same(a, b) && !EqualTest(a, b)
  {
    b := map n | n in a && a[n] > 0 :: a[n];
    assert b.Keys < a.Keys by { assert x !in b.Keys; }
    SmallerSize(b.Keys, a.Keys);
    assert |a| == |a.Keys| && |b| == |b.Keys|;
  }

  lemma SmallerSize<T>(a: set<T>, b: set<T>)
    requires a < b
    ensures |a| < |b|
  {
    assert b == a + (b - a);
  }

  /** Equal is right about a clock, on either side of the question, iff the clock spells out no zero. */
  lemma EqualExactIff(a: Clock)
    ensures NeverFooled(a) <==> Positive(a)
    ensures NeverMisses(a) <==> Positive(a)
  {
    if Positive(a) {
      forall b | EqualTest(a, b)
        ensures Same(a, b)
      {
        assert a.Keys <= b.Keys by { MatchedKeys(a, b); }
        SameSize(a, b);
        assert forall n :: n in a <==> n in b.Keys;
      }
      forall b | Positive(b) && Same(a, b)
        ensures EqualTest(a, b)
      {
        EqualExact(a, b);
      }
    } else {
      var x :| x in a && a[x] == 0;
      var n := LongestName(a.Keys);
      var y := NodeId(seq(n + 1, _ => 'n'));
      FooledByZero(a, x, y);
      var b := MissedByZero(a, x);
    }
  }

  lemma MatchedKeys(a: Clock, b: Clock)
    requires Positive(a) && EqualTest(a, b)
    ensures a.Keys <= b.Keys
  {
  }

  /** Merging a parent in again changes nothing. */
  lemma JoinedAgain(a: Clock, b: Clock)
    ensures Joined(Joined(a, b), a) == Joined(a, b) && Joined(Joined(a, b), b) == Joined(a, b)
  {
  }

  lemma JoinUnique(a: Clock, b: Clock, c: Clock, d: Clock)
    requires IsJoin(a, b, c) && IsJoin(b, a, d)
    ensures Same(c, d)
  {
  }

  class VectorClock {
    var m: Clock

    constructor ()
      ensures m == map[]
    {
      m := map[];
    }

    method Increment(n: NodeId)
      modifies this
      ensures m == old(m)[n := At(old(m), n) + 1]
    {
      m := m[n := At(m, n) + 1];
    }

    /** Folds in the larger of each component, in whatever order the map yields them. */
    method Merge(other: Clock)
      modifies this
      ensures m == Joined(old(m), other)
    {
      var rest := other.Keys;
      while rest != {}
        invariant rest <= other.Keys
        invariant forall n ::
          At(m, n) == if n !in rest && At(other, n) > At(old(m), n) then At(other, n) else At(old(m), n)
        invariant forall n :: n in m <==> n in old(m) || (n in other && n !in rest && other[n] > 0)
      {
        var n :| n in rest;
        if other[n] > At(m, n) {
          m := m[n := other[n]];
        }
        rest := rest - {n};
      }
      forall n
        ensures n in m <==> n in Joined(old(m), other)
        ensures n in m ==> m[n] == Joined(old(m), other)[n]
      {
        assert At(m, n) == At(Joined(old(m), other), n);
      }
    }

    method HappensBefore(other: Clock) returns (r: bool)
      ensures r <==> Before(m, other)
    {
      LeqPointwise(other, m);
      var dominated := false;
      var rest := m.Keys;
      while rest != {}
        invariant rest <= m.Keys
        invariant forall n :: n in m && n !in rest ==> m[n] <= At(other, n)
        invariant dominated <==> exists n :: n in m && n !in rest && m[n] < At(other, n)
      {
        var n :| n in rest;
        if m[n] > At(other, n) {
          return false;
        }
        if m[n] < At(other, n) {
          dominated := true;
        }
        rest := rest - {n};
      }
      rest := other.Keys;
      ghost var known := dominated;
      while rest != {}
        invariant rest <= other.Keys
        invariant dominated <==> known || exists n :: n in other && n !in rest && n !in m && other[n] > 0
      {
        var n :| n in rest;
        if n !in m && other[n] > 0 {
          dominated := true;
        }
        rest := rest - {n};
      }
      assert dominated <==> exists n :: n in other && At(m, n) < other[n];
      return dominated;
    }

    /** vc includes all of other's causal history. */
    method Dominates(other: Clock) returns (r: bool)
      ensures r <==> Leq(other, m)
    {
      var rest := other.Keys;
      while rest != {}
        invariant rest <= other.Keys
        invariant forall n :: n in other && n !in rest ==> other[n] <= At(m, n)
      {
        var n :| n in rest;
        if At(m, n) < other[n] {
          return false;
        }
        rest := rest - {n};
      }
      return true;
    }

    method Equal(other: Clock) returns (r: bool)
      ensures r <==> EqualTest(m, other)
    {
      if |m| != |other| {
        return false;
      }
      var rest := m.Keys;
      while rest != {}
        invariant rest <= m.Keys
        invariant forall n :: n in m && n !in rest ==> At(other, n) == m[n]
      {
        var n :| n in rest;
        if At(other, n) != m[n] {
          return false;
        }
        rest := rest - {n};
      }
      return true;
    }
  }
}
