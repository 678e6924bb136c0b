/** Quorum sizes and the overlap they guarantee (internal/quorum/calculator.go). */
module Quorums {

  datatype QuorumConfig = QuorumConfig(N: int, W: int, R: int) {

    predicate IsValid()
    {
      N > 0 && 0 < W <= N && 0 < R <= N
    }

    predicate IsStronglyConsistent()
    {
      W + R > N
    }

    function OverlapCount(): nat
    {
      if W + R - N < 0 then 0 else W + R - N
    }

    /** OverlapCount is a lower bound on what any write set and any read set share ... */
    lemma OverlapGuaranteed<T>(nodes: set<T>, writers: set<T>, readers: set<T>)
      requires |nodes| == N && writers <= nodes && readers <= nodes
      requires |writers| >= W && |readers| >= R
      ensures |writers * readers| >= OverlapCount()
    {
      assert writers + readers <= nodes;
      SubsetSize(writers + readers, nodes);
    }

    /** ... and some write set and read set share no more. */
    lemma OverlapAttained<T>(nodes: set<T>) returns (writers: set<T>, readers: set<T>)
      requires IsValid() && |nodes| == N
      ensures writers <= nodes && readers <= nodes && |writers| == W && |readers| == R
      ensures |writers * readers| == OverlapCount()
    {
      writers := SubsetOfSize(nodes, W);
      var rest := nodes - writers;
      assert |rest| == N - W;
      if R <= N - W {
        readers := SubsetOfSize(rest, R);
        assert writers * readers == {};
      } else {
        var shared := SubsetOfSize(writers, R - (N - W));
        readers := rest + shared;
        assert rest !! shared;
        assert writers * readers == shared;
      }
    }

    /** W + R > N is exactly the condition under which every read set meets every write set. */
    lemma StrongIffAlwaysMeets<T(!new)>(nodes: set<T>)
      requires IsValid() && |nodes| == N
      ensures IsStronglyConsistent() <==>
        forall writers: set<T>, readers: set<T> ::
          writers <= nodes && readers <= nodes && |writers| == W && |readers| == R ==>
          exists x :: x in writers && x in readers
    {
      if IsStronglyConsistent() {
        forall writers: set<T>, readers: set<T>
          | writers <= nodes && readers <= nodes && |writers| == W && |readers| == R
          ensures exists x :: x in writers && x in readers
        {
          var x := CommonMember(nodes, writers, readers);
        }
      } else {
        var writers, readers := OverlapAttained(nodes);
        assert writers * readers == {};
        assert forall x :: x in writers && x in readers ==> x in writers * readers;
      }
    }
  }

  lemma SubsetSize<T>(a: set<T>, b: set<T>)
    requires a <= b
    ensures |a| <= |b|
  {
    assert b == a + (b - a);
  }

  lemma {:induction false} SubsetOfSize<T>(s: set<T>, k: nat) returns (t: set<T>)
    requires k <= |s|
    ensures t <= s && |t| == k
    decreases |s|
  {
    if k == |s| {
      t := s;
    } else {
      var x :| x in s;
      t := SubsetOfSize(s - {x}, k);
    }
  }

  /** Two sets too large to be disjoint share a member. */
  lemma CommonMember<T>(nodes: set<T>, a: set<T>, b: set<T>) returns (x: T)
    requires a <= nodes && b <= nodes && |a| + |b| > |nodes|
    ensures x in a && x in b
  {
    if a * b == {} {
      SubsetSize(a + b, nodes);
      assert false;
    }
    x :| x in a * b;
  }
}
