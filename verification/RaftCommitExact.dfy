/**
 Which acknowledgements Raft's safety depends on (internal/node/raft.go). A follower acknowledges its
 own last index, which may lie behind the message in entries of an earlier leader, and a leader takes
 acknowledgements of earlier terms. Whether that can commit two different entries at one index depends
 on the number of members: a leader needs a majority of votes and a majority of acknowledgements, and
 the untrue ones have to make up for those who voted.
 */
module RaftCommitExact {
  import opened Storage
  import opened RaftModel
  import opened Quorums
  import opened RaftRuns
  import opened RaftScenes
  import C = RaftCommit
  import P = RaftPast
  import E = RaftElection

  /** What two nodes have committed agrees as far as both go. */
  ghost predicate Agreeing(s: System)
  {
    forall a, b, i :: a in s.nodes && b in s.nodes && CommittedAt(s.nodes[a], i) && CommittedAt(s.nodes[b], i) ==>
      i <= |s.nodes[a].log.entries| && i <= |s.nodes[b].log.entries|
      && s.nodes[a].log.entries[i - 1] == s.nodes[b].log.entries[i - 1]
  }

  predicate CommittedAt(n: Node, i: int)
  {
    1 <= i <= n.log.commitIndex
  }

  ghost predicate AlwaysAgreeing(k: Policy)
  {
    forall s :: Reached(k, s) ==> Agreeing(s)
  }

  lemma FittingAgrees(k: Policy)
    requires P.Fits(k.trust, |k.c.members|)
    ensures AlwaysAgreeing(k)
  {
    hide Next;
    forall s | Reached(k, s)
      ensures Agreeing(s)
    {
      var tr, steps :| RunTo(k, tr, steps, s);
      assert C.SoundRun(k.c, k.trust, tr, steps);
      forall a, b, i | a in s.nodes && b in s.nodes && CommittedAt(s.nodes[a], i) && CommittedAt(s.nodes[b], i)
        ensures i <= |s.nodes[a].log.entries| && i <= |s.nodes[b].log.entries|
        ensures s.nodes[a].log.entries[i - 1] == s.nodes[b].log.entries[i - 1]
      {
        C.StateMachineSafety(k.c, k.trust, tr, steps, |tr| - 1, |tr| - 1, a, b, i);
        assert s.nodes[a].log.entries[i - 1] == s.nodes[a].log.entries[..i][i - 1];
        assert s.nodes[b].log.entries[i - 1] == s.nodes[b].log.entries[..i][i - 1];
      }
    }
  }

  /** The only member of part a and the only one of part b have committed entries of different terms at an index. */
  lemma Disagreeing(k: Policy, cast: Cast, p: Play, x: NodeId, a: nat, y: NodeId, b: nat, i: nat)
    requires a < |p.faces| && b < |p.faces| && 1 <= i <= p.faces[a].commit && i <= p.faces[b].commit
    requires i <= |p.faces[a].terms| && i <= |p.faces[b].terms| && p.faces[a].terms[i - 1] != p.faces[b].terms[i - 1]
    requires Alone(cast, x, a) && Alone(cast, y, b) && Performed(k, cast, p)
    ensures !AlwaysAgreeing(k)
  {
    hide Shows;
    var v :| Played(k, cast, v, p);
    var s :| Shows(k, s, v);
    Differing(k, s, v, x, y, i);
  }

  lemma Differing(k: Policy, s: System, v: Scene, x: NodeId, y: NodeId, i: nat)
    requires x in v.faces && y in v.faces && 1 <= i <= v.faces[x].commit && i <= v.faces[y].commit
    requires i <= |v.faces[x].terms| && i <= |v.faces[y].terms| && v.faces[x].terms[i - 1] != v.faces[y].terms[i - 1]
    requires Shows(k, s, v)
    ensures Reached(k, s) && !Agreeing(s)
  {
    hide Reached, Faced, Books, OnTheWay, P.LastTerm;
    FaceIs(s.nodes, v.faces, x);
    FaceIs(s.nodes, v.faces, y);
    assert CommittedAt(s.nodes[x], i) && CommittedAt(s.nodes[y], i);
  }

  // ---------------------------------------------------------------- an outdated acknowledgement

  /** Parts 0 and 1 are one member each; the others, part 2, make a majority with either. */
  ghost predicate Trio(k: Policy, cast: Cast, y: NodeId, z: NodeId)
  {
    && cast.Keys == k.c.members && |k.c.members| >= 3 && Alone(cast, y, 0) && Alone(cast, z, 1)
    && (forall id :: id in cast ==> cast[id] < 3) && 1 + |Of(cast, {2})| >= E.MajorityOf(k.c.members)
  }

  /** y logs two entries in term 1 and z one in term 2; nobody else has them. */
  lemma TwoLogs(k: Policy, cast: Cast, y: NodeId, z: NodeId) returns (p: Play)
    requires Trio(k, cast, y, z)
    ensures p.faces == [Face(2, Follower, [1, 1], 0), Face(2, Leader, [2], 0), Face(2, Follower, [], 0)]
    ensures Performed(k, cast, p)
  {
    hide Performed, Of;
    p := OpeningPlay(3);
    BeginParts(k, cast, 3);
    ElectPart(k, cast, p, y, 0, {2});
    p := ElectedPlay(p, y, 0);
    EnterPart(k, cast, p, 0);
    p := EnteredPlay(p, 0);
    EnterPart(k, cast, p, 0);
    p := EnteredPlay(p, 0);
    ElectPart(k, cast, p, z, 1, {2});
    p := ElectedPlay(p, z, 1);
    EnterPart(k, cast, p, 1);
    p := EnteredPlay(p, 1);
    assert p.faces[0].terms == [1, 1] && p.faces[1].terms == [2];
  }

  /** y wins term 3 and all others but z acknowledge its two entries, but the answers stay on their way. */
  lemma Acknowledged(k: Policy, cast: Cast, y: NodeId, z: NodeId) returns (p: Play)
    requires Trio(k, cast, y, z)
    ensures p.faces == [Face(3, Leader, [1, 1], 0), Face(3, Follower, [2], 0), Face(3, Follower, [1, 1], 0)]
    ensures (2, y, 3, 2) in p.told && Performed(k, cast, p)
  {
    hide Performed, Of;
    p := TwoLogs(k, cast, y, z);
    ElectPart(k, cast, p, y, 0, {2});
    p := ElectedPlay(p, y, 0);
    SpreadParts(k, cast, p, 0, {2});
    p := SpreadPlay(p, 0, {2});
  }

  /** z wins term 4 and replaces y's log by its own, and y wins term 5 with it and logs an entry. */
  lemma Overwritten(k: Policy, cast: Cast, y: NodeId, z: NodeId) returns (p: Play)
    requires Trio(k, cast, y, z)
    ensures p.faces == [Face(5, Leader, [2, 5], 0), Face(5, Follower, [2], 0), Face(5, Follower, [1, 1], 0)]
    ensures p.leader == y && (2, y, 3, 2) in p.told && Performed(k, cast, p)
  {
    hide Performed, Of;
    p := Acknowledged(k, cast, y, z);
    ElectPart(k, cast, p, z, 1, {2});
    p := ElectedPlay(p, z, 1);
    SpreadParts(k, cast, p, 1, {0});
    p := SpreadPlay(p, 1, {0});
    ElectPart(k, cast, p, y, 0, {2});
    p := ElectedPlay(p, y, 0);
    EnterPart(k, cast, p, 0);
    p := EnteredPlay(p, 0);
    assert p.faces[0].terms == [2, 5];
  }

  /** y commits its entry 2 on the old answers, and z another with the votes of those who gave them. */
  lemma OutdatedUnsafe(k: Policy, cast: Cast, y: NodeId, z: NodeId)
    requires Trio(k, cast, y, z) && k.trust.stale
    ensures !AlwaysAgreeing(k)
  {
    hide Performed, AlwaysAgreeing, Of;
    var p := Overwritten(k, cast, y, z);
    ConcludePart(k, cast, p, 0, {2}, 3);
    p := ConcludedPlay(p, 0);
    ElectPart(k, cast, p, z, 1, {2});
    p := ElectedPlay(p, z, 1);
    EnterPart(k, cast, p, 1);
    p := EnteredPlay(p, 1);
    SpreadParts(k, cast, p, 1, {2});
    p := SpreadPlay(p, 1, {2});
    ConcludePart(k, cast, p, 1, {2}, 6);
    p := ConcludedPlay(p, 1);
    Disagreeing(k, cast, p, y, 0, z, 1, 2);
  }

  // ---------------------------------------------------------------- an overstated acknowledgement

  /**
   Parts 0 and 1 are one member each, x and y; x's side is part 2, and y's voters are parts 3 and 4.
   A majority for y are its voters, and also x's side with part 4, which will have y's entry; a majority
   for x are all but y and part 4, and also all of y's voters.
   */
  ghost predicate Sides(k: Policy, cast: Cast, x: NodeId, y: NodeId)
  {
    && cast.Keys == k.c.members && |k.c.members| >= 3 && Alone(cast, x, 0) && Alone(cast, y, 1)
    && (forall id :: id in cast ==> cast[id] < 5)
    && 1 + |Of(cast, {3, 4})| >= E.MajorityOf(k.c.members)
    && 1 + |Of(cast, {0, 2, 4})| >= E.MajorityOf(k.c.members)
    && 1 + |Of(cast, {2, 3})| >= E.MajorityOf(k.c.members)
  }

  /** x's side has its entry of term 1. */
  lemma OneSide(k: Policy, cast: Cast, x: NodeId, y: NodeId) returns (p: Play)
    requires Sides(k, cast, x, y)
    ensures p.faces == [Face(1, Leader, [1], 0), Face(1, Follower, [], 0), Face(1, Follower, [1], 0),
                        Face(1, Follower, [], 0), Face(1, Follower, [], 0)]
    ensures Performed(k, cast, p)
  {
    hide Performed, Of;
    p := OpeningPlay(5);
    BeginParts(k, cast, 5);
    ElectPart(k, cast, p, x, 0, {3, 4});
    p := ElectedPlay(p, x, 0);
    EnterPart(k, cast, p, 0);
    p := EnteredPlay(p, 0);
    assert p.faces[0].terms == [1];
    SpreadParts(k, cast, p, 0, {2});
    p := SpreadPlay(p, 0, {2});
  }

  /** y wins term 2 with the others, and is told by x's side that it has entry 1. */
  lemma Misled(k: Policy, cast: Cast, x: NodeId, y: NodeId) returns (p: Play)
    requires Sides(k, cast, x, y) && k.trust.over
    ensures p.faces == [Face(2, Follower, [1], 0), Face(2, Leader, [], 0), Face(2, Follower, [1], 0),
                        Face(2, Follower, [], 0), Face(2, Follower, [], 0)]
    ensures p.leader == y && p.next == 1 && (0, y, 2, 1) in p.told && (2, y, 2, 1) in p.told
    ensures Performed(k, cast, p)
  {
    hide Performed, Of;
    p := OneSide(k, cast, x, y);
    ElectPart(k, cast, p, y, 1, {3, 4});
    p := ElectedPlay(p, y, 1);
    OverstateParts(k, cast, p, 1, {0, 2}, 1);
    p := OverstatedPlay(p, 1, {0, 2}, 1);
  }

  /** y commits its entry 1, which only part 4 have. */
  lemma CommitsMisled(k: Policy, cast: Cast, x: NodeId, y: NodeId) returns (p: Play)
    requires Sides(k, cast, x, y) && k.trust.over
    ensures p.faces == [Face(2, Follower, [1], 0), Face(2, Leader, [2], 1), Face(2, Follower, [1], 0),
                        Face(2, Follower, [], 0), Face(2, Follower, [2], 0)]
    ensures Performed(k, cast, p)
  {
    hide Performed, Of;
    p := Misled(k, cast, x, y);
    EnterPart(k, cast, p, 1);
    p := EnteredPlay(p, 1);
    assert p.faces[1].terms == [2];
    SpreadParts(k, cast, p, 1, {4});
    p := SpreadPlay(p, 1, {4});
    ConcludePart(k, cast, p, 1, {0, 2, 4}, 2);
    p := ConcludedPlay(p, 1);
  }

  /** Then x wins with the votes of all but y and part 4, and commits its own entry 1. */
  lemma OverstatedUnsafe(k: Policy, cast: Cast, x: NodeId, y: NodeId)
    requires Sides(k, cast, x, y) && k.trust.over
    ensures !AlwaysAgreeing(k)
  {
    hide Performed, AlwaysAgreeing, Of;
    var p := CommitsMisled(k, cast, x, y);
    ElectPart(k, cast, p, x, 0, {2, 3});
    p := ElectedPlay(p, x, 0);
    EnterPart(k, cast, p, 0);
    p := EnteredPlay(p, 0);
    SpreadParts(k, cast, p, 0, {3, 4});
    p := SpreadPlay(p, 0, {3, 4});
    ConcludePart(k, cast, p, 0, {3, 4}, 3);
    p := ConcludedPlay(p, 0);
    Disagreeing(k, cast, p, x, 0, y, 1, 1);
  }

  // ---------------------------------------------------------------- exactly which sizes

  lemma TrioOf(k: Policy) returns (cast: Cast, y: NodeId, z: NodeId)
    requires |k.c.members| >= 3
    ensures Trio(k, cast, y, z)
  {
    var ms := k.c.members;
    y :| y in ms;
    assert |ms - {y}| == |ms| - 1;
    z :| z in ms - {y};
    cast := map id | id in ms :: if id == y then 0 else if id == z then 1 else 2;
    assert Of(cast, {2}) == ms - {y} - {z};
  }

  /** The parts, from y's voters and those of them who will have its entry. */
  function SideCast(ms: set<NodeId>, x: NodeId, y: NodeId, voters: set<NodeId>, gs: set<NodeId>): Cast
  {
    map id | id in ms ::
      if id == x then 0 else if id == y then 1 else if id !in voters then 2 else if id in gs then 4 else 3
  }

  lemma SideMembers(ms: set<NodeId>, x: NodeId, y: NodeId, voters: set<NodeId>, gs: set<NodeId>)
    requires x in ms && y in ms && x != y && gs <= voters <= ms - {y} - {x}
    ensures var cast := SideCast(ms, x, y, voters, gs);
      && Of(cast, {3, 4}) == voters
      && Of(cast, {0, 2, 4}) == ms - {y} - (voters - gs)
      && Of(cast, {2, 3}) == ms - {y} - {x} - gs
  {
  }

  lemma SideSizes(ms: set<NodeId>, x: NodeId, y: NodeId, voters: set<NodeId>, gs: set<NodeId>)
    requires x in ms && y in ms && x != y && gs <= voters <= ms - {y} - {x}
    ensures var cast := SideCast(ms, x, y, voters, gs);
      && |Of(cast, {3, 4})| == |voters|
      && |Of(cast, {0, 2, 4})| == |ms| - 1 - |voters| + |gs|
      && |Of(cast, {2, 3})| == |ms| - 2 - |gs|
  {
    hide Of, SideCast;
    SideMembers(ms, x, y, voters, gs);
    SizeWithout(ms, y, voters - gs);
    SizeWithout(ms, y, {});
    SizeWithout(ms - {y}, x, gs);
    assert |voters - gs| == |voters| - |gs|;
  }

  lemma SizeWithout(ms: set<NodeId>, x: NodeId, less: set<NodeId>)
    requires x in ms && less <= ms - {x}
    ensures |ms - {x} - less| == |ms| - 1 - |less|
  {
    assert |ms - {x}| == |ms| - 1;
    assert |ms - {x} - less| == |ms - {x}| - |less|;
  }

  lemma SidesOf(k: Policy) returns (cast: Cast, x: NodeId, y: NodeId)
    requires |k.c.members| == 3 || |k.c.members| >= 5
    ensures Sides(k, cast, x, y)
  {
    hide Of;
    var ms, M := k.c.members, E.MajorityOf(k.c.members);
    y :| y in ms;
    assert |ms - {y}| == |ms| - 1;
    x :| x in ms - {y};
    assert |ms - {y} - {x}| == |ms| - 2;
    var voters := SubsetOfSize(ms - {y} - {x}, M - 1);
    var gs := SubsetOfSize(voters, if |ms| % 2 == 0 then 1 else 0);
    cast := SideCast(ms, x, y, voters, gs);
    SideSizes(ms, x, y, voters, gs);
  }

  /**
   Commits agree in every run of a cluster iff outdated acknowledgements occur only among at most two
   members, and overstated ones only among at most two, or four.
   */
  lemma AgreesIffFits(k: Policy)
    ensures var n := |k.c.members|;
      AlwaysAgreeing(k) <==> (k.trust.stale ==> n <= 2) && (k.trust.over ==> n <= 2 || n == 4)
  {
    var n := |k.c.members|;
    if P.Fits(k.trust, n) {
      FittingAgrees(k);
    } else if k.trust.stale && n > 2 {
      var cast, y, z := TrioOf(k);
      OutdatedUnsafe(k, cast, y, z);
    } else {
      var cast, x, y := SidesOf(k);
      OverstatedUnsafe(k, cast, x, y);
    }
  }
}
