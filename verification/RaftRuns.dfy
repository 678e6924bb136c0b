/**
 Runs of a Raft cluster of three or more, put together from whole campaigns, copies of a leader's log
 and acknowledgements taken. A node is described by the terms of its entries.
 */
module RaftRuns {
  import opened Storage
  import opened RaftModel
  import opened Quorums
  import C = RaftCommit
  import P = RaftPast
  import E = RaftElection
  import L = LogModel

  /** A cluster, and the kinds of unsound acknowledgements its runs may contain. */
  datatype Policy = Policy(c: Cluster, trust: P.Trust)

  ghost predicate Allowed(k: Policy, s: System, step: Step)
  {
    !step.CompactStep? && C.SoundStep(k.trust, s, step)
  }

  ghost predicate RunTo(k: Policy, tr: seq<System>, steps: seq<Step>, s: System)
  {
    && IsRun(k.c, tr, steps) && tr[|tr| - 1] == s
    && forall i :: 0 <= i < |steps| ==> Allowed(k, tr[i], steps[i])
  }

  ghost predicate Reached(k: Policy, s: System)
  {
    exists tr, steps :: RunTo(k, tr, steps, s)
  }

  lemma OneMore(k: Policy, s: System, step: Step)
    requires Reached(k, s) && Enabled(k.c, s, step) && Allowed(k, s, step)
    ensures Reached(k, Take(k.c, s, step))
  {
    hide Take, Allowed, Enabled;
    var tr, steps :| RunTo(k, tr, steps, s);
    var s' := Take(k.c, s, step);
    assert RunTo(k, tr + [s'], steps + [step], s');
  }

  /** A reached state of a cluster of three or more, nothing compacted. */
  ghost predicate Good(k: Policy, s: System)
  {
    && Reached(k, s) && s.nodes.Keys == k.c.members && |k.c.members| >= 3
    && forall id :: id in s.nodes ==> s.nodes[id].log.snapshotIndex == 0
  }

  lemma Members(k: Policy, s: System)
    requires Good(k, s)
    ensures s.nodes.Keys == k.c.members
  {
  }

  lemma Large(k: Policy, s: System)
    requires Good(k, s)
    ensures |k.c.members| >= 3
  {
  }

  lemma Uncompacted(k: Policy, s: System, id: NodeId)
    requires Good(k, s) && id in k.c.members
    ensures id in s.nodes && s.nodes[id].log.snapshotIndex == 0
  {
  }

  /** One more allowed step of a node. */
  lemma Taken(k: Policy, s: System, step: Step) returns (s': System)
    requires Good(k, s) && Enabled(k.c, s, step) && Allowed(k, s, step) && !step.DropStep?
    requires Outcome(k.c, s, step).node.log.snapshotIndex == 0
    ensures Good(k, s') && s' == Put(s, Actor(step), Outcome(k.c, s, step), Consumed(s.net, step))
  {
    hide Reached, Outcome, Allowed;
    s' := Take(k.c, s, step);
    OneMore(k, s, step);
  }

  // ---------------------------------------------------------------- nodes by their terms

  function Terms(log: seq<LogEntry>): seq<nat>
  {
    seq(|log|, i requires 0 <= i < |log| => log[i].term)
  }

  /** What matters of a node here. */
  datatype Face = Face(term: nat, role: Role, terms: seq<nat>, commit: nat)

  function FaceOf(n: Node): Face
  {
    Face(n.currentTerm, n.role, Terms(n.log.entries), n.log.commitIndex)
  }

  function Last(ts: seq<nat>): nat
  {
    if ts == [] then 0 else ts[|ts| - 1]
  }

  /** The comparison a voter makes. */
  predicate Ahead(a: seq<nat>, b: seq<nat>)
  {
    Last(a) > Last(b) || (Last(a) == Last(b) && |a| >= |b|)
  }

  lemma TermsSize(log: seq<LogEntry>)
    ensures |Terms(log)| == |log| && Last(Terms(log)) == P.LastTerm(log)
  {
  }

  lemma AheadIs(a: seq<LogEntry>, b: seq<LogEntry>)
    ensures Ahead(Terms(a), Terms(b)) == P.AtLeast(a, b)
  {
  }

  /** Acknowledgements stay on their way. */
  ghost predicate KeepsAcks(net: multiset<Message>, net': multiset<Message>)
  {
    forall m :: m in net && m.AppendAck? ==> m in net'
  }

  lemma StillKept(net: multiset<Message>, net1: multiset<Message>, net2: multiset<Message>)
    requires KeepsAcks(net, net1) && KeepsAcks(net1, net2)
    ensures KeepsAcks(net, net2)
  {
  }

  // ---------------------------------------------------------------- campaigns

  function Request(x: NodeId, v: NodeId, n: Node): Message
  {
    VoteRequest(x, v, n.currentTerm, |n.log.entries|, P.LastTerm(n.log.entries))
  }

  lemma RequestsOut(c: Cluster, x: NodeId, n: Node, term: nat)
    requires x in c.members && n.log.snapshotIndex == 0
    ensures forall v :: v in c.members && v != x ==>
      Request(x, v, n.(currentTerm := term)) in multiset(Requests(x, c.peers[x], term, L.LastIndexTerm(n.log)))
  {
    hide Requests;
    C.LastOf(n);
    forall v | v in c.members && v != x
      ensures Request(x, v, n.(currentTerm := term)) in multiset(Requests(x, c.peers[x], term, L.LastIndexTerm(n.log)))
    {
      E.RequestsCount(c, x, term, L.LastIndexTerm(n.log), Request(x, v, n.(currentTerm := term)));
    }
  }

  lemma Stand(k: Policy, s: System, x: NodeId) returns (s': System)
    requires Good(k, s) && x in k.c.members && s.nodes[x].role != Leader
    ensures Good(k, s') && s'.nodes == s.nodes[x := s'.nodes[x]] && s'.nodes[x].votes == 1
    ensures s'.nodes[x].role == Candidate && s'.nodes[x].currentTerm == s.nodes[x].currentTerm + 1
    ensures FaceOf(s'.nodes[x]) == FaceOf(s.nodes[x]).(term := s.nodes[x].currentTerm + 1, role := Candidate)
    ensures KeepsAcks(s.net, s'.net)
    ensures forall v :: v in k.c.members && v != x ==> Request(x, v, s'.nodes[x]) in s'.net
  {
    hide Good, Requests, L.LastIndexTerm, Terms;
    Members(k, s);
    Uncompacted(k, s, x);
    s' := Taken(k, s, ElectStep(x));
    RequestsOut(k.c, x, s.nodes[x], s.nodes[x].currentTerm + 1);
  }

  /** Those asked, whatever they answer, are followers of the candidate's term now. */
  ghost predicate Asked(s: System, s': System, x: NodeId, vs: set<NodeId>)
  {
    && s'.nodes.Keys == s.nodes.Keys && x in s.nodes && vs <= s.nodes.Keys && KeepsAcks(s.net, s'.net)
    && (forall id :: id in s.nodes && id !in vs ==> s'.nodes[id] == s.nodes[id])
    && (forall id :: id in vs ==>
        FaceOf(s'.nodes[id]) == FaceOf(s.nodes[id]).(term := s.nodes[x].currentTerm, role := Follower))
    && (forall v :: v in vs && Ahead(FaceOf(s.nodes[x]).terms, FaceOf(s.nodes[v]).terms) ==>
        VoteResponse(v, x, s.nodes[x].currentTerm, true) in s'.net)
    && (forall m :: m in s.net && m.VoteResponse? ==> m in s'.net)
  }

  lemma Ask(k: Policy, s: System, x: NodeId, v: NodeId) returns (s': System)
    requires Good(k, s) && x in k.c.members && v in k.c.members && x != v
    requires Request(x, v, s.nodes[x]) in s.net && s.nodes[v].currentTerm < s.nodes[x].currentTerm
    ensures Good(k, s') && s'.nodes == s.nodes[v := s'.nodes[v]]
    ensures FaceOf(s'.nodes[v]) == FaceOf(s.nodes[v]).(term := s.nodes[x].currentTerm, role := Follower)
    ensures forall m :: m in s.net && m != Request(x, v, s.nodes[x]) ==> m in s'.net
    ensures VoteResponse(v, x, s.nodes[x].currentTerm, Ahead(FaceOf(s.nodes[x]).terms, FaceOf(s.nodes[v]).terms))
      in s'.net
  {
    hide Reached, Terms, Ahead, P.LastTerm;
    C.LastOf(s.nodes[v]);
    AheadIs(s.nodes[x].log.entries, s.nodes[v].log.entries);
    s' := Taken(k, s, DeliverStep(Request(x, v, s.nodes[x])));
  }

  lemma {:induction false} AskAll(k: Policy, s: System, x: NodeId, vs: set<NodeId>) returns (s': System)
    requires Good(k, s) && x in k.c.members && vs <= k.c.members - {x}
    requires forall v :: v in vs ==> Request(x, v, s.nodes[x]) in s.net
    requires forall v :: v in vs ==> s.nodes[v].currentTerm < s.nodes[x].currentTerm
    ensures Good(k, s') && Asked(s, s', x, vs)
    decreases |vs|
  {
    hide Good, Asked;
    Members(k, s);
    if vs == {} {
      s' := s;
      NobodyAsked(s, x);
    } else {
      var v :| v in vs;
      var s1 := Ask(k, s, x, v);
      OneAsked(s, s1, x, v);
      Members(k, s1);
      s' := AskAll(k, s1, x, vs - {v});
      AskedMore(s, s1, s', x, v, vs);
    }
  }

  lemma OneAsked(s: System, s': System, x: NodeId, v: NodeId)
    requires x in s.nodes && v in s.nodes && x != v && v in s'.nodes && s'.nodes == s.nodes[v := s'.nodes[v]]
    requires FaceOf(s'.nodes[v]) == FaceOf(s.nodes[v]).(term := s.nodes[x].currentTerm, role := Follower)
    requires forall m :: m in s.net && m != Request(x, v, s.nodes[x]) ==> m in s'.net
    requires VoteResponse(v, x, s.nodes[x].currentTerm, Ahead(FaceOf(s.nodes[x]).terms, FaceOf(s.nodes[v]).terms))
      in s'.net
    ensures Asked(s, s', x, {v})
  {
    hide FaceOf, Ahead;
  }

  lemma NobodyAsked(s: System, x: NodeId)
    requires x in s.nodes
    ensures Asked(s, s, x, {})
  {
  }

  lemma AskedMore(s: System, s1: System, s': System, x: NodeId, v: NodeId, vs: set<NodeId>)
    requires v in vs && x !in vs && Asked(s, s1, x, {v}) && Asked(s1, s', x, vs - {v})
    ensures Asked(s, s', x, vs)
  {
    hide FaceOf, Ahead;
  }

  /** A leader sends every peer its log from `ni` on. */
  ghost predicate SendsFrom(c: Cluster, x: NodeId, n: Node, ni: nat)
  {
    forall r :: r in c.members && r != x ==> Lookup(n.nextIndex, r) == ni
  }

  /** By the leader's book, just those have its log, and the others nothing. */
  ghost predicate Known(c: Cluster, x: NodeId, n: Node, done: set<NodeId>)
  {
    forall r :: r in c.members && r != x ==> Lookup(n.matchIndex, r) == if r in done then |n.log.entries| else 0
  }

  ghost predicate NewLeader(c: Cluster, x: NodeId, n: Node)
  {
    n.role == Leader && SendsFrom(c, x, n, |n.log.entries| + 1) && Known(c, x, n, {})
  }

  lemma LeaderKnows(c: Cluster, x: NodeId, n: Node)
    requires x in c.members && n.log.snapshotIndex == 0
    ensures NewLeader(c, x, BecomeLeader(x, c.peers[x], n))
  {
    var n' := BecomeLeader(x, c.peers[x], n);
    forall r | r in c.members && r != x
      ensures Lookup(n'.nextIndex, r) == |n.log.entries| + 1 && Lookup(n'.matchIndex, r) == 0
    {
      E.OtherIsPeer(c, x, r);
      C.SetAllLookup(n.nextIndex, c.peers[x], n.log.nextIndex, r);
      C.SetAllLookup(n.matchIndex, c.peers[x], 0, r);
    }
  }

  lemma Count(k: Policy, s: System, x: NodeId, v: NodeId) returns (s': System)
    requires Good(k, s) && x in k.c.members && s.nodes[x].role == Candidate
    requires VoteResponse(v, x, s.nodes[x].currentTerm, true) in s.net
    ensures Good(k, s') && s'.nodes == s.nodes[x := s'.nodes[x]]
    ensures s.nodes[x].votes + 1 < E.MajorityOf(k.c.members) ==>
      s'.nodes[x] == s.nodes[x].(votes := s.nodes[x].votes + 1)
    ensures s.nodes[x].votes + 1 >= E.MajorityOf(k.c.members) ==>
      FaceOf(s'.nodes[x]) == FaceOf(s.nodes[x]).(role := Leader) && NewLeader(k.c, x, s'.nodes[x])
    ensures s'.net == s.net - multiset{VoteResponse(v, x, s.nodes[x].currentTerm, true)}
  {
    hide Reached, SetAll, NewLeader;
    E.MajorityAgrees(k.c, x);
    LeaderKnows(k.c, x, s.nodes[x].(votes := s.nodes[x].votes + 1));
    s' := Taken(k, s, DeliverStep(VoteResponse(v, x, s.nodes[x].currentTerm, true)));
  }

  lemma {:induction false} CountAll(k: Policy, s: System, x: NodeId, vs: set<NodeId>) returns (s': System)
    requires Good(k, s) && x in k.c.members && s.nodes[x].role == Candidate
    requires vs != {} && s.nodes[x].votes + |vs| == E.MajorityOf(k.c.members)
    requires forall v :: v in vs ==> VoteResponse(v, x, s.nodes[x].currentTerm, true) in s.net
    ensures Good(k, s') && s'.nodes == s.nodes[x := s'.nodes[x]]
    ensures FaceOf(s'.nodes[x]) == FaceOf(s.nodes[x]).(role := Leader) && NewLeader(k.c, x, s'.nodes[x])
    ensures KeepsAcks(s.net, s'.net)
    decreases |vs|
  {
    hide Good, NewLeader;
    var v :| v in vs;
    s' := Count(k, s, x, v);
    if vs != {v} {
      assert |vs - {v}| == |vs| - 1;
      assert vs - {v} != {};
      s' := CountAll(k, s', x, vs - {v});
    } else {
      assert |vs| == 1;
    }
  }

  /** All were in one term; x asks for their votes in the next. */
  lemma Poll(k: Policy, s: System, x: NodeId, t: nat) returns (s': System)
    requires Good(k, s) && x in k.c.members && s.nodes[x].role != Leader
    requires forall id :: id in k.c.members ==> s.nodes[id].currentTerm == t
    ensures Good(k, s') && KeepsAcks(s.net, s'.net)
    ensures s'.nodes[x].role == Candidate && s'.nodes[x].votes == 1 && s'.nodes[x].currentTerm == t + 1
    ensures forall id :: id in k.c.members ==>
      FaceOf(s'.nodes[id]) == FaceOf(s.nodes[id]).(term := t + 1, role := if id == x then Candidate else Follower)
    ensures forall v :: v in k.c.members && v != x && Ahead(FaceOf(s.nodes[x]).terms, FaceOf(s.nodes[v]).terms) ==>
      VoteResponse(v, x, t + 1, true) in s'.net
  {
    hide Good, Ahead, Request, FaceOf, KeepsAcks, Asked;
    Members(k, s);
    var s1 := Stand(k, s, x);
    Members(k, s1);
    s' := AskAll(k, s1, x, k.c.members - {x});
    Polled(s, s1, s', x, t);
    StillKept(s.net, s1.net, s'.net);
  }

  lemma Polled(s: System, s1: System, s': System, x: NodeId, t: nat)
    requires x in s.nodes && x in s1.nodes && s1.nodes == s.nodes[x := s1.nodes[x]]
    requires FaceOf(s1.nodes[x]) == FaceOf(s.nodes[x]).(term := t + 1, role := Candidate)
    requires s1.nodes[x].currentTerm == t + 1 && Asked(s1, s', x, s.nodes.Keys - {x})
    ensures s'.nodes.Keys == s.nodes.Keys && s'.nodes[x] == s1.nodes[x] && KeepsAcks(s1.net, s'.net)
    ensures forall id :: id in s.nodes ==>
      FaceOf(s'.nodes[id]) == FaceOf(s.nodes[id]).(term := t + 1, role := if id == x then Candidate else Follower)
    ensures forall v :: v in s.nodes && v != x && Ahead(FaceOf(s.nodes[x]).terms, FaceOf(s.nodes[v]).terms) ==>
      VoteResponse(v, x, t + 1, true) in s'.net
  {
    hide FaceOf, Ahead, KeepsAcks;
  }

  /** `vs` vote for x; all others refuse, or their votes come too late. */
  lemma Campaign(k: Policy, s: System, x: NodeId, t: nat, vs: set<NodeId>) returns (s': System)
    requires Good(k, s) && x in k.c.members && s.nodes[x].role != Leader
    requires forall id :: id in k.c.members ==> s.nodes[id].currentTerm == t
    requires vs <= k.c.members - {x} && 1 + |vs| >= E.MajorityOf(k.c.members)
    requires forall v :: v in vs ==> Ahead(FaceOf(s.nodes[x]).terms, FaceOf(s.nodes[v]).terms)
    ensures Good(k, s') && NewLeader(k.c, x, s'.nodes[x]) && KeepsAcks(s.net, s'.net)
    ensures forall id :: id in k.c.members ==>
      FaceOf(s'.nodes[id]) == FaceOf(s.nodes[id]).(term := t + 1, role := if id == x then Leader else Follower)
  {
    hide Good, NewLeader, Ahead, FaceOf;
    Members(k, s);
    Large(k, s);
    var s1 := Poll(k, s, x, t);
    Members(k, s1);
    var us := SubsetOfSize(vs, E.MajorityOf(k.c.members) - 1);
    s' := CountAll(k, s1, x, us);
    Members(k, s');
  }

  // ---------------------------------------------------------------- entries and their copies

  lemma Enter(k: Policy, s: System, x: NodeId) returns (s': System)
    requires Good(k, s) && x in k.c.members && s.nodes[x].role == Leader
    ensures Good(k, s') && s'.nodes == s.nodes[x := s'.nodes[x]] && s'.net == s.net
    ensures FaceOf(s'.nodes[x]) ==
      FaceOf(s.nodes[x]).(terms := FaceOf(s.nodes[x]).terms + [s.nodes[x].currentTerm])
    ensures s'.nodes[x].nextIndex == s.nodes[x].nextIndex
    ensures Known(k.c, x, s.nodes[x], {}) ==> Known(k.c, x, s'.nodes[x], {})
  {
    hide Reached;
    s' := Taken(k, s, ProposeStep(x, "k", None, OpSet, 0));
  }

  /** What leader x sends to v from index `ni` on. */
  function Slice(x: NodeId, v: NodeId, n: Node, ni: nat): Message
    requires 1 <= ni <= |n.log.entries| + 1
  {
    AppendEntries(x, v, n.currentTerm, ni - 1, L.PlainTermAt(n.log.entries, ni - 1), n.log.entries[ni - 1..],
                  n.log.commitIndex)
  }

  lemma SentSlice(x: NodeId, v: NodeId, n: Node, ni: nat)
    requires n.role == Leader && n.log.snapshotIndex == 0 && Lookup(n.nextIndex, v) == ni
    requires 1 <= ni <= |n.log.entries| + 1
    ensures SendAppend(x, n, v) == [Slice(x, v, n, ni)]
  {
    assert L.GetFrom(n.log, ni) == n.log.entries[ni - 1..];
    assert L.TermAt(n.log, ni - 1) == L.PlainTermAt(n.log.entries, ni - 1);
  }

  lemma Sent(k: Policy, s: System, x: NodeId, v: NodeId, ni: nat) returns (s': System)
    requires Good(k, s) && x in k.c.members && v in k.c.members && x != v && s.nodes[x].role == Leader
    requires Lookup(s.nodes[x].nextIndex, v) == ni && 1 <= ni <= |s.nodes[x].log.entries| + 1
    ensures Good(k, s') && s'.nodes == s.nodes && s'.net == s.net + multiset{Slice(x, v, s.nodes[x], ni)}
  {
    hide Reached, SendAppend, Slice;
    E.OtherIsPeer(k.c, x, v);
    SentSlice(x, v, s.nodes[x], ni);
    s' := Taken(k, s, SendAppendStep(x, v));
    assert s.nodes[x := s.nodes[x]] == s.nodes;
  }

  lemma HandlerLog(id: NodeId, n: Node, m: Message)
    requires m.AppendEntries?
    ensures HandleAppendEntries(id, n, m).node.log.snapshotIndex == n.log.snapshotIndex
  {
    hide ApplyCommitted, ApplyEntries;
  }

  lemma Handled(k: Policy, s: System, net: multiset<Message>, m: Message) returns (s': System)
    requires Good(k, s) && m.AppendEntries? && m.dst in k.c.members && s.net == net + multiset{m}
    requires C.Overstates(s.nodes[m.dst], m) ==> k.trust.over
    ensures Good(k, s')
    ensures var e := HandleAppendEntries(m.dst, s.nodes[m.dst], m);
      s'.nodes == s.nodes[m.dst := e.node] && s'.net == net + multiset(e.out)
  {
    hide Reached, HandleAppendEntries, C.Overstates;
    HandlerLog(m.dst, s.nodes[m.dst], m);
    s' := Taken(k, s, DeliverStep(m));
    assert s.net - multiset{m} == net;
  }

  /** x sends what v lacks by its book, and v answers. */
  lemma Send(k: Policy, s: System, x: NodeId, v: NodeId, ni: nat) returns (s': System)
    requires Good(k, s) && x in k.c.members && v in k.c.members && x != v && s.nodes[x].role == Leader
    requires Lookup(s.nodes[x].nextIndex, v) == ni && 1 <= ni <= |s.nodes[x].log.entries| + 1
    requires C.Overstates(s.nodes[v], Slice(x, v, s.nodes[x], ni)) ==> k.trust.over
    ensures Good(k, s')
    ensures var e := HandleAppendEntries(v, s.nodes[v], Slice(x, v, s.nodes[x], ni));
      s'.nodes == s.nodes[v := e.node] && s'.net == s.net + multiset(e.out)
  {
    hide Good, HandleAppendEntries, C.Overstates;
    Uncompacted(k, s, x);
    var s1 := Sent(k, s, x, v, ni);
    s' := Handled(k, s1, s.net, Slice(x, v, s.nodes[x], ni));
  }

  lemma TakeAck(k: Policy, s: System, m: Message) returns (s': System)
    requires Good(k, s) && m.AppendAck? && m in s.net && m.dst in k.c.members
    requires C.Outdated(s.nodes[m.dst], m) ==> k.trust.stale
    ensures Good(k, s') && s'.nodes == s.nodes[m.dst := HandleAppendAck(k.c.peers[m.dst], s.nodes[m.dst], m).node]
    ensures s'.net == s.net - multiset{m}
  {
    hide Reached, HandleAppendAck, C.Outdated;
    AckEffect(k.c.peers[m.dst], s.nodes[m.dst], m);
    s' := Taken(k, s, DeliverStep(m));
  }

  lemma AckEffect(peers: seq<NodeId>, n: Node, m: Message)
    requires m.AppendAck?
    ensures HandleAppendAck(peers, n, m).out == []
    ensures HandleAppendAck(peers, n, m).node.log.snapshotIndex == n.log.snapshotIndex
  {
    hide ApplyCommitted, ApplyEntries, CommitCandidate;
  }

  /** v does not have the entry before the slice: it refuses, and x will start one earlier. */
  lemma Refused(k: Policy, s: System, x: NodeId, v: NodeId, ni: nat) returns (s': System)
    requires Good(k, s) && x in k.c.members && v in k.c.members && x != v && s.nodes[x].role == Leader
    requires Lookup(s.nodes[x].nextIndex, v) == ni && 2 <= ni <= |s.nodes[x].log.entries| + 1
    requires s.nodes[v].currentTerm <= s.nodes[x].currentTerm
    requires s.nodes[x].log.entries[ni - 2].term != 0
    requires L.PlainTermAt(s.nodes[v].log.entries, ni - 1) != s.nodes[x].log.entries[ni - 2].term
    ensures Good(k, s') && forall w :: w in k.c.members && w != x && w != v ==> s'.nodes[w] == s.nodes[w]
    ensures FaceOf(s'.nodes[v]) == FaceOf(s.nodes[v]).(term := s.nodes[x].currentTerm, role := Follower)
    ensures s'.nodes[x] == s.nodes[x].(nextIndex := s.nodes[x].nextIndex[v := ni - 1])
    ensures s'.net == s.net
  {
    hide Good, HandleAppendEntries, HandleAppendAck, C.Overstates;
    Uncompacted(k, s, x);
    Uncompacted(k, s, v);
    var n, m := s.nodes[x], Slice(x, v, s.nodes[x], ni);
    var ack := RefusedEffect(s.nodes[v], m);
    NotOverstated(s.nodes[v], m);
    var s1 := Send(k, s, x, v, ni);
    s' := TakeAck(k, s1, ack);
    BackOff(k.c.peers[x], n, ack, ni);
    assert s1.net == s.net + multiset{ack};
    assert s'.net == s.net;
  }

  lemma RefusedEffect(n: Node, m: Message) returns (ack: Message)
    requires m.AppendEntries? && n.log.snapshotIndex == 0 && m.term >= n.currentTerm
    requires m.prevLogIndex > 0 && m.prevLogTerm != 0 && L.PlainTermAt(n.log.entries, m.prevLogIndex) != m.prevLogTerm
    ensures ack == AppendAck(m.dst, m.src, m.term, false, n.log.nextIndex)
    ensures HandleAppendEntries(m.dst, n, m).out == [ack] && !C.Accepts(n, m)
    ensures FaceOf(HandleAppendEntries(m.dst, n, m).node) == FaceOf(n).(term := m.term, role := Follower)
  {
    ack := AppendAck(m.dst, m.src, m.term, false, n.log.nextIndex);
    assert !L.Matches(n.log, m.prevLogIndex, m.prevLogTerm);
  }

  lemma NotOverstated(n: Node, m: Message)
    requires m.AppendEntries? && !C.Accepts(n, m)
    ensures !C.Overstates(n, m)
  {
  }

  lemma BackOff(peers: seq<NodeId>, n: Node, m: Message, ni: nat)
    requires m.AppendAck? && !m.success && m.term == n.currentTerm && n.role == Leader
    requires Lookup(n.nextIndex, m.src) == ni && ni >= 2
    ensures HandleAppendAck(peers, n, m).node == n.(nextIndex := n.nextIndex[m.src := ni - 1])
  {
  }

  lemma ReceiveNext(l: GoodLog, e: LogEntry)
    requires l.snapshotIndex == 0 && e.index == |l.entries| + 1
    ensures L.Receive(l, e).entries == l.entries + [e]
  {
  }

  lemma ReceiveFirst(l: GoodLog, e: LogEntry)
    requires l.snapshotIndex == 0 && e.index == 1 && (l.entries == [] || l.entries[0].term != e.term)
    ensures L.Receive(l, e).entries == [e]
  {
  }

  /** A slice from the first entry, into a log that is empty or starts with another term. */
  lemma {:induction false} Replaced(l: GoodLog, es: seq<LogEntry>)
    requires l.snapshotIndex == 0 && es != [] && L.Numbered(es)
    requires l.entries == [] || l.entries[0].term != es[0].term
    ensures L.AppendAfter(l, es).entries == es
  {
    hide L.Receive;
    var init, e := es[..|es| - 1], es[|es| - 1];
    if |es| == 1 {
      assert L.AppendAfter(l, init) == l;
      ReceiveFirst(l, e);
    } else {
      Replaced(l, init);
      ReceiveNext(L.AppendAfter(l, init), e);
    }
  }

  /** No entry of the one log has the term of the other's entry at its index. */
  ghost predicate Foreign(ts: seq<nat>, other: seq<nat>)
  {
    forall j :: 0 <= j < |ts| ==> ts[j] > 0 && (j < |other| ==> other[j] != ts[j])
  }

  lemma ForeignAt(log: seq<LogEntry>, other: seq<LogEntry>, j: nat)
    requires Foreign(Terms(log), Terms(other)) && j < |log|
    ensures log[j].term > 0 && L.PlainTermAt(other, j + 1) != log[j].term
    ensures j < |other| ==> other[j].term != log[j].term
  {
    assert Terms(log)[j] == log[j].term;
  }

  /** A leader that has logged something and committed nothing. */
  predicate Logging(n: Node)
  {
    n.role == Leader && n.log.entries != [] && n.log.commitIndex == 0
  }

  function Ack(w: NodeId, x: NodeId, n: Node): Message
  {
    AppendAck(w, x, n.currentTerm, true, |n.log.entries|)
  }

  lemma Copied(k: Policy, s: System, x: NodeId, v: NodeId) returns (s': System)
    requires Good(k, s) && x in k.c.members && Logging(s.nodes[x]) && v in k.c.members && x != v
      && Lookup(s.nodes[x].nextIndex, v) == 1
    requires s.nodes[v].currentTerm <= s.nodes[x].currentTerm
    requires Foreign(FaceOf(s.nodes[x]).terms, FaceOf(s.nodes[v]).terms)
    ensures Good(k, s') && s'.nodes == s.nodes[v := s'.nodes[v]]
    ensures FaceOf(s'.nodes[v]) ==
      Face(s.nodes[x].currentTerm, Follower, FaceOf(s.nodes[x]).terms, s.nodes[v].log.commitIndex)
    ensures s'.net == s.net + multiset{Ack(v, x, s.nodes[x])}
  {
    hide Good, L.AppendAfter, HandleAppendEntries, C.Overstates, Foreign, Terms;
    Uncompacted(k, s, x);
    Uncompacted(k, s, v);
    var m := Slice(x, v, s.nodes[x], 1);
    assert m.entries == s.nodes[x].log.entries;
    ForeignAt(s.nodes[x].log.entries, s.nodes[v].log.entries, 0);
    CopiedEffect(s.nodes[v], m);
    s' := Send(k, s, x, v, 1);
  }

  lemma CopiedEffect(n: Node, m: Message)
    requires m.AppendEntries? && m.prevLogIndex == 0 && m.leaderCommit == 0 && m.entries != [] && L.Numbered(m.entries)
    requires n.log.snapshotIndex == 0 && n.currentTerm <= m.term
    requires n.log.entries == [] || n.log.entries[0].term != m.entries[0].term
    ensures FaceOf(HandleAppendEntries(m.dst, n, m).node) ==
      Face(m.term, Follower, Terms(m.entries), n.log.commitIndex)
    ensures HandleAppendEntries(m.dst, n, m).out == [AppendAck(m.dst, m.src, m.term, true, |m.entries|)]
    ensures !C.Overstates(n, m)
  {
    hide L.AppendAfter, ApplyCommitted, ApplyEntries;
    Replaced(n.log, m.entries);
  }

  /** v takes the whole log of x and acknowledges it. */
  lemma {:induction false} CopyTo(k: Policy, s: System, x: NodeId, v: NodeId, ni: nat) returns (s': System)
    requires Good(k, s) && x in k.c.members && Logging(s.nodes[x]) && v in k.c.members && x != v
    requires Lookup(s.nodes[x].nextIndex, v) == ni && 1 <= ni <= |s.nodes[x].log.entries| + 1
    requires s.nodes[v].currentTerm <= s.nodes[x].currentTerm
    requires Foreign(FaceOf(s.nodes[x]).terms, FaceOf(s.nodes[v]).terms)
    ensures Good(k, s') && forall w :: w in k.c.members && w != x && w != v ==> s'.nodes[w] == s.nodes[w]
    ensures FaceOf(s'.nodes[v]) ==
      Face(s.nodes[x].currentTerm, Follower, FaceOf(s.nodes[x]).terms, s.nodes[v].log.commitIndex)
    ensures s'.nodes[x] == s.nodes[x].(nextIndex := s.nodes[x].nextIndex[v := 1])
    ensures s'.net == s.net + multiset{Ack(v, x, s.nodes[x])}
    decreases ni
  {
    hide Good, Foreign, Terms;
    if ni == 1 {
      s' := Copied(k, s, x, v);
      Members(k, s);
      assert s.nodes[x].nextIndex[v := 1] == s.nodes[x].nextIndex;
    } else {
      Members(k, s);
      ForeignAt(s.nodes[x].log.entries, s.nodes[v].log.entries, ni - 2);
      var s1 := Refused(k, s, x, v, ni);
      s' := CopyTo(k, s1, x, v, ni - 1);
      Members(k, s1);
      assert s1.nodes[x].nextIndex[v := 1] == s.nodes[x].nextIndex[v := 1];
    }
  }

  // ---------------------------------------------------------------- commits

  /** The commit index after acknowledgements of the whole log. */
  function Reckoned(ms: set<NodeId>, size: nat, done: set<NodeId>): nat
  {
    if 1 + |done| >= E.MajorityOf(ms) then size else 0
  }

  lemma TakeOne(k: Policy, s: System, x: NodeId, w: NodeId, term: nat, done: set<NodeId>) returns (s': System)
    requires Good(k, s) && x in k.c.members && s.nodes[x].role == Leader && s.nodes[x].log.entries != []
    requires P.LastTerm(s.nodes[x].log.entries) == s.nodes[x].currentTerm
    requires w in k.c.members - {x} - done && done <= k.c.members - {x} && Known(k.c, x, s.nodes[x], done)
    requires s.nodes[x].log.commitIndex == Reckoned(k.c.members, |s.nodes[x].log.entries|, done)
    requires AppendAck(w, x, term, true, |s.nodes[x].log.entries|) in s.net
    requires term <= s.nodes[x].currentTerm && (term < s.nodes[x].currentTerm ==> k.trust.stale)
    ensures Good(k, s') && s'.nodes == s.nodes[x := s'.nodes[x]]
    ensures s'.nodes[x].log.entries == s.nodes[x].log.entries && Known(k.c, x, s'.nodes[x], done + {w})
    ensures FaceOf(s'.nodes[x])
      == FaceOf(s.nodes[x]).(commit := Reckoned(k.c.members, |s.nodes[x].log.entries|, done + {w}))
    ensures s'.net == s.net - multiset{AppendAck(w, x, term, true, |s.nodes[x].log.entries|)}
  {
    hide Reached, HandleAppendAck, Known;
    var m := AppendAck(w, x, term, true, |s.nodes[x].log.entries|);
    TakenEffect(k.c, s.nodes[x], m, done);
    s' := TakeAck(k, s, m);
  }

  lemma TakenEffect(c: Cluster, n: Node, m: Message, done: set<NodeId>)
    requires m.AppendAck? && m.dst in c.members && m.src in c.members - {m.dst} - done && done <= c.members - {m.dst}
    requires n.role == Leader && n.log.snapshotIndex == 0 && n.log.entries != [] && |c.members| >= 3
    requires n.log.commitIndex == Reckoned(c.members, |n.log.entries|, done) && Known(c, m.dst, n, done)
    requires P.LastTerm(n.log.entries) == n.currentTerm && m.success && m.conflictIndex == |n.log.entries|
    requires m.term <= n.currentTerm
    ensures var n' := HandleAppendAck(c.peers[m.dst], n, m).node;
      && n'.log.entries == n.log.entries && Known(c, m.dst, n', done + {m.src})
      && FaceOf(n') == FaceOf(n).(commit := Reckoned(c.members, |n.log.entries|, done + {m.src}))
  {
    hide Replicated, CommitCandidate, FaceOf, E.MajorityOf, AdvanceCommit, Known;
    var n1 := n.(matchIndex := n.matchIndex[m.src := m.conflictIndex],
                 nextIndex := n.nextIndex[m.src := m.conflictIndex + 1]);
    KnownMore(c, m.dst, n, n1, done, m.src);
    assert HandleAppendAck(c.peers[m.dst], n, m).node == AdvanceCommit(c.peers[m.dst], n1);
    Advanced(c, m.dst, n1, done + {m.src});
    SameFaces(n, n1);
    assert |done + {m.src}| == |done| + 1;
  }

  lemma KnownMore(c: Cluster, x: NodeId, n: Node, n1: Node, done: set<NodeId>, w: NodeId)
    requires Known(c, x, n, done) && n1.log == n.log && n1.matchIndex == n.matchIndex[w := |n.log.entries|]
    ensures Known(c, x, n1, done + {w})
  {
  }

  lemma SameFaces(n: Node, n1: Node)
    requires n1 == n.(matchIndex := n1.matchIndex, nextIndex := n1.nextIndex)
    ensures FaceOf(n1) == FaceOf(n)
  {
    hide Terms;
  }

  /** The commit index after the loop. */
  lemma Advanced(c: Cluster, x: NodeId, n: Node, done: set<NodeId>)
    requires x in c.members && done <= c.members - {x} && Known(c, x, n, done) && |c.members| >= 3
    requires n.log.snapshotIndex == 0 && n.log.entries != [] && P.LastTerm(n.log.entries) == n.currentTerm
    requires n.log.commitIndex == 0 || n.log.commitIndex == |n.log.entries|
    requires n.log.commitIndex == 0 || 1 + |done| >= E.MajorityOf(c.members)
    ensures var n' := AdvanceCommit(c.peers[x], n);
      && n'.log.entries == n.log.entries && Known(c, x, n', done)
      && FaceOf(n') == FaceOf(n).(commit := Reckoned(c.members, |n.log.entries|, done))
  {
    hide ApplyCommitted, ApplyEntries, Replicated, CommitCandidate, Terms, E.MajorityOf;
    Candidates(c, x, n, done);
  }

  /** The loop finds the whole log if enough have it and it is not committed yet, and nothing else. */
  lemma Candidates(c: Cluster, x: NodeId, n: Node, done: set<NodeId>)
    requires x in c.members && done <= c.members - {x} && Known(c, x, n, done)
    requires n.log.snapshotIndex == 0 && n.log.entries != [] && P.LastTerm(n.log.entries) == n.currentTerm
    ensures var N := |n.log.entries|;
      CommitCandidate(c.peers[x], n, n.log.nextIndex - 1) ==
        if 1 + |done| >= E.MajorityOf(c.members) && n.log.commitIndex < N then Some(N) else None
  {
    hide Replicated, Known, Holders;
    var peers, N := c.peers[x], |n.log.entries|;
    E.MajorityAgrees(c, x);
    forall k | 1 <= k <= N
      ensures Replicated(n.matchIndex, peers, k) == 1 + |done|
    {
      Believed(c, x, n, done, k);
    }
    CandidateIsGreatest(peers, n, N);
  }

  lemma Believed(c: Cluster, x: NodeId, n: Node, done: set<NodeId>, k: nat)
    requires x in c.members && done <= c.members - {x} && Known(c, x, n, done) && 1 <= k <= |n.log.entries|
    ensures Replicated(n.matchIndex, c.peers[x], k) == 1 + |done|
  {
    var peers := c.peers[x];
    assert c.PeersOf(x, peers);
    ReplicatedCounts(n.matchIndex, peers, k);
    forall r
      ensures r in Holders(n.matchIndex, peers, k) <==> r in done
    {
      if r in peers {
        E.PeerIsOther(c, x, r);
      } else if r in done {
        E.OtherIsPeer(c, x, r);
      }
    }
    assert Holders(n.matchIndex, peers, k) == done;
  }

  // ---------------------------------------------------------------- empty messages

  /** A leader with nothing logged is told by v that it has what v logged under another leader. */
  lemma Overstating(k: Policy, s: System, x: NodeId, v: NodeId) returns (s': System)
    requires Good(k, s) && x in k.c.members && v in k.c.members && x != v && k.trust.over
    requires s.nodes[x].role == Leader && s.nodes[x].log.entries == [] && s.nodes[x].log.commitIndex == 0
    requires Lookup(s.nodes[x].nextIndex, v) == 1 && s.nodes[v].currentTerm <= s.nodes[x].currentTerm
    ensures Good(k, s') && s'.nodes == s.nodes[v := s'.nodes[v]]
    ensures FaceOf(s'.nodes[v]) == FaceOf(s.nodes[v]).(term := s.nodes[x].currentTerm, role := Follower)
    ensures s'.net == s.net + multiset{AppendAck(v, x, s.nodes[x].currentTerm, true, |s.nodes[v].log.entries|)}
  {
    hide Good, HandleAppendEntries, C.Overstates;
    Uncompacted(k, s, x);
    Uncompacted(k, s, v);
    HeartbeatEffect(s.nodes[v], Slice(x, v, s.nodes[x], 1));
    s' := Send(k, s, x, v, 1);
  }

  lemma HeartbeatEffect(n: Node, m: Message)
    requires m.AppendEntries? && m.prevLogIndex == 0 && m.leaderCommit == 0 && m.entries == []
    requires n.log.snapshotIndex == 0 && n.currentTerm <= m.term
    ensures FaceOf(HandleAppendEntries(m.dst, n, m).node) == FaceOf(n).(term := m.term, role := Follower)
    ensures HandleAppendEntries(m.dst, n, m).out == [AppendAck(m.dst, m.src, m.term, true, |n.log.entries|)]
  {
  }
}
