/**
 Raft nodes and the network between them (internal/node/raft.go over transport/fabric.go).

 Each handler is one atomic step of a node. The network is a bag of messages: a message may
 stay in it for ever, be dropped, or be delivered once, in any order. Timeouts fire at any time.
 */
module RaftModel {
  import opened Storage
  import opened StoreObject
  import opened LogFold
  import L = LogModel

  datatype Role = Follower | Candidate | Leader

  /** A ReplicationLog that satisfies its index invariant. */
  type GoodLog = l: L.Log | L.WellFormed(l) witness L.EMPTY

  datatype Node = Node(
    currentTerm: nat, votedFor: NodeId, role: Role, raftLeader: NodeId, votes: nat,
    nextIndex: map<NodeId, nat>, matchIndex: map<NodeId, nat>, log: GoodLog, applied: nat, machine: Machine)

  /** The state machine: the store and its version counter. */
  datatype Machine = Machine(data: Contents, version: nat)

  datatype Message =
    | VoteRequest(src: NodeId, dst: NodeId, term: nat, lastLogIndex: nat, lastLogTerm: nat)
    | VoteResponse(src: NodeId, dst: NodeId, term: nat, voteGranted: bool)
    | AppendEntries(src: NodeId, dst: NodeId, term: nat, prevLogIndex: nat, prevLogTerm: nat,
                    entries: seq<LogEntry>, leaderCommit: nat)
    | AppendAck(src: NodeId, dst: NodeId, term: nat, success: bool, conflictIndex: nat)
    | InstallSnap(src: NodeId, dst: NodeId, term: nat, snapIndex: nat, snapTerm: nat, snapshot: Contents)

  datatype Effect = Effect(node: Node, out: seq<Message>)

  const NEW_NODE := Node(0, NOBODY, Follower, NOBODY, 0, map[], map[], L.EMPTY, 0, Machine(map[], 0))

  const COMPACT_THRESHOLD := 30

  function Lookup(m: map<NodeId, nat>, k: NodeId): nat
  {
    if k in m then m[k] else 0
  }

  function Majority(peers: seq<NodeId>): nat
  {
    (|peers| + 1) / 2 + 1
  }

  function StepDown(n: Node, newTerm: nat): Node
  {
    n.(currentTerm := newTerm, role := Follower, votedFor := NOBODY, raftLeader := NOBODY)
  }

  function Requests(id: NodeId, peers: seq<NodeId>, term: nat, last: (nat, nat)): seq<Message>
  {
    seq(|peers|, i requires 0 <= i < |peers| => VoteRequest(id, peers[i], term, last.0, last.1))
  }

  /** maybeElect, once the election timeout has fired. */
  function Elect(id: NodeId, peers: seq<NodeId>, n: Node): Effect
  {
    if n.role == Leader then Effect(n, [])
    else
      Effect(n.(currentTerm := n.currentTerm + 1, role := Candidate, votedFor := id, votes := 1, raftLeader := NOBODY),
             Requests(id, peers, n.currentTerm + 1, L.LastIndexTerm(n.log)))
  }

  predicate UpToDate(m: Message, mine: (nat, nat))
    requires m.VoteRequest?
  {
    m.lastLogTerm > mine.1 || (m.lastLogTerm == mine.1 && m.lastLogIndex >= mine.0)
  }

  function HandleVoteRequest(id: NodeId, n: Node, m: Message): Effect
    requires m.VoteRequest?
  {
    var n1 := if m.term > n.currentTerm then StepDown(n, m.term) else n;
    var grant := m.term == n1.currentTerm && (n1.votedFor == NOBODY || n1.votedFor == m.src)
                 && UpToDate(m, L.LastIndexTerm(n1.log));
    Effect(if grant then n1.(votedFor := m.src) else n1,
           [VoteResponse(id, m.src, n1.currentTerm, grant)])
  }

  function SetAll(m: map<NodeId, nat>, peers: seq<NodeId>, v: nat): map<NodeId, nat>
  {
    if peers == [] then m else SetAll(m, peers[..|peers| - 1], v)[peers[|peers| - 1] := v]
  }

  function BecomeLeader(id: NodeId, peers: seq<NodeId>, n: Node): Node
  {
    n.(role := Leader, raftLeader := id,
       nextIndex := SetAll(n.nextIndex, peers, n.log.nextIndex),
       matchIndex := SetAll(n.matchIndex, peers, 0))
  }

  function HandleVoteResponse(id: NodeId, peers: seq<NodeId>, n: Node, m: Message): Effect
    requires m.VoteResponse?
  {
    if m.term > n.currentTerm then Effect(StepDown(n, m.term), [])
    else if n.role != Candidate || m.term != n.currentTerm || !m.voteGranted then Effect(n, [])
    else
      var n1 := n.(votes := n.votes + 1);
      Effect(if n1.votes >= Majority(peers) then BecomeLeader(id, peers, n1) else n1, [])
  }

  /** The index applyCommitted stops at: `upto`, or the first index the log cannot supply. */
  function ApplyCommitted(log: GoodLog, applied: nat, upto: nat): nat
    decreases upto - applied
  {
    if applied < upto && L.Get(log, applied + 1).Some? then ApplyCommitted(log, applied + 1, upto) else applied
  }

  /** What applyCommitted makes of the store meanwhile. */
  function ApplyEntries(log: GoodLog, m: Machine, applied: nat, upto: nat): Machine
    decreases upto - applied
  {
    if applied < upto && L.Get(log, applied + 1).Some? then
      var m' := Machine(AfterSet(m.data, m.version, KVOf(L.Get(log, applied + 1).value)), m.version + 1);
      ApplyEntries(log, m', applied + 1, upto)
    else m
  }

  /** The commit index moves, and the machine follows. */
  function CommitTo(n: Node, log: GoodLog, upto: nat): Node
  {
    n.(log := log, applied := ApplyCommitted(log, n.applied, upto),
       machine := ApplyEntries(log, n.machine, n.applied, upto))
  }

  /** A message of a current leader: catch up with its term and follow it. */
  function Follow(n: Node, term: nat, leader: NodeId): Node
    requires term >= n.currentTerm
  {
    (if term > n.currentTerm then StepDown(n, term) else n).(role := Follower, raftLeader := leader)
  }

  function HandleAppendEntries(id: NodeId, n: Node, m: Message): Effect
    requires m.AppendEntries?
  {
    if m.term < n.currentTerm then Effect(n, [AppendAck(id, m.src, n.currentTerm, false, 0)])
    else
      var n1 := Follow(n, m.term, m.src);
      if !L.Matches(n1.log, m.prevLogIndex, m.prevLogTerm) then
        Effect(n1, [AppendAck(id, m.src, m.term, false, n1.log.nextIndex)])
      else
        var log: GoodLog := L.AppendAfter(n1.log, m.entries);
        var last := log.nextIndex - 1;
        var commit := if last < m.leaderCommit then last else m.leaderCommit;
        var n2 :=
          if m.leaderCommit > log.commitIndex then
            var log2: GoodLog := L.SetCommitIndex(log, commit);
            CommitTo(n1, log2, commit)
          else n1.(log := log);
        Effect(n2, [AppendAck(id, m.src, m.term, true, last)])
  }

  /** How many nodes, the leader included, are believed to hold index N. */
  function Replicated(matchIndex: map<NodeId, nat>, peers: seq<NodeId>, N: nat): nat
  {
    if peers == [] then 1
    else Replicated(matchIndex, peers[..|peers| - 1], N)
         + if Lookup(matchIndex, peers[|peers| - 1]) >= N then 1 else 0
  }

  /** The highest index above the commit index, from N down, that a majority holds in the current term. */
  function CommitCandidate(peers: seq<NodeId>, n: Node, N: nat): Option<nat>
  {
    if N <= n.log.commitIndex then None
    else if L.TermAt(n.log, N) == n.currentTerm && Replicated(n.matchIndex, peers, N) >= Majority(peers) then Some(N)
    else CommitCandidate(peers, n, N - 1)
  }

  /** An uncommitted index of the current term that a majority is believed to hold. */
  predicate Committable(peers: seq<NodeId>, n: Node, k: nat)
  {
    k > n.log.commitIndex && L.TermAt(n.log, k) == n.currentTerm
      && Replicated(n.matchIndex, peers, k) >= Majority(peers)
  }

  /** The loop finds the greatest committable index, or there is none. */
  lemma {:induction false} CandidateIsGreatest(peers: seq<NodeId>, n: Node, N: nat)
    ensures CommitCandidate(peers, n, N).None? ==> forall k: nat :: k <= N ==> !Committable(peers, n, k)
    ensures CommitCandidate(peers, n, N).Some? ==>
      && CommitCandidate(peers, n, N).value <= N && Committable(peers, n, CommitCandidate(peers, n, N).value)
      && forall k :: CommitCandidate(peers, n, N).value < k <= N ==> !Committable(peers, n, k)
  {
    if N > n.log.commitIndex && !Committable(peers, n, N) {
      CandidateIsGreatest(peers, n, N - 1);
    }
  }

  /** The peers believed to hold index N. */
  function Holders(matchIndex: map<NodeId, nat>, peers: seq<NodeId>, N: nat): set<NodeId>
  {
    set p | p in peers && Lookup(matchIndex, p) >= N
  }

  /** The count is the leader and those peers, if no peer is listed twice. */
  lemma {:induction false} ReplicatedCounts(matchIndex: map<NodeId, nat>, peers: seq<NodeId>, N: nat)
    requires forall i, j :: 0 <= i < j < |peers| ==> peers[i] != peers[j]
    ensures Replicated(matchIndex, peers, N) == 1 + |Holders(matchIndex, peers, N)|
  {
    if peers != [] {
      var init, p := peers[..|peers| - 1], peers[|peers| - 1];
      ReplicatedCounts(matchIndex, init, N);
      assert peers == init + [p];
      HoldersMore(matchIndex, init, p, N);
    }
  }

  lemma HoldersMore(matchIndex: map<NodeId, nat>, peers: seq<NodeId>, p: NodeId, N: nat)
    requires p !in peers
    ensures |Holders(matchIndex, peers + [p], N)| ==
      |Holders(matchIndex, peers, N)| + if Lookup(matchIndex, p) >= N then 1 else 0
  {
    var before := Holders(matchIndex, peers, N);
    assert forall x :: x in peers + [p] <==> x in peers || x == p;
    assert Holders(matchIndex, peers + [p], N) == if Lookup(matchIndex, p) >= N then before + {p} else before;
    assert p !in before;
  }

  function AdvanceCommit(peers: seq<NodeId>, n: Node): Node
  {
    match CommitCandidate(peers, n, n.log.nextIndex - 1)
    case None => n
    case Some(N) =>
      var log: GoodLog := L.SetCommitIndex(n.log, N);
      CommitTo(n, log, N)
  }

  function HandleAppendAck(peers: seq<NodeId>, n: Node, m: Message): Effect
    requires m.AppendAck?
  {
    if m.term > n.currentTerm then Effect(StepDown(n, m.term), [])
    else if n.role != Leader then Effect(n, [])
    else if m.success then
      Effect(AdvanceCommit(peers, n.(matchIndex := n.matchIndex[m.src := m.conflictIndex],
                                     nextIndex := n.nextIndex[m.src := m.conflictIndex + 1])), [])
    else if Lookup(n.nextIndex, m.src) > 1 then
      Effect(n.(nextIndex := n.nextIndex[m.src := Lookup(n.nextIndex, m.src) - 1]), [])
    else Effect(n, [])
  }

  function HandleInstallSnap(id: NodeId, n: Node, m: Message): Effect
    requires m.InstallSnap?
  {
    if m.term < n.currentTerm then Effect(n, [AppendAck(id, m.src, n.currentTerm, false, 0)])
    else
      var n1 := Follow(n, m.term, m.src);
      var n2 :=
        if m.snapIndex > n1.log.snapshotIndex then
          n1.(log := L.InstallSnapshot(n1.log, m.snapIndex, m.snapTerm),
              applied := if n1.applied < m.snapIndex then m.snapIndex else n1.applied,
              machine := n1.machine.(data := m.snapshot))
        else n1;
      Effect(n2, [AppendAck(id, m.src, m.term, true, n2.log.nextIndex - 1)])
  }

  /** sendAppend: the entries the peer is believed to lack, or a snapshot when they are compacted away. */
  function SendAppend(id: NodeId, n: Node, peer: NodeId): seq<Message>
  {
    if n.role != Leader then []
    else
      var ni := if Lookup(n.nextIndex, peer) == 0 then 1 else Lookup(n.nextIndex, peer);
      if ni - 1 < n.log.snapshotIndex then
        [InstallSnap(id, peer, n.currentTerm, n.log.snapshotIndex, n.log.snapshotTerm, n.machine.data)]
      else
        [AppendEntries(id, peer, n.currentTerm, ni - 1, L.TermAt(n.log, ni - 1),
                       L.GetFrom(n.log, ni), n.log.commitIndex)]
  }

  /** The append in proposeAndWait; a node that is not leader refuses. */
  function Propose(id: NodeId, n: Node, key: string, value: Value, op: OpType, ts: int): Node
  {
    if n.role != Leader then n
    else
      n.(log := L.Append(n.log, LogEntry(0, n.currentTerm, key, value, op, ts, id, map[])),
         matchIndex := n.matchIndex[id := n.log.nextIndex])
  }

  function MaybeCompact(n: Node): Node
  {
    if n.applied <= n.log.snapshotIndex || n.applied - n.log.snapshotIndex <= COMPACT_THRESHOLD then n
    else if L.TermAt(n.log, n.applied) == 0 then n
    else n.(log := L.Compact(n.log, n.applied, L.TermAt(n.log, n.applied)))
  }

  function Handle(id: NodeId, peers: seq<NodeId>, n: Node, m: Message): Effect
  {
    match m
    case VoteRequest(_, _, _, _, _) => HandleVoteRequest(id, n, m)
    case VoteResponse(_, _, _, _) => HandleVoteResponse(id, peers, n, m)
    case AppendEntries(_, _, _, _, _, _, _) => HandleAppendEntries(id, n, m)
    case AppendAck(_, _, _, _, _) => HandleAppendAck(peers, n, m)
    case InstallSnap(_, _, _, _, _, _) => HandleInstallSnap(id, n, m)
  }

  // ---------------------------------------------------------------- the cluster

  /** Fixed membership: every node's peers are the other members, each listed once. */
  type Cluster = c: Membership | c.Valid()
    witness Membership({NodeId("n")}, map[NodeId("n") := []])

  datatype Membership = Membership(members: set<NodeId>, peers: map<NodeId, seq<NodeId>>) {
    ghost predicate Valid()
    {
      && members != {} && NOBODY !in members
      && peers.Keys == members
      && forall n :: n in members ==> PeersOf(n, peers[n])
    }

    ghost predicate PeersOf(n: NodeId, ps: seq<NodeId>)
    {
      && (forall i, j :: 0 <= i < j < |ps| ==> ps[i] != ps[j])
      && (set p | p in ps) == members - {n}
    }
  }

  datatype System = System(nodes: map<NodeId, Node>, net: multiset<Message>)

  datatype Step =
    | ElectStep(id: NodeId)
    | SendAppendStep(id: NodeId, peer: NodeId)
    | ProposeStep(id: NodeId, key: string, value: Value, op: OpType, ts: int)
    | CompactStep(id: NodeId)
    | DeliverStep(m: Message)
    | DropStep(m: Message)

  function Init(c: Cluster): System
  {
    System(map n | n in c.members :: NEW_NODE, multiset{})
  }

  ghost predicate Enabled(c: Cluster, s: System, step: Step)
  {
    && s.nodes.Keys == c.members
    && match step
       case ElectStep(id) => id in c.members
       case SendAppendStep(id, peer) => id in c.members && peer in c.peers[id]
       case ProposeStep(id, _, _, _, _) => id in c.members
       case CompactStep(id) => id in c.members
       case DeliverStep(m) => m in s.net && m.dst in c.members
       case DropStep(m) => m in s.net
  }

  /** The node a step runs on. */
  function Actor(step: Step): NodeId
    requires !step.DropStep?
  {
    if step.DeliverStep? then step.m.dst else step.id
  }

  /** What the step makes of its node, and the messages it sends. */
  function Outcome(c: Cluster, s: System, step: Step): Effect
    requires Enabled(c, s, step) && !step.DropStep?
  {
    match step
    case ElectStep(id) => Elect(id, c.peers[id], s.nodes[id])
    case SendAppendStep(id, peer) => Effect(s.nodes[id], SendAppend(id, s.nodes[id], peer))
    case ProposeStep(id, key, value, op, ts) => Effect(Propose(id, s.nodes[id], key, value, op, ts), [])
    case CompactStep(id) => Effect(MaybeCompact(s.nodes[id]), [])
    case DeliverStep(m) => Handle(m.dst, c.peers[m.dst], s.nodes[m.dst], m)
  }

  function Consumed(net: multiset<Message>, step: Step): multiset<Message>
  {
    if step.DeliverStep? || step.DropStep? then net - multiset{step.m} else net
  }

  function Put(s: System, id: NodeId, e: Effect, net: multiset<Message>): System
  {
    System(s.nodes[id := e.node], net + multiset(e.out))
  }

  function Take(c: Cluster, s: System, step: Step): System
    requires Enabled(c, s, step)
  {
    if step.DropStep? then s.(net := Consumed(s.net, step))
    else Put(s, Actor(step), Outcome(c, s, step), Consumed(s.net, step))
  }

  ghost predicate Next(c: Cluster, s: System, step: Step, s': System)
  {
    Enabled(c, s, step) && s' == Take(c, s, step)
  }

  ghost predicate IsRun(c: Cluster, tr: seq<System>, steps: seq<Step>)
  {
    && |tr| == |steps| + 1
    && tr[0] == Init(c)
    && forall i :: 0 <= i < |steps| ==> Next(c, tr[i], steps[i], tr[i + 1])
  }

  /** A run is the empty run or a shorter run and one more step. */
  lemma RunLast(c: Cluster, tr: seq<System>, steps: seq<Step>)
    requires IsRun(c, tr, steps)
    ensures steps == [] ==> tr == [Init(c)]
    ensures steps != [] ==>
      && IsRun(c, tr[..|steps|], steps[..|steps| - 1])
      && Next(c, tr[|steps| - 1], steps[|steps| - 1], tr[|steps|])
  {
  }
}
