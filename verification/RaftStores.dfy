/**
 What Raft nodes serve (internal/node/raft.go): in the runs in which commits agree, every node's store is
 the fold of its committed log, so the stores are states of one machine; and whom a node names as leader
 has led its term.
 */
module RaftStores {
  import opened Storage
  import opened StoreObject
  import opened LogFold
  import opened RaftModel
  import C = RaftCommit
  import L = LogModel
  import P = RaftPast
  import V = RaftValidity

  // ---------------------------------------------------------------- nothing compacted

  ghost predicate Plain(s: System)
  {
    && (forall id :: id in s.nodes ==> s.nodes[id].log.snapshotIndex == 0)
    && (forall m :: m in s.net ==> !m.InstallSnap?)
  }

  ghost predicate PlainEffect(e: Effect)
  {
    e.node.log.snapshotIndex == 0 && forall m :: m in e.out ==> !m.InstallSnap?
  }

  lemma HandlePlain(id: NodeId, peers: seq<NodeId>, n: Node, m: Message)
    requires n.log.snapshotIndex == 0 && !m.InstallSnap?
    ensures PlainEffect(Handle(id, peers, n, m))
  {
    hide ApplyCommitted, ApplyEntries, L.AppendAfter, CommitCandidate, SetAll;
  }

  lemma StepPlain(c: Cluster, s: System, step: Step)
    requires Enabled(c, s, step) && !step.CompactStep? && Plain(s)
    ensures Plain(Take(c, s, step))
  {
    hide Outcome;
    if !step.DropStep? {
      OutcomePlain(c, s, step);
    }
  }

  lemma OutcomePlain(c: Cluster, s: System, step: Step)
    requires Enabled(c, s, step) && !step.CompactStep? && !step.DropStep? && Plain(s)
    ensures PlainEffect(Outcome(c, s, step))
  {
    hide Handle;
    if step.DeliverStep? {
      HandlePlain(step.m.dst, c.peers[step.m.dst], s.nodes[step.m.dst], step.m);
    }
  }

  lemma {:induction false} RunPlain(c: Cluster, tr: seq<System>, steps: seq<Step>, i: nat)
    requires IsRun(c, tr, steps) && i < |tr| && forall j :: 0 <= j < |steps| ==> !steps[j].CompactStep?
    ensures Plain(tr[i])
  {
    hide Take, Enabled, Plain;
    if i == 0 {
      InitPlain(c);
    } else {
      RunPlain(c, tr, steps, i - 1);
      assert Next(c, tr[i - 1], steps[i - 1], tr[i]);
      StepPlain(c, tr[i - 1], steps[i - 1]);
    }
  }

  lemma InitPlain(c: Cluster)
    ensures Plain(Init(c))
  {
  }

  // ---------------------------------------------------------------- how the machine moves

  /** The machine stands still with the commit index, or follows it along the log. */
  ghost predicate Moves(n: Node, n': Node)
  {
    || (n'.log.commitIndex == n.log.commitIndex && n'.applied == n.applied && n'.machine == n.machine)
    || (n'.log.commitIndex > n.log.commitIndex
        && n'.applied == ApplyCommitted(n'.log, n.applied, n'.log.commitIndex)
        && n'.machine == ApplyEntries(n'.log, n.machine, n.applied, n'.log.commitIndex))
  }

  /** An accepted message moves the commit index to what the leader has committed, as far as the log goes. */
  lemma FollowerCommits(id: NodeId, n: Node, m: Message)
    requires m.AppendEntries? && C.Accepts(n, m) && n.applied >= n.log.commitIndex
    ensures var n' := HandleAppendEntries(id, n, m).node;
      var last := n'.log.nextIndex - 1;
      var to := if m.leaderCommit < last then m.leaderCommit else last;
      n'.log.commitIndex == (if to > n.log.commitIndex then to else n.log.commitIndex) && Moves(n, n')
  {
    hide L.AppendAfter, L.Matches;
  }

  lemma AppendMoves(id: NodeId, n: Node, m: Message)
    requires m.AppendEntries? && n.applied >= n.log.commitIndex
    ensures Moves(n, HandleAppendEntries(id, n, m).node)
  {
    hide L.AppendAfter, L.Matches, Moves;
    if C.Accepts(n, m) {
      FollowerCommits(id, n, m);
    } else {
      assert Moves(n, HandleAppendEntries(id, n, m).node) by { Refused(id, n, m); }
    }
  }

  lemma Refused(id: NodeId, n: Node, m: Message)
    requires m.AppendEntries? && !C.Accepts(n, m)
    ensures Moves(n, HandleAppendEntries(id, n, m).node)
  {
    hide L.AppendAfter, L.Matches;
  }

  lemma AckMoves(peers: seq<NodeId>, n: Node, m: Message)
    requires m.AppendAck?
    ensures Moves(n, HandleAppendAck(peers, n, m).node)
  {
    hide ApplyCommitted, ApplyEntries, CommitCandidate;
    if m.success && n.role == Leader {
      var n1 := n.(matchIndex := n.matchIndex[m.src := m.conflictIndex],
                   nextIndex := n.nextIndex[m.src := m.conflictIndex + 1]);
      CandidateIsGreatest(peers, n1, n1.log.nextIndex - 1);
    }
  }

  lemma StepMoves(c: Cluster, s: System, step: Step)
    requires Enabled(c, s, step) && !step.CompactStep? && !step.DropStep? && Plain(s)
    requires s.nodes[Actor(step)].applied >= s.nodes[Actor(step)].log.commitIndex
    ensures Moves(s.nodes[Actor(step)], Outcome(c, s, step).node)
  {
    hide HandleAppendEntries, HandleAppendAck, ApplyCommitted, ApplyEntries, SetAll;
    if step.DeliverStep? {
      if step.m.AppendEntries? {
        AppendMoves(step.m.dst, s.nodes[step.m.dst], step.m);
      } else if step.m.AppendAck? {
        AckMoves(c.peers[step.m.dst], s.nodes[step.m.dst], step.m);
      }
    }
  }

  // ---------------------------------------------------------------- the machine is the fold

  /** Everything committed is applied, and the machine is the fold of it. */
  ghost predicate Current(n: Node)
  {
    && n.applied == n.log.commitIndex <= |n.log.entries|
    && n.machine == Machine(Fold(n.log.entries[..n.applied]), n.applied)
  }

  lemma {:induction false} ApplyIsFold(log: GoodLog, a: nat, u: nat)
    requires log.snapshotIndex == 0 && a <= u <= |log.entries|
    ensures ApplyCommitted(log, a, u) == u
    ensures ApplyEntries(log, Machine(Fold(log.entries[..a]), a), a, u) == Machine(Fold(log.entries[..u]), u)
    decreases u - a
  {
    if a < u {
      assert L.Get(log, a + 1) == Some(log.entries[a]);
      assert log.entries[..a + 1][..a] == log.entries[..a];
      ApplyIsFold(log, a + 1, u);
    }
  }

  lemma MoveKeepsCurrent(n: Node, n': Node)
    requires Current(n) && Moves(n, n') && n'.log.snapshotIndex == 0 && n'.log.commitIndex <= |n'.log.entries|
    requires n.log.commitIndex <= |n'.log.entries|
    requires n'.log.entries[..n.log.commitIndex] == n.log.entries[..n.log.commitIndex]
    ensures Current(n')
  {
    hide Fold, ApplyCommitted, ApplyEntries;
    ApplyIsFold(n'.log, n.applied, n'.log.commitIndex);
  }

  /** In every run in which commits agree, each node's store is the fold of what it has committed. */
  lemma {:induction false} MachineIsFold(c: Cluster, trust: P.Trust, tr: seq<System>, steps: seq<Step>, i: nat,
                                         id: NodeId)
    requires C.SoundRun(c, trust, tr, steps) && i < |tr| && id in tr[i].nodes
    ensures Current(tr[i].nodes[id])
    decreases i
  {
    hide Take, Enabled, Plain, Current, Moves, Outcome, C.SoundStep;
    RunPlain(c, tr, steps, i);
    if i == 0 {
      InitCurrent(c, id);
    } else {
      var s, step := tr[i - 1], steps[i - 1];
      assert Next(c, s, step, tr[i]);
      StillThere(c, s, step, tr[i], id);
      MachineIsFold(c, trust, tr, steps, i - 1, id);
      if tr[i].nodes[id] != s.nodes[id] {
        RunPlain(c, tr, steps, i - 1);
        CurrentApplied(s.nodes[id]);
        StepMoves(c, s, step);
        var n, n' := s.nodes[id], tr[i].nodes[id];
        MovesUp(n, n');
        C.StateMachineSafety(c, trust, tr, steps, i - 1, i, id, id, n.log.commitIndex);
        C.StateMachineSafety(c, trust, tr, steps, i, i, id, id, n'.log.commitIndex);
        PlainAt(tr[i], id);
        MoveKeepsCurrent(n, n');
      }
    }
  }

  lemma InitCurrent(c: Cluster, id: NodeId)
    requires id in Init(c).nodes
    ensures Current(Init(c).nodes[id])
  {
  }

  lemma StillThere(c: Cluster, s: System, step: Step, s': System, id: NodeId)
    requires Next(c, s, step, s') && id in s'.nodes
    ensures id in s.nodes
    ensures s'.nodes[id] != s.nodes[id] ==> !step.DropStep? && Actor(step) == id
    ensures s'.nodes[id] != s.nodes[id] ==> s'.nodes[id] == Outcome(c, s, step).node
  {
    hide Outcome;
  }

  lemma CurrentApplied(n: Node)
    requires Current(n)
    ensures n.applied == n.log.commitIndex
  {
  }

  lemma MovesUp(n: Node, n': Node)
    requires Moves(n, n')
    ensures n.log.commitIndex <= n'.log.commitIndex
  {
  }

  lemma PlainAt(s: System, id: NodeId)
    requires Plain(s) && id in s.nodes
    ensures s.nodes[id].log.snapshotIndex == 0
  {
  }

  /** Stores are states of one machine: whoever has applied less holds what the other held at that index. */
  lemma StoresAgree(c: Cluster, trust: P.Trust, tr: seq<System>, steps: seq<Step>, i: nat, j: nat, a: NodeId, b: NodeId)
    requires C.SoundRun(c, trust, tr, steps) && i < |tr| && j < |tr| && a in tr[i].nodes && b in tr[j].nodes
    requires tr[i].nodes[a].applied <= tr[j].nodes[b].applied
    ensures tr[i].nodes[a].applied <= |tr[j].nodes[b].log.entries|
    ensures tr[i].nodes[a].machine.data == Fold(tr[j].nodes[b].log.entries[..tr[i].nodes[a].applied])
    ensures tr[i].nodes[a].applied == tr[j].nodes[b].applied ==> tr[i].nodes[a].machine == tr[j].nodes[b].machine
  {
    hide Fold, C.SoundRun;
    MachineIsFold(c, trust, tr, steps, i, a);
    MachineIsFold(c, trust, tr, steps, j, b);
    C.StateMachineSafety(c, trust, tr, steps, i, j, a, b, tr[i].nodes[a].applied);
  }

  /** What a node serves of a key is the value of the last committed proposal of it, if that is not a delete. */
  lemma ServesLastCommitted(c: Cluster, trust: P.Trust, tr: seq<System>, steps: seq<Step>, i: nat, id: NodeId, k: nat)
    returns (h: nat)
    requires C.SoundRun(c, trust, tr, steps) && i < |tr| && id in tr[i].nodes
    requires tr[i].nodes[id].log.commitIndex <= |tr[i].nodes[id].log.entries|
    requires var n := tr[i].nodes[id];
      k < n.log.commitIndex && LastOf(n.log.entries[..n.log.commitIndex], n.log.entries[k].key, k)
    ensures h < i && V.ProposedAt(tr, steps, h, tr[i].nodes[id].log.entries[k])
    ensures var shown := Visible(tr[i].nodes[id].machine.data, steps[h].key);
      && (steps[h].op == OpDelete ==> shown.None?)
      && (steps[h].op == OpSet ==> shown.Some?)
      && (shown.Some? ==> shown.value.value == steps[h].value && shown.value.timestamp == steps[h].ts)
      && (shown.Some? ==> shown.value.nodeId == steps[h].id)
  {
    hide Fold;
    var n := tr[i].nodes[id];
    MachineIsFold(c, trust, tr, steps, i, id);
    h := V.Validity(c, tr, steps, i, id, k);
    FoldShows(n.log.entries[..n.log.commitIndex], n.log.entries[k].key);
    assert n.log.entries[..n.log.commitIndex][k] == n.log.entries[k];
  }

  /** A key nobody has a committed proposal of is not served. */
  lemma ServesNothingElse(c: Cluster, trust: P.Trust, tr: seq<System>, steps: seq<Step>, i: nat, id: NodeId,
      key: string)
    requires C.SoundRun(c, trust, tr, steps) && i < |tr| && id in tr[i].nodes
    requires forall k :: 0 <= k < tr[i].nodes[id].log.commitIndex && k < |tr[i].nodes[id].log.entries| ==>
      tr[i].nodes[id].log.entries[k].key != key
    ensures Visible(tr[i].nodes[id].machine.data, key).None?
  {
    hide Fold;
    MachineIsFold(c, trust, tr, steps, i, id);
    FoldShows(tr[i].nodes[id].log.entries[..tr[i].nodes[id].log.commitIndex], key);
  }

  // ---------------------------------------------------------------- compaction

  /** Compaction at the applied index, with the term the log has there. */
  lemma CompactionHonest(n: Node, full: seq<LogEntry>)
    requires L.Refines(n.log, full)
    ensures L.Refines(MaybeCompact(n).log, full)
    ensures MaybeCompact(n) == n.(log := MaybeCompact(n).log) && MaybeCompact(n).log.commitIndex == n.log.commitIndex
    ensures n.log.snapshotIndex <= n.applied < n.log.nextIndex && (forall e :: e in full ==> e.term > 0) ==>
      MaybeCompact(n).log.snapshotIndex ==
        if n.applied - n.log.snapshotIndex > COMPACT_THRESHOLD then n.applied else n.log.snapshotIndex
  {
    L.RefinedAnswers(n.log, full, n.applied, 0);
    if n.applied > n.log.snapshotIndex && L.TermAt(n.log, n.applied) != 0 {
      L.CompactRefines(n.log, full, n.applied, L.TermAt(n.log, n.applied));
      L.CompactBoundary(n.log, n.applied, L.TermAt(n.log, n.applied));
    }
  }

  /** A peer that needs entries compacted away. */
  predicate Lags(n: Node, peer: NodeId)
  {
    n.role == Leader && Lookup(n.nextIndex, peer) <= n.log.snapshotIndex
  }

  /**
   A peer that lags behind the boundary is sent the leader's store, and if it is behind the boundary,
   too, takes it over: its log ends at the boundary, and the leader goes on sending from there.
   */
  lemma SnapshotCatchesUp(x: NodeId, n: Node, peers: seq<NodeId>, v: NodeId, f: Node)
    requires Lags(n, v) && f.currentTerm <= n.currentTerm && f.log.snapshotIndex < n.log.snapshotIndex
    ensures |SendAppend(x, n, v)| == 1 && SendAppend(x, n, v)[0].InstallSnap? && SendAppend(x, n, v)[0].dst == v
    ensures var e := HandleInstallSnap(v, f, SendAppend(x, n, v)[0]);
      && e.node.machine.data == n.machine.data && e.node.applied >= n.log.snapshotIndex
      && L.LastIndexTerm(e.node.log) == (n.log.snapshotIndex, n.log.snapshotTerm)
      && e.node.currentTerm == n.currentTerm && e.node.role == Follower && e.node.raftLeader == x
      && |e.out| == 1 && e.out[0].AppendAck? && e.out[0].dst == x && e.out[0].success
      && Lookup(HandleAppendAck(peers, n, e.out[0]).node.nextIndex, v) == n.log.snapshotIndex + 1
      && Lookup(HandleAppendAck(peers, n, e.out[0]).node.matchIndex, v) == n.log.snapshotIndex
  {
    hide ApplyCommitted, ApplyEntries, CommitCandidate;
    L.SnapshotInstalled(f.log, n.log.snapshotIndex, n.log.snapshotTerm, 0);
  }

  /** A node that hears from a leader of its term or a later one follows it. */
  lemma FollowsSender(id: NodeId, n: Node, m: Message)
    requires m.AppendEntries? && m.term >= n.currentTerm
    ensures var n' := HandleAppendEntries(id, n, m).node;
      n'.role == Follower && n'.raftLeader == m.src && n'.currentTerm == m.term
  {
    hide ApplyCommitted, ApplyEntries, L.AppendAfter, L.Matches;
  }

  /** A leader whose term is over learns it from the answer, and steps down. */
  lemma StaleSteppedDown(id: NodeId, own: seq<NodeId>, n: Node, m: Message, peers: seq<NodeId>, leader: Node)
    requires FromLeader(m) && m.term < n.currentTerm && leader.currentTerm == m.term
    ensures Handle(id, own, n, m).node == n && |Handle(id, own, n, m).out| == 1
    ensures var ack := Handle(id, own, n, m).out[0];
      && ack.AppendAck? && ack.dst == m.src && ack.src == id && !ack.success
      && HandleAppendAck(peers, leader, ack).node.role == Follower
      && HandleAppendAck(peers, leader, ack).node.currentTerm == n.currentTerm
  {
  }

  // ---------------------------------------------------------------- whom a node names

  /** The node has been leader of the term. */
  ghost predicate HasLed(tr: seq<System>, id: NodeId, term: nat)
  {
    exists j :: 0 <= j < |tr| && LeadsAt(tr[j], id, term)
  }

  predicate LeadsAt(s: System, id: NodeId, term: nat)
  {
    id in s.nodes && s.nodes[id].role == Leader && s.nodes[id].currentTerm == term
  }

  predicate FromLeader(m: Message)
  {
    m.AppendEntries? || m.InstallSnap?
  }

  ghost predicate NamesLeader(tr: seq<System>, n: Node)
  {
    n.raftLeader == NOBODY || HasLed(tr, n.raftLeader, n.currentTerm)
  }

  ghost predicate Named(tr: seq<System>, s: System)
  {
    && (forall id :: id in s.nodes ==> NamesLeader(tr, s.nodes[id]))
    && (forall id :: id in s.nodes && s.nodes[id].role == Leader ==> s.nodes[id].raftLeader == id)
    && (forall m :: m in s.net && FromLeader(m) ==> HasLed(tr, m.src, m.term))
  }

  lemma LedLater(tr: seq<System>, s': System, id: NodeId, term: nat)
    requires HasLed(tr, id, term)
    ensures HasLed(tr + [s'], id, term)
  {
    var j :| 0 <= j < |tr| && LeadsAt(tr[j], id, term);
    assert LeadsAt((tr + [s'])[j], id, term);
  }

  lemma NamedLater(tr: seq<System>, s: System, s': System)
    requires Named(tr, s)
    ensures Named(tr + [s'], s)
  {
    hide HasLed;
    forall id | id in s.nodes
      ensures NamesLeader(tr + [s'], s.nodes[id])
    {
      if s.nodes[id].raftLeader != NOBODY {
        LedLater(tr, s', s.nodes[id].raftLeader, s.nodes[id].currentTerm);
      }
    }
    forall m | m in s.net && FromLeader(m)
      ensures HasLed(tr + [s'], m.src, m.term)
    {
      LedLater(tr, s', m.src, m.term);
    }
  }

  /** A node goes on naming the leader of its term, or names nobody, the sender of a leader's message, or itself. */
  ghost predicate Renames(id: NodeId, n: Node, e: Effect, incoming: set<(NodeId, nat)>)
  {
    && (|| e.node.raftLeader == NOBODY
        || (e.node.raftLeader == n.raftLeader && e.node.currentTerm == n.currentTerm)
        || (e.node.raftLeader, e.node.currentTerm) in incoming
        || (e.node.raftLeader == id && e.node.role == Leader))
    && (e.node.role == Leader ==> e.node.raftLeader == id || (n.role == Leader && e.node.raftLeader == n.raftLeader))
    && (forall m :: m in e.out && FromLeader(m) ==>
        m.src == id && e.node.role == Leader && m.term == e.node.currentTerm)
  }

  function Incoming(step: Step): set<(NodeId, nat)>
  {
    if step.DeliverStep? && FromLeader(step.m) then {(step.m.src, step.m.term)} else {}
  }

  lemma StepRenames(c: Cluster, s: System, step: Step)
    requires Enabled(c, s, step) && !step.DropStep?
    ensures Renames(Actor(step), s.nodes[Actor(step)], Outcome(c, s, step), Incoming(step))
  {
    hide ApplyCommitted, ApplyEntries, L.AppendAfter, L.Compact, L.InstallSnapshot, CommitCandidate, SetAll, L.Matches;
  }

  lemma StepKeepsNamed(c: Cluster, tr: seq<System>, s: System, step: Step)
    requires Enabled(c, s, step) && Named(tr, s)
    ensures Named(tr + [Take(c, s, step)], Take(c, s, step))
  {
    hide Outcome, HasLed;
    var s' := Take(c, s, step);
    NamedLater(tr, s, s');
    if !step.DropStep? {
      var id, e := Actor(step), Outcome(c, s, step);
      StepRenames(c, s, step);
      if e.node.role == Leader {
        LeadsNow(tr, s', id);
      }
    }
  }

  lemma LeadsNow(tr: seq<System>, s': System, id: NodeId)
    requires id in s'.nodes && s'.nodes[id].role == Leader
    ensures HasLed(tr + [s'], id, s'.nodes[id].currentTerm)
  {
    assert LeadsAt((tr + [s'])[|tr|], id, s'.nodes[id].currentTerm);
  }

  lemma {:induction false} RunNamed(c: Cluster, tr: seq<System>, steps: seq<Step>)
    requires IsRun(c, tr, steps)
    ensures Named(tr, tr[|steps|])
    decreases |steps|
  {
    hide Named, Take, Enabled;
    RunLast(c, tr, steps);
    if steps == [] {
      InitNamed(c, tr);
    } else {
      var k := |steps|;
      RunNamed(c, tr[..k], steps[..k - 1]);
      StepKeepsNamed(c, tr[..k], tr[k - 1], steps[k - 1]);
      assert tr == tr[..k] + [tr[k]];
    }
  }

  lemma InitNamed(c: Cluster, tr: seq<System>)
    requires tr == [Init(c)]
    ensures Named(tr, tr[0])
  {
  }

  /** In every run, a leader names itself ... */
  lemma LeaderNamesItself(c: Cluster, tr: seq<System>, steps: seq<Step>, i: nat, id: NodeId)
    requires IsRun(c, tr, steps) && i < |tr| && id in tr[i].nodes && tr[i].nodes[id].role == Leader
    ensures tr[i].nodes[id].raftLeader == id
  {
    hide Next;
    V.RunPrefix(c, tr, steps, i);
    RunNamed(c, tr[..i + 1], steps[..i]);
  }

  /** ... and the leader a node sends clients to has led the node's term. */
  lemma NamesALeader(c: Cluster, tr: seq<System>, steps: seq<Step>, i: nat, id: NodeId)
    requires IsRun(c, tr, steps) && i < |tr| && id in tr[i].nodes && tr[i].nodes[id].raftLeader != NOBODY
    ensures exists j :: 0 <= j <= i && LeadsAt(tr[j], tr[i].nodes[id].raftLeader, tr[i].nodes[id].currentTerm)
  {
    hide Next;
    V.RunPrefix(c, tr, steps, i);
    RunNamed(c, tr[..i + 1], steps[..i]);
    assert NamesLeader(tr[..i + 1], tr[i].nodes[id]);
    var j :| 0 <= j < |tr[..i + 1]| && LeadsAt(tr[..i + 1][j], tr[i].nodes[id].raftLeader, tr[i].nodes[id].currentTerm);
    assert LeadsAt(tr[j], tr[i].nodes[id].raftLeader, tr[i].nodes[id].currentTerm);
  }
}
