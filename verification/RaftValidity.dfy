/**
 What Raft logs are made of (internal/node/raft.go): in every run, compaction and snapshots included, an
 entry of any log is what a client proposed to a leader of the entry's term, and a proposal is logged
 at one index only.
 */
module RaftValidity {
  import opened Storage
  import opened RaftModel
  import L = LogModel

  /** Step i hands the entry's content to a leader of its term, whose log goes on at its index. */
  ghost predicate ProposedAt(tr: seq<System>, steps: seq<Step>, i: nat, e: LogEntry)
  {
    && i < |steps| && i < |tr| && steps[i].ProposeStep? && steps[i].id in tr[i].nodes
    && var leader := tr[i].nodes[steps[i].id];
    && leader.role == Leader && e.term == leader.currentTerm && e.index == leader.log.nextIndex
    && e.key == steps[i].key && e.value == steps[i].value && e.op == steps[i].op && e.timestamp == steps[i].ts
    && e.originId == steps[i].id && e.vclock == map[]
  }

  ghost predicate Proposed(tr: seq<System>, steps: seq<Step>, e: LogEntry)
  {
    exists i: nat :: ProposedAt(tr, steps, i, e)
  }

  ghost predicate AllProposed(tr: seq<System>, steps: seq<Step>, es: seq<LogEntry>)
  {
    forall e :: e in es ==> Proposed(tr, steps, e)
  }

  /** All logs, and the entries of all messages. */
  ghost predicate Inv(tr: seq<System>, steps: seq<Step>, s: System)
  {
    && (forall id :: id in s.nodes ==> AllProposed(tr, steps, s.nodes[id].log.entries))
    && (forall m :: m in s.net && m.AppendEntries? ==> AllProposed(tr, steps, m.entries))
  }

  // ---------------------------------------------------------------- what handlers do to entries

  ghost predicate Within(es: seq<LogEntry>, a: seq<LogEntry>, b: seq<LogEntry>)
  {
    forall e :: e in es ==> e in a || e in b
  }

  lemma ReceiveWithin(l: GoodLog, e: LogEntry)
    ensures Within(L.Receive(l, e).entries, l.entries, [e])
  {
  }

  lemma {:induction false} AppendAfterWithin(l: GoodLog, es: seq<LogEntry>)
    ensures Within(L.AppendAfter(l, es).entries, l.entries, es)
  {
    hide L.Receive;
    if es != [] {
      var init, e := es[..|es| - 1], es[|es| - 1];
      AppendAfterWithin(l, init);
      ReceiveWithin(L.AppendAfter(l, init), e);
      assert es == init + [e];
    }
  }

  /** What a step may put into logs and messages: what was there, and what the actor receives. */
  ghost predicate Brings(n: Node, es: seq<LogEntry>, e: Effect)
  {
    && Within(e.node.log.entries, n.log.entries, es)
    && forall m :: m in e.out && m.AppendEntries? ==> Within(m.entries, n.log.entries, es)
  }

  lemma AppendBrings(id: NodeId, n: Node, m: Message)
    requires m.AppendEntries?
    ensures Brings(n, m.entries, HandleAppendEntries(id, n, m))
  {
    hide L.AppendAfter, ApplyCommitted, ApplyEntries, L.Matches;
    AppendAfterWithin(n.log, m.entries);
  }

  lemma SnapBrings(id: NodeId, n: Node, m: Message)
    requires m.InstallSnap?
    ensures Brings(n, [], HandleInstallSnap(id, n, m))
  {
  }

  lemma AckBrings(peers: seq<NodeId>, n: Node, m: Message)
    requires m.AppendAck?
    ensures Brings(n, [], HandleAppendAck(peers, n, m))
  {
    hide ApplyCommitted, ApplyEntries, CommitCandidate;
  }

  lemma HandleBrings(id: NodeId, peers: seq<NodeId>, n: Node, m: Message)
    ensures Brings(n, if m.AppendEntries? then m.entries else [], Handle(id, peers, n, m))
  {
    hide HandleAppendEntries, HandleInstallSnap, HandleAppendAck, SetAll;
    match m
    case VoteRequest(_, _, _, _, _) =>
    case VoteResponse(_, _, _, _) =>
    case AppendEntries(_, _, _, _, _, _, _) => AppendBrings(id, n, m);
    case AppendAck(_, _, _, _, _) => AckBrings(peers, n, m);
    case InstallSnap(_, _, _, _, _, _) => SnapBrings(id, n, m);
  }

  lemma SendBrings(id: NodeId, n: Node, peer: NodeId)
    ensures Brings(n, [], Effect(n, SendAppend(id, n, peer)))
  {
  }

  lemma CompactBrings(n: Node)
    ensures Brings(n, [], Effect(MaybeCompact(n), []))
  {
  }

  lemma ElectBrings(id: NodeId, peers: seq<NodeId>, n: Node)
    ensures Brings(n, [], Elect(id, peers, n))
  {
  }

  /** What the step's actor receives from outside its own log. */
  function Incoming(step: Step): seq<LogEntry>
  {
    if step.DeliverStep? && step.m.AppendEntries? then step.m.entries else []
  }

  lemma StepBrings(c: Cluster, s: System, step: Step)
    requires Enabled(c, s, step) && !step.DropStep? && !step.ProposeStep?
    ensures Brings(s.nodes[Actor(step)], Incoming(step), Outcome(c, s, step))
  {
    hide Brings, Elect, Handle, SendAppend, MaybeCompact;
    match step
    case ElectStep(id) => ElectBrings(id, c.peers[id], s.nodes[id]);
    case SendAppendStep(id, peer) => SendBrings(id, s.nodes[id], peer);
    case CompactStep(id) => CompactBrings(s.nodes[id]);
    case DeliverStep(m) => HandleBrings(m.dst, c.peers[m.dst], s.nodes[m.dst], m);
  }

  // ---------------------------------------------------------------- runs

  lemma ProposedLater(tr: seq<System>, steps: seq<Step>, step: Step, s': System, es: seq<LogEntry>)
    requires AllProposed(tr, steps, es) && |tr| == |steps| + 1
    ensures AllProposed(tr + [s'], steps + [step], es)
  {
    forall e | e in es
      ensures Proposed(tr + [s'], steps + [step], e)
    {
      var i: nat :| ProposedAt(tr, steps, i, e);
      assert ProposedAt(tr + [s'], steps + [step], i, e);
    }
  }

  lemma InvLater(tr: seq<System>, steps: seq<Step>, step: Step, s: System, s': System)
    requires Inv(tr, steps, s) && |tr| == |steps| + 1
    ensures Inv(tr + [s'], steps + [step], s)
  {
    hide AllProposed;
    forall id | id in s.nodes
      ensures AllProposed(tr + [s'], steps + [step], s.nodes[id].log.entries)
    {
      ProposedLater(tr, steps, step, s', s.nodes[id].log.entries);
    }
    forall m | m in s.net && m.AppendEntries?
      ensures AllProposed(tr + [s'], steps + [step], m.entries)
    {
      ProposedLater(tr, steps, step, s', m.entries);
    }
  }

  lemma WithinProposed(tr: seq<System>, steps: seq<Step>, es: seq<LogEntry>, a: seq<LogEntry>, b: seq<LogEntry>)
    requires Within(es, a, b) && AllProposed(tr, steps, a) && AllProposed(tr, steps, b)
    ensures AllProposed(tr, steps, es)
  {
    hide Proposed;
  }

  /** A step that brings nothing new keeps every log and message made of proposals. */
  lemma PutKeepsInv(tr: seq<System>, steps: seq<Step>, s: System, id: NodeId, es: seq<LogEntry>, e: Effect,
                    net: multiset<Message>)
    requires Inv(tr, steps, s) && id in s.nodes && Brings(s.nodes[id], es, e) && AllProposed(tr, steps, es)
    requires net <= s.net
    ensures Inv(tr, steps, Put(s, id, e, net))
  {
    hide AllProposed, Within;
    var own := s.nodes[id].log.entries;
    WithinProposed(tr, steps, e.node.log.entries, own, es);
    forall m | m in e.out && m.AppendEntries?
      ensures AllProposed(tr, steps, m.entries)
    {
      WithinProposed(tr, steps, m.entries, own, es);
    }
  }

  /** A leader's proposal is the new end of its log; nobody else's changes anything. */
  lemma ProposalLogged(id: NodeId, n: Node, key: string, value: Value, op: OpType, ts: int)
    ensures var es, es' := n.log.entries, Propose(id, n, key, value, op, ts).log.entries;
      if n.role != Leader then Propose(id, n, key, value, op, ts) == n
      else
        && |es'| == |es| + 1 && es'[..|es|] == es
        && var e := es'[|es|];
        && e.index == n.log.nextIndex && e.term == n.currentTerm && e.originId == id && e.vclock == map[]
        && e.key == key && e.value == value && e.op == op && e.timestamp == ts
        && Lookup(Propose(id, n, key, value, op, ts).matchIndex, id) == e.index
  {
  }

  lemma ProposeKeepsInv(tr: seq<System>, steps: seq<Step>, s: System, step: Step)
    requires |tr| == |steps| + 1 && tr[|steps|] == s && step.ProposeStep? && step.id in s.nodes
    requires Inv(tr, steps, s)
    ensures var n' := Propose(step.id, s.nodes[step.id], step.key, step.value, step.op, step.ts);
      var s' := Put(s, step.id, Effect(n', []), s.net); Inv(tr + [s'], steps + [step], s')
  {
    hide Inv, Propose;
    var n := s.nodes[step.id];
    var n' := Propose(step.id, n, step.key, step.value, step.op, step.ts);
    var s' := Put(s, step.id, Effect(n', []), s.net);
    var tr', steps' := tr + [s'], steps + [step];
    InvLater(tr, steps, step, s, s');
    ProposalLogged(step.id, n, step.key, step.value, step.op, step.ts);
    var new_ := if n.role == Leader then [n'.log.entries[|n.log.entries|]] else [];
    if n.role == Leader {
      assert ProposedAt(tr', steps', |steps|, new_[0]);
      assert n'.log.entries == n'.log.entries[..|n.log.entries|] + new_;
    }
    assert Brings(n, new_, Effect(n', []));
    PutKeepsInv(tr', steps', s, step.id, new_, Effect(n', []), s.net);
  }

  lemma StepKeepsInv(c: Cluster, tr: seq<System>, steps: seq<Step>, step: Step)
    requires |tr| == |steps| + 1 && Enabled(c, tr[|steps|], step) && Inv(tr, steps, tr[|steps|])
    ensures var s' := Take(c, tr[|steps|], step); Inv(tr + [s'], steps + [step], s')
  {
    hide Inv, Outcome;
    var s := tr[|steps|];
    var s' := Take(c, s, step);
    InvLater(tr, steps, step, s, s');
    if step.DropStep? {
      DropKeepsInv(tr + [s'], steps + [step], s, Consumed(s.net, step));
    } else if step.ProposeStep? {
      ProposeKeepsInv(tr, steps, s, step);
      ProposeIs(c, s, step);
    } else {
      StepBrings(c, s, step);
      IncomingProposed(tr + [s'], steps + [step], s, step);
      PutKeepsInv(tr + [s'], steps + [step], s, Actor(step), Incoming(step), Outcome(c, s, step),
                  Consumed(s.net, step));
    }
  }

  lemma ProposeIs(c: Cluster, s: System, step: Step)
    requires Enabled(c, s, step) && step.ProposeStep?
    ensures Outcome(c, s, step) ==
      Effect(Propose(step.id, s.nodes[step.id], step.key, step.value, step.op, step.ts), [])
  {
  }

  lemma IncomingProposed(tr: seq<System>, steps: seq<Step>, s: System, step: Step)
    requires Inv(tr, steps, s) && (step.DeliverStep? ==> step.m in s.net)
    ensures AllProposed(tr, steps, Incoming(step))
  {
  }

  lemma DropKeepsInv(tr: seq<System>, steps: seq<Step>, s: System, net: multiset<Message>)
    requires Inv(tr, steps, s) && net <= s.net
    ensures Inv(tr, steps, s.(net := net))
  {
  }

  lemma {:induction false} RunInv(c: Cluster, tr: seq<System>, steps: seq<Step>)
    requires IsRun(c, tr, steps)
    ensures Inv(tr, steps, tr[|steps|])
    decreases |steps|
  {
    hide Inv, Next;
    RunLast(c, tr, steps);
    if steps == [] {
      assert Inv(tr, steps, tr[0]) by { InitInv(c, tr); }
    } else {
      var k := |steps|;
      RunInv(c, tr[..k], steps[..k - 1]);
      Follows(c, tr[k - 1], steps[k - 1], tr[k]);
      StepKeepsInv(c, tr[..k], steps[..k - 1], steps[k - 1]);
      assert tr == tr[..k] + [tr[k]] && steps == steps[..k - 1] + [steps[k - 1]];
    }
  }

  lemma Follows(c: Cluster, s: System, step: Step, s': System)
    requires Next(c, s, step, s')
    ensures Enabled(c, s, step) && s' == Take(c, s, step)
  {
  }

  lemma InitInv(c: Cluster, tr: seq<System>)
    requires tr == [Init(c)]
    ensures Inv(tr, [], tr[0])
  {
  }

  lemma RunPrefix(c: Cluster, tr: seq<System>, steps: seq<Step>, j: nat)
    requires IsRun(c, tr, steps) && j <= |steps|
    ensures IsRun(c, tr[..j + 1], steps[..j])
  {
    hide Next;
  }

  /** Validity: every entry of any node's log, at any time, was proposed before, to a leader of its term. */
  lemma Validity(c: Cluster, tr: seq<System>, steps: seq<Step>, j: nat, id: NodeId, k: nat) returns (i: nat)
    requires IsRun(c, tr, steps) && j < |tr| && id in tr[j].nodes && k < |tr[j].nodes[id].log.entries|
    ensures i < j && ProposedAt(tr, steps, i, tr[j].nodes[id].log.entries[k])
  {
    hide Next, ProposedAt;
    RunPrefix(c, tr, steps, j);
    RunInv(c, tr[..j + 1], steps[..j]);
    var e := tr[j].nodes[id].log.entries[k];
    assert Proposed(tr[..j + 1], steps[..j], e);
    i :| ProposedAt(tr[..j + 1], steps[..j], i, e);
    ProposedBefore(tr, steps, i, j, e);
  }

  lemma ProposedBefore(tr: seq<System>, steps: seq<Step>, i: nat, j: nat, e: LogEntry)
    requires j <= |steps| && j < |tr| && ProposedAt(tr[..j + 1], steps[..j], i, e)
    ensures i < j && ProposedAt(tr, steps, i, e)
  {
  }

  /** No proposal is in a log twice: entries at two indexes come from two steps. */
  lemma ProposedOnce(c: Cluster, tr: seq<System>, steps: seq<Step>, j: nat, id: NodeId, k: nat, k': nat)
    returns (i: nat, i': nat)
    requires IsRun(c, tr, steps) && j < |tr| && id in tr[j].nodes && k < k' < |tr[j].nodes[id].log.entries|
    ensures ProposedAt(tr, steps, i, tr[j].nodes[id].log.entries[k]) && i < j
    ensures ProposedAt(tr, steps, i', tr[j].nodes[id].log.entries[k']) && i' < j
    ensures i != i' && forall h: nat :: ProposedAt(tr, steps, h, tr[j].nodes[id].log.entries[k]) ==>
      !ProposedAt(tr, steps, h, tr[j].nodes[id].log.entries[k'])
  {
    i := Validity(c, tr, steps, j, id, k);
    i' := Validity(c, tr, steps, j, id, k');
    assert tr[j].nodes[id].log.entries[k].index != tr[j].nodes[id].log.entries[k'].index;
  }
}
