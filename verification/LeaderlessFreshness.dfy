/** Quorum freshness: what a read that starts after a write met its quorum may return. */
module LeaderlessFreshness {
  import opened Storage
  import opened Lww
  import opened Quorums
  import opened LeaderlessModel

  type Nodes = map<NodeId, Node>

  // ---------------------------------------------------------------- replicas only move forward

  /** The store holds this version of the key, or a newer one. */
  predicate AtLeast(store: Versions, key: string, e: Entry)
  {
    key in store && AtMost(e, store[key])
  }

  ghost predicate Grows(store: Versions, store': Versions)
  {
    forall key :: key in store ==> AtLeast(store', key, store[key])
  }

  lemma ApplyGrows(store: Versions, key: string, e: Entry)
    ensures Grows(store, ApplyWrite(store, key, e)) && AtLeast(ApplyWrite(store, key, e), key, e)
  {
    if key in store {
      StampsOrdered(store[key], e);
    }
  }

  lemma GrowsKeeps(store: Versions, store': Versions, key: string, e: Entry)
    requires Grows(store, store') && AtLeast(store, key, e)
    ensures AtLeast(store', key, e)
  {
    AtMostTransitive(e, store[key], store'[key]);
  }

  /** A pending write keeps its number, key and entry until it ends. */
  ghost predicate WritesKept(n: Node, n': Node)
  {
    forall q :: q in n'.writes && q <= n.seqNo ==>
      q in n.writes && n.writes[q].key == n'.writes[q].key && n.writes[q].entry == n'.writes[q].entry
  }

  ghost predicate Evolves(n: Node, n': Node)
  {
    Grows(n.store, n'.store) && n.seqNo <= n'.seqNo && WritesKept(n, n')
  }

  lemma OutcomeEvolves(cfg: QuorumConfig, n: Node, step: Step)
    requires !step.DropStep?
    ensures Evolves(n, Outcome(cfg, n, step).node)
  {
    hide AtLeast, Wins, ApplyWrite, Winner, Stale, WriteMsgs, ReadMsgs, RepairMsgs, HandoffMsgs, HintsFor, Find;
    SelfGrows(n.store);
    match step
    case WriteStep(_, key, e, _) => ApplyGrows(n.store, key, e);
    case EndReadStep(_, q, _) =>
      if q in n.queries && Winner(n.queries[q]).Some? {
        ApplyGrows(n.store, n.queries[q].key, Winner(n.queries[q]).value);
      }
    case DeliverStep(m) =>
      if m.WriteMsg? || m.HandoffMsg? || m.RepairMsg? {
        ApplyGrows(n.store, m.key, m.entry);
      }
    case _ =>
  }

  lemma SelfGrows(store: Versions)
    ensures Grows(store, store)
  {
  }

  ghost predicate AllEvolve(nodes: Nodes, nodes': Nodes)
  {
    nodes.Keys == nodes'.Keys && forall id :: id in nodes ==> Evolves(nodes[id], nodes'[id])
  }

  lemma StepEvolves(members: set<NodeId>, cfg: QuorumConfig, s: System, step: Step, s': System)
    requires Next(members, cfg, s, step, s')
    ensures AllEvolve(s.nodes, s'.nodes) && s'.nodes.Keys == members
  {
    hide Outcome, Consumed, Others, Sample;
    forall id | id in s.nodes
      ensures Evolves(s.nodes[id], s.nodes[id])
    {
      SelfGrows(s.nodes[id].store);
    }
    if !step.DropStep? {
      OutcomeEvolves(cfg, s.nodes[Actor(step)], step);
    }
  }

  // ---------------------------------------------------------------- acknowledged means stored

  /** A message that offers a write carries the pending write of its number. */
  ghost predicate OfferOk(nodes: Nodes, m: Message)
    requires m.WriteMsg?
  {
    && m.src in nodes && 1 <= m.seqNo <= nodes[m.src].seqNo
    && (m.seqNo in nodes[m.src].writes ==> Carries(m, nodes[m.src].writes[m.seqNo]))
  }

  predicate Carries(m: Message, p: PendingWrite)
    requires m.WriteMsg?
  {
    p.key == m.key && p.entry == m.entry
  }

  /** An acknowledgement comes from a replica that stores the write of its number. */
  ghost predicate AckOk(nodes: Nodes, src: NodeId, n: Node, q: nat)
  {
    q <= n.seqNo && (q in n.writes ==> Holds(nodes, src, n.writes[q]))
  }

  ghost predicate WriteMsgOk(nodes: Nodes, m: Message)
  {
    && (m.WriteMsg? ==> OfferOk(nodes, m))
    && (m.WriteAck? && m.dst in nodes ==> m.src in nodes && AckOk(nodes, m.src, nodes[m.dst], m.seqNo))
  }

  ghost predicate Holds(nodes: Nodes, id: NodeId, p: PendingWrite)
  {
    id in nodes && AtLeast(nodes[id].store, p.key, p.entry)
  }

  /** Whoever is counted towards a write's quorum stores it, or something newer. */
  ghost predicate PendingOk(nodes: Nodes, id: NodeId, p: PendingWrite)
  {
    && (!p.repair ==> Holds(nodes, id, p))
    && (forall a :: a in p.acked ==> Holds(nodes, a, p))
  }

  ghost predicate WritesOk(nodes: Nodes, id: NodeId, n: Node)
  {
    forall q :: q in n.writes ==> 1 <= q <= n.seqNo && PendingOk(nodes, id, n.writes[q])
  }

  ghost predicate WriteInv(nodes: Nodes, net: multiset<Message>)
  {
    && (forall m :: m in net ==> WriteMsgOk(nodes, m))
    && (forall id :: id in nodes ==> WritesOk(nodes, id, nodes[id]))
  }

  lemma HoldsKept(nodes: Nodes, nodes': Nodes, id: NodeId, p: PendingWrite)
    requires AllEvolve(nodes, nodes') && Holds(nodes, id, p)
    ensures Holds(nodes', id, p)
  {
    GrowsKeeps(nodes[id].store, nodes'[id].store, p.key, p.entry);
  }

  lemma WriteMsgKept(nodes: Nodes, nodes': Nodes, m: Message)
    requires AllEvolve(nodes, nodes') && WriteMsgOk(nodes, m)
    ensures WriteMsgOk(nodes', m)
  {
    hide Grows, AtLeast;
    if m.WriteMsg? {
      assert Evolves(nodes[m.src], nodes'[m.src]);
    }
    if m.WriteAck? && m.dst in nodes {
      assert Evolves(nodes[m.dst], nodes'[m.dst]);
      if m.seqNo in nodes'[m.dst].writes {
        HoldsKept(nodes, nodes', m.src, nodes[m.dst].writes[m.seqNo]);
      }
    }
  }

  lemma PendingKept(nodes: Nodes, nodes': Nodes, id: NodeId, p: PendingWrite)
    requires AllEvolve(nodes, nodes') && PendingOk(nodes, id, p)
    ensures PendingOk(nodes', id, p)
  {
    hide Holds, AllEvolve;
    if !p.repair {
      HoldsKept(nodes, nodes', id, p);
    }
    forall a | a in p.acked
      ensures Holds(nodes', a, p)
    {
      HoldsKept(nodes, nodes', a, p);
    }
  }

  lemma {:induction false} WriteMsgsShape(id: NodeId, q: nat, key: string, e: Entry, targets: seq<NodeId>, m: Message)
    requires m in WriteMsgs(id, q, key, e, targets)
    ensures m.WriteMsg? && m.src == id && m.seqNo == q && m.key == key && m.entry == e
  {
    if m in WriteMsgs(id, q, key, e, targets[..|targets| - 1]) {
      WriteMsgsShape(id, q, key, e, targets[..|targets| - 1], m);
    }
  }

  lemma {:induction false} ReadMsgsShape(id: NodeId, q: nat, key: string, targets: seq<NodeId>, m: Message)
    requires m in ReadMsgs(id, q, key, targets)
    ensures m.ReadMsg? && m.src == id && m.seqNo == q && m.key == key && m.dst in targets
  {
    if m in ReadMsgs(id, q, key, targets[..|targets| - 1]) {
      ReadMsgsShape(id, q, key, targets[..|targets| - 1], m);
    }
  }

  lemma {:induction false} RepairMsgsShape(id: NodeId, key: string, e: Entry, targets: seq<NodeId>, m: Message)
    requires m in RepairMsgs(id, key, e, targets)
    ensures m.RepairMsg?
  {
    if m in RepairMsgs(id, key, e, targets[..|targets| - 1]) {
      RepairMsgsShape(id, key, e, targets[..|targets| - 1], m);
    }
  }

  lemma {:induction false} HandoffMsgsShape(id: NodeId, hints: seq<Hint>, m: Message)
    requires m in HandoffMsgs(id, hints)
    ensures m.HandoffMsg?
  {
    if m in HandoffMsgs(id, hints[..|hints| - 1]) {
      HandoffMsgsShape(id, hints[..|hints| - 1], m);
    }
  }

  predicate Opens(n: Node, m: Message)
    requires m.WriteMsg?
  {
    m.seqNo == n.seqNo && m.seqNo in n.writes && Carries(m, n.writes[m.seqNo])
  }

  predicate Acknowledges(ack: Message, m: Message)
    requires ack.WriteAck?
  {
    && ack.src == m.dst && ack.dst == m.src
    && ((m.WriteMsg? && ack.seqNo == m.seqNo) || (m.HandoffMsg? && ack.seqNo == 0))
  }

  predicate Answers(resp: Message, m: Message, store: Versions)
    requires resp.ReadResp?
  {
    m.ReadMsg? && resp == ReadResp(m.dst, m.src, m.seqNo, Find(store, m.key))
  }

  /** What a step sends. */
  lemma OutShape(cfg: QuorumConfig, n: Node, step: Step, m: Message)
    requires !step.DropStep? && m in Outcome(cfg, n, step).out
    ensures m.WriteMsg? ==> m.src == Actor(step) && m.seqNo == n.seqNo + 1 && Opens(Outcome(cfg, n, step).node, m)
    ensures m.WriteAck? ==> step.DeliverStep? && Acknowledges(m, step.m)
    ensures m.ReadMsg? ==>
      step.ReadStep? && m.src == step.id && m.seqNo == n.seqNo + 1 && m.key == step.key && m.dst in step.targets
    ensures m.ReadResp? ==> step.DeliverStep? && Answers(m, step.m, n.store)
  {
    match step
    case WriteStep(id, key, e, targets) => WriteMsgsShape(id, n.seqNo + 1, key, e, targets, m);
    case EndWriteStep(_, _, _) =>
    case HandoffStep(id) => HandoffMsgsShape(id, n.hints, m);
    case ReadStep(id, key, targets) => ReadMsgsShape(id, n.seqNo + 1, key, targets, m);
    case EndReadStep(id, q, sync) =>
      var p := n.queries[q];
      var best := Winner(p).value;
      if sync {
        WriteMsgsShape(id, n.seqNo + 1, p.key, best, Stale(best, p.resps), m);
      } else {
        RepairMsgsShape(id, p.key, best, Stale(best, p.resps), m);
      }
    case DeliverStep(_) =>
  }

  /** How a step changes the writes of its node. */
  lemma OutcomeWrites(cfg: QuorumConfig, n: Node, step: Step, q: nat)
    requires !step.DropStep? && q in Outcome(cfg, n, step).node.writes
    ensures var n' := Outcome(cfg, n, step).node; var p := n'.writes[q];
      || (q in n.writes && n.writes[q] == p)
      || (q in n.writes && step.DeliverStep? && step.m.WriteAck? && step.m.seqNo == q
        && p == n.writes[q].(acked := n.writes[q].acked + {step.m.src}))
      || (q == n.seqNo + 1 == n'.seqNo && p.acked == {} && (p.repair || AtLeast(n'.store, p.key, p.entry)))
  {
    hide AtLeast, Wins, ApplyWrite, Winner, Stale, WriteMsgs, ReadMsgs, RepairMsgs, HandoffMsgs, HintsFor, Find;
    if step.WriteStep? {
      ApplyGrows(n.store, step.key, step.entry);
    }
  }

  ghost predicate Moved(cfg: QuorumConfig, s: System, step: Step, s': System)
  {
    && !step.DropStep? && Actor(step) in s.nodes
    && s'.nodes == s.nodes[Actor(step) := Outcome(cfg, s.nodes[Actor(step)], step).node]
    && s'.net == Consumed(s.net, step) + multiset(Outcome(cfg, s.nodes[Actor(step)], step).out)
    && (step.DeliverStep? ==> step.m in s.net)
  }

  lemma ActorWritesOk(cfg: QuorumConfig, s: System, step: Step, s': System)
    requires Moved(cfg, s, step, s') && AllEvolve(s.nodes, s'.nodes) && WriteInv(s.nodes, s.net)
    ensures WritesOk(s'.nodes, Actor(step), s'.nodes[Actor(step)])
  {
    hide Outcome, AllEvolve, Consumed, PendingOk, Holds;
    var id := Actor(step);
    var n, n' := s.nodes[id], s'.nodes[id];
    forall q | q in n'.writes
      ensures 1 <= q <= n'.seqNo && PendingOk(s'.nodes, id, n'.writes[q])
    {
      OutcomeWrites(cfg, n, step, q);
      EvolvesNumber(s.nodes, s'.nodes, id);
      if q in n.writes {
        PendingKept(s.nodes, s'.nodes, id, n.writes[q]);
        if n'.writes[q] != n.writes[q] {
          assert WriteMsgOk(s.nodes, step.m);
          AckCounts(s.nodes, s'.nodes, id, n.writes[q], step.m.src);
        }
      } else {
        NewPending(s'.nodes, id, n'.writes[q]);
      }
    }
  }

  lemma EvolvesNumber(nodes: Nodes, nodes': Nodes, id: NodeId)
    requires AllEvolve(nodes, nodes') && id in nodes
    ensures nodes[id].seqNo <= nodes'[id].seqNo
  {
  }

  lemma NewPending(nodes: Nodes, id: NodeId, p: PendingWrite)
    requires id in nodes && p.acked == {} && (p.repair || AtLeast(nodes[id].store, p.key, p.entry))
    ensures PendingOk(nodes, id, p)
  {
  }

  lemma AckCounts(nodes: Nodes, nodes': Nodes, id: NodeId, p: PendingWrite, a: NodeId)
    requires AllEvolve(nodes, nodes') && PendingOk(nodes', id, p) && Holds(nodes, a, p)
    ensures PendingOk(nodes', id, p.(acked := p.acked + {a}))
  {
    HoldsKept(nodes, nodes', a, p);
    assert forall b :: b in p.acked ==> Holds(nodes', b, p);
  }

  lemma OutWriteOk(cfg: QuorumConfig, s: System, step: Step, s': System, m: Message)
    requires Moved(cfg, s, step, s') && AllEvolve(s.nodes, s'.nodes) && WriteInv(s.nodes, s.net)
    requires m in Outcome(cfg, s.nodes[Actor(step)], step).out
    requires forall id :: id in s'.nodes ==> WritesOk(s'.nodes, id, s'.nodes[id])
    ensures WriteMsgOk(s'.nodes, m)
  {
    OutShape(cfg, s.nodes[Actor(step)], step, m);
    if m.WriteAck? {
      assert WriteMsgOk(s.nodes, step.m);
      AckIsOk(s.nodes, s'.nodes, step.m, m);
    }
  }

  lemma AckIsOk(nodes: Nodes, nodes': Nodes, m: Message, ack: Message)
    requires ack.WriteAck? && Acknowledges(ack, m) && m.dst in nodes
    requires AllEvolve(nodes, nodes') && WriteMsgOk(nodes, m)
    requires nodes'[m.dst].store == ApplyWrite(nodes[m.dst].store, m.key, m.entry)
    requires forall id :: id in nodes' ==> WritesOk(nodes', id, nodes'[id])
    ensures WriteMsgOk(nodes', ack)
  {
    if ack.dst in nodes' && m.WriteMsg? {
      WriteMsgKept(nodes, nodes', m);
      ApplyGrows(nodes[m.dst].store, m.key, m.entry);
    } else if ack.dst in nodes' {
      assert WritesOk(nodes', ack.dst, nodes'[ack.dst]);
    }
  }

  lemma StepKeepsWriteInv(members: set<NodeId>, cfg: QuorumConfig, s: System, step: Step, s': System)
    requires Next(members, cfg, s, step, s') && WriteInv(s.nodes, s.net)
    ensures WriteInv(s'.nodes, s'.net)
  {
    hide Outcome, WriteMsgOk, PendingOk, AllEvolve, Others, Sample;
    StepEvolves(members, cfg, s, step, s');
    if !step.DropStep? {
      assert Moved(cfg, s, step, s');
      ActorWritesOk(cfg, s, step, s');
      forall id | id in s'.nodes
        ensures WritesOk(s'.nodes, id, s'.nodes[id])
      {
        if id != Actor(step) {
          OtherWritesOk(s.nodes, s'.nodes, id);
        }
      }
      forall m | m in s'.net
        ensures WriteMsgOk(s'.nodes, m)
      {
        if m in s.net {
          WriteMsgKept(s.nodes, s'.nodes, m);
        } else {
          OutWriteOk(cfg, s, step, s', m);
        }
      }
    }
  }

  lemma OtherWritesOk(nodes: Nodes, nodes': Nodes, id: NodeId)
    requires AllEvolve(nodes, nodes') && id in nodes && nodes'[id] == nodes[id] && WritesOk(nodes, id, nodes[id])
    ensures WritesOk(nodes', id, nodes'[id])
  {
    hide PendingOk, AllEvolve;
    forall q | q in nodes[id].writes
      ensures PendingOk(nodes', id, nodes[id].writes[q])
    {
      PendingKept(nodes, nodes', id, nodes[id].writes[q]);
    }
  }

  // ---------------------------------------------------------------- each replica answers a read once

  predicate IsRead(m: Message)
  {
    m.ReadMsg? || m.ReadResp?
  }

  function Reader(m: Message): NodeId
    requires IsRead(m)
  {
    if m.ReadMsg? then m.src else m.dst
  }

  function Replica(m: Message): NodeId
    requires IsRead(m)
  {
    if m.ReadMsg? then m.dst else m.src
  }

  predicate SameSlot(m: Message, m': Message)
  {
    IsRead(m) && IsRead(m') && Reader(m) == Reader(m') && Replica(m) == Replica(m') && m.seqNo == m'.seqNo
  }

  /** At most one request or answer per read and replica is on its way. */
  ghost predicate Slots(net: multiset<Message>)
  {
    && (forall m :: m in net && IsRead(m) ==> net[m] == 1)
    && (forall m, m' :: m in net && m' in net && SameSlot(m, m') ==> m == m')
  }

  ghost predicate Unanswered(p: PendingRead, id: NodeId)
  {
    forall r :: r in p.resps ==> r.src != id
  }

  ghost predicate Expected(n: Node, m: Message)
    requires IsRead(m)
  {
    && m.seqNo <= n.seqNo
    && (m.seqNo in n.queries ==>
      Unanswered(n.queries[m.seqNo], Replica(m)) && (m.ReadMsg? ==> n.queries[m.seqNo].key == m.key))
  }

  ghost predicate ReadMsgOk(nodes: Nodes, m: Message)
  {
    IsRead(m) ==> Reader(m) in nodes && Replica(m) in nodes && Replica(m) != Reader(m) && Expected(nodes[Reader(m)], m)
  }

  /** The responders of a read are different nodes, none of them the reader. */
  ghost predicate Responders(members: set<NodeId>, id: NodeId, resps: seq<Response>)
  {
    && (forall i, j :: 0 <= i < j < |resps| ==> resps[i].src != resps[j].src)
    && (forall r :: r in resps ==> r.src in members && r.src != id)
  }

  ghost predicate QueriesOk(members: set<NodeId>, id: NodeId, n: Node)
  {
    forall q :: q in n.queries ==> q <= n.seqNo && Responders(members, id, n.queries[q].resps)
  }

  ghost predicate ReadInv(nodes: Nodes, net: multiset<Message>)
  {
    && Slots(net)
    && (forall m :: m in net ==> ReadMsgOk(nodes, m))
    && (forall id :: id in nodes ==> QueriesOk(nodes.Keys, id, nodes[id]))
  }

  /** How a step changes the reads of its node. */
  lemma OutcomeQueries(cfg: QuorumConfig, n: Node, step: Step, q: nat)
    requires !step.DropStep? && q in Outcome(cfg, n, step).node.queries
    ensures var n' := Outcome(cfg, n, step).node; var p := n'.queries[q];
      || (q in n.queries && n.queries[q] == p)
      || (q in n.queries && step.DeliverStep? && step.m.ReadResp? && step.m.seqNo == q
        && p == WithResponse(n.queries[q], step.m))
      || (q == n.seqNo + 1 == n'.seqNo && step.ReadStep? && p.key == step.key && p.local == Find(n.store, step.key)
        && p.resps == [])
  {
    hide AtLeast, Wins, ApplyWrite, Winner, Stale, WriteMsgs, ReadMsgs, RepairMsgs, HandoffMsgs, HintsFor, Find;
  }

  function WithResponse(p: PendingRead, m: Message): PendingRead
    requires m.ReadResp?
  {
    p.(resps := p.resps + [Response(m.src, m.found)])
  }

  lemma OtherSlot(net: multiset<Message>, taken: Message, m: Message)
    requires Slots(net) && taken in net && IsRead(taken) && m in net - multiset{taken}
    ensures !SameSlot(m, taken)
  {
  }

  lemma ReadMsgKept(cfg: QuorumConfig, s: System, step: Step, s': System, m: Message)
    requires Moved(cfg, s, step, s') && AllEvolve(s.nodes, s'.nodes) && ReadInv(s.nodes, s.net)
    requires m in Consumed(s.net, step)
    ensures ReadMsgOk(s'.nodes, m)
  {
    hide Outcome, AllEvolve, Slots;
    assert m in s.net && ReadMsgOk(s.nodes, m);
    if IsRead(m) && Reader(m) == Actor(step) {
      var id := Actor(step);
      EvolvesNumber(s.nodes, s'.nodes, id);
      if m.seqNo in s'.nodes[id].queries {
        OutcomeQueries(cfg, s.nodes[id], step, m.seqNo);
        if s'.nodes[id].queries[m.seqNo] != s.nodes[id].queries[m.seqNo] {
          OtherSlot(s.net, step.m, m);
        }
      }
    }
  }

  lemma OutReadOk(members: set<NodeId>, cfg: QuorumConfig, s: System, step: Step, s': System, m: Message)
    requires Next(members, cfg, s, step, s') && Moved(cfg, s, step, s') && ReadInv(s.nodes, s.net)
    requires m in Outcome(cfg, s.nodes[Actor(step)], step).out
    ensures ReadMsgOk(s'.nodes, m)
  {
    hide Slots, QueriesOk;
    OutShape(cfg, s.nodes[Actor(step)], step, m);
    if m.ReadResp? {
      assert ReadMsgOk(s.nodes, step.m);
    }
  }

  lemma ActorQueriesOk(cfg: QuorumConfig, s: System, step: Step, s': System)
    requires Moved(cfg, s, step, s') && AllEvolve(s.nodes, s'.nodes) && ReadInv(s.nodes, s.net)
    ensures QueriesOk(s'.nodes.Keys, Actor(step), s'.nodes[Actor(step)])
  {
    hide Outcome, AllEvolve, Consumed, Slots;
    var id := Actor(step);
    var n, n' := s.nodes[id], s'.nodes[id];
    assert s'.nodes.Keys == s.nodes.Keys;
    EvolvesNumber(s.nodes, s'.nodes, id);
    forall q | q in n'.queries
      ensures q <= n'.seqNo && Responders(s'.nodes.Keys, id, n'.queries[q].resps)
    {
      OutcomeQueries(cfg, n, step, q);
      if q in n.queries && n'.queries[q] != n.queries[q] {
        assert ReadMsgOk(s.nodes, step.m);
      }
    }
  }

  lemma {:induction false} ReadMsgsOnce(id: NodeId, q: nat, key: string, targets: seq<NodeId>, m: Message)
    requires Distinct(targets)
    ensures multiset(ReadMsgs(id, q, key, targets))[m] <= 1
  {
    if targets != [] {
      var init := targets[..|targets| - 1];
      ReadMsgsOnce(id, q, key, init, m);
      if m in ReadMsgs(id, q, key, init) {
        ReadMsgsShape(id, q, key, init, m);
      }
    }
  }

  lemma SlotsAfterRead(net: multiset<Message>, id: NodeId, q: nat, key: string, targets: seq<NodeId>)
    requires Slots(net) && Distinct(targets)
    requires forall m :: m in net && IsRead(m) && Reader(m) == id ==> m.seqNo < q
    ensures Slots(net + multiset(ReadMsgs(id, q, key, targets)))
  {
    var out := ReadMsgs(id, q, key, targets);
    forall m | m in out
      ensures m.ReadMsg? && m.src == id && m.seqNo == q && m.key == key && m !in net
    {
      ReadMsgsShape(id, q, key, targets, m);
    }
    forall m | m in net + multiset(out) && IsRead(m)
      ensures (net + multiset(out))[m] == 1
    {
      ReadMsgsOnce(id, q, key, targets, m);
    }
  }

  lemma SlotsAfterAnswer(net: multiset<Message>, m: Message, resp: Message)
    requires Slots(net) && m in net && SameSlot(m, resp)
    ensures Slots(net - multiset{m} + multiset{resp})
  {
  }

  lemma SlotsFewer(net: multiset<Message>, m: Message)
    requires Slots(net)
    ensures Slots(net - multiset{m})
  {
  }

  /** Messages that have nothing to do with reads, or one that finds its slot free. */
  lemma SlotsMore(net: multiset<Message>, out: seq<Message>)
    requires Slots(net)
    requires (forall m :: m in out ==> !IsRead(m)) || (|out| == 1 && forall m :: m in net ==> !SameSlot(m, out[0]))
    ensures Slots(net + multiset(out))
  {
  }

  lemma StepKeepsSlots(members: set<NodeId>, cfg: QuorumConfig, s: System, step: Step, s': System)
    requires Next(members, cfg, s, step, s') && ReadInv(s.nodes, s.net)
    ensures Slots(s'.net)
  {
    hide Slots, QueriesOk, SameSlot;
    if step.DeliverStep? || step.DropStep? {
      SlotsFewer(s.net, step.m);
    }
    if !step.DropStep? {
      var n := s.nodes[Actor(step)];
      var out := Outcome(cfg, n, step).out;
      if step.ReadStep? {
        forall m | m in s.net && IsRead(m) && Reader(m) == step.id
          ensures m.seqNo < n.seqNo + 1
        {
          assert ReadMsgOk(s.nodes, m);
        }
        SlotsAfterRead(s.net, step.id, n.seqNo + 1, step.key, step.targets);
      } else if step.DeliverStep? && step.m.ReadMsg? {
        AnswerSlot(step.m, Find(n.store, step.m.key));
        SlotsAfterAnswer(s.net, step.m, ReadResp(step.m.dst, step.m.src, step.m.seqNo, Find(n.store, step.m.key)));
      } else {
        forall m | m in out
          ensures !IsRead(m)
        {
          OutShape(cfg, n, step, m);
        }
        SlotsMore(Consumed(s.net, step), out);
      }
    }
  }

  lemma AnswerSlot(m: Message, found: Option<Entry>)
    requires m.ReadMsg?
    ensures SameSlot(m, ReadResp(m.dst, m.src, m.seqNo, found))
  {
  }

  lemma StepKeepsReadInv(members: set<NodeId>, cfg: QuorumConfig, s: System, step: Step, s': System)
    requires Next(members, cfg, s, step, s') && ReadInv(s.nodes, s.net)
    ensures ReadInv(s'.nodes, s'.net)
  {
    hide Outcome, Slots, ReadMsgOk, QueriesOk, AllEvolve, Others, Sample;
    StepEvolves(members, cfg, s, step, s');
    StepKeepsSlots(members, cfg, s, step, s');
    if !step.DropStep? {
      assert Moved(cfg, s, step, s');
      assert s'.nodes.Keys == s.nodes.Keys;
      ActorQueriesOk(cfg, s, step, s');
      forall m | m in s'.net
        ensures ReadMsgOk(s'.nodes, m)
      {
        if m in Consumed(s.net, step) {
          ReadMsgKept(cfg, s, step, s', m);
        } else {
          OutReadOk(members, cfg, s, step, s', m);
        }
      }
    }
  }

  // ---------------------------------------------------------------- a read that starts late enough sees the write

  predicate FreshFound(found: Option<Entry>, e: Entry)
  {
    found.Some? && AtMost(e, found.value)
  }

  /** Every holder stores this version of the key, or a newer one. */
  ghost predicate Stored(nodes: Nodes, holders: set<NodeId>, key: string, e: Entry)
  {
    forall a :: a in holders ==> a in nodes && AtLeast(nodes[a].store, key, e)
  }

  ghost predicate FreshQuery(p: PendingRead, holders: set<NodeId>, id: NodeId, key: string, e: Entry)
  {
    && p.key == key
    && (id in holders ==> FreshFound(p.local, e))
    && (forall r :: r in p.resps && r.src in holders ==> FreshFound(r.found, e))
  }

  ghost predicate FreshAnswers(net: multiset<Message>, holders: set<NodeId>, id: NodeId, q: nat, e: Entry)
  {
    forall m :: m in net && m.ReadResp? && m.dst == id && m.seqNo == q && m.src in holders ==> FreshFound(m.found, e)
  }

  /** Nothing a holder told this read is older than the write. */
  ghost predicate Fresh(s: System, holders: set<NodeId>, key: string, e: Entry, id: NodeId, q: nat)
  {
    && Stored(s.nodes, holders, key, e)
    && id in s.nodes && q <= s.nodes[id].seqNo
    && (q in s.nodes[id].queries ==>
      FreshQuery(s.nodes[id].queries[q], holders, id, key, e) && FreshAnswers(s.net, holders, id, q, e))
  }

  lemma StoredKept(nodes: Nodes, nodes': Nodes, holders: set<NodeId>, key: string, e: Entry)
    requires AllEvolve(nodes, nodes') && Stored(nodes, holders, key, e)
    ensures Stored(nodes', holders, key, e)
  {
    forall a | a in holders
      ensures a in nodes' && AtLeast(nodes'[a].store, key, e)
    {
      GrowsKeeps(nodes[a].store, nodes'[a].store, key, e);
    }
  }

  lemma ReadBegins(members: set<NodeId>, cfg: QuorumConfig, s: System, step: Step, s': System, holders: set<NodeId>,
      e: Entry)
    requires Next(members, cfg, s, step, s') && ReadInv(s.nodes, s.net)
    requires step.ReadStep? && Stored(s.nodes, holders, step.key, e)
    ensures s'.nodes[step.id].seqNo == s.nodes[step.id].seqNo + 1
    ensures Fresh(s', holders, step.key, e, step.id, s'.nodes[step.id].seqNo)
  {
    hide AllEvolve, Slots, QueriesOk;
    StepEvolves(members, cfg, s, step, s');
    StoredKept(s.nodes, s'.nodes, holders, step.key, e);
    var q := s'.nodes[step.id].seqNo;
    forall m | m in s'.net && m.ReadResp? && m.dst == step.id
      ensures m.seqNo < q
    {
      if m in s.net {
        assert ReadMsgOk(s.nodes, m);
      } else {
        OutShape(cfg, s.nodes[step.id], step, m);
      }
    }
  }

  lemma FreshQueryKept(members: set<NodeId>, cfg: QuorumConfig, s: System, step: Step, s': System,
      holders: set<NodeId>, key: string, e: Entry, id: NodeId, q: nat)
    requires Next(members, cfg, s, step, s') && Fresh(s, holders, key, e, id, q) && q in s'.nodes[id].queries
    ensures q in s.nodes[id].queries && FreshQuery(s'.nodes[id].queries[q], holders, id, key, e)
  {
    hide Outcome, Others, Sample, Stored, FreshFound;
    if !step.DropStep? && Actor(step) == id {
      OutcomeQueries(cfg, s.nodes[id], step, q);
    }
  }

  lemma FreshAnswersKept(members: set<NodeId>, cfg: QuorumConfig, s: System, step: Step, s': System,
      holders: set<NodeId>, key: string, e: Entry, id: NodeId, q: nat)
    requires Next(members, cfg, s, step, s') && Fresh(s, holders, key, e, id, q) && ReadInv(s.nodes, s.net)
    requires q in s.nodes[id].queries
    ensures FreshAnswers(s'.net, holders, id, q, e)
  {
    hide Outcome, Slots, QueriesOk, Others, Sample;
    forall m | m in s'.net && m.ReadResp? && m.dst == id && m.seqNo == q && m.src in holders
      ensures FreshFound(m.found, e)
    {
      if m !in s.net {
        OutShape(cfg, s.nodes[Actor(step)], step, m);
        assert ReadMsgOk(s.nodes, step.m);
        assert AtLeast(s.nodes[m.src].store, key, e);
      }
    }
  }

  lemma StepKeepsFresh(members: set<NodeId>, cfg: QuorumConfig, s: System, step: Step, s': System,
      holders: set<NodeId>, key: string, e: Entry, id: NodeId, q: nat)
    requires Next(members, cfg, s, step, s') && Fresh(s, holders, key, e, id, q) && ReadInv(s.nodes, s.net)
    ensures Fresh(s', holders, key, e, id, q)
  {
    hide Next, ReadInv, FreshQuery, FreshAnswers, Stored, AllEvolve;
    StepEvolves(members, cfg, s, step, s');
    StoredKept(s.nodes, s'.nodes, holders, key, e);
    assert id in s'.nodes by { EvolvesDomain(s.nodes, s'.nodes, id); }
    EvolvesNumber(s.nodes, s'.nodes, id);
    if q in s'.nodes[id].queries {
      FreshQueryKept(members, cfg, s, step, s', holders, key, e, id, q);
      FreshAnswersKept(members, cfg, s, step, s', holders, key, e, id, q);
    }
  }

  lemma EvolvesDomain(nodes: Nodes, nodes': Nodes, id: NodeId)
    requires AllEvolve(nodes, nodes')
    ensures id in nodes <==> id in nodes'
  {
    assert id in nodes.Keys <==> id in nodes'.Keys;
  }

  // ---------------------------------------------------------------- reconciliation

  lemma {:induction false} NewestIsMax(es: seq<Entry>, e: Entry)
    requires e in es
    ensures AtMost(e, Newest(es)) && Newest(es) in es
  {
    var last := es[|es| - 1];
    if |es| > 1 {
      var init := es[..|es| - 1];
      var best := Newest(init);
      StampsOrdered(best, last);
      NewestIsMax(init, init[0]);
      if e in init {
        NewestIsMax(init, e);
        if Wins(last, best) {
          AtMostTransitive(e, best, last);
        }
      }
    }
  }

  lemma {:induction false} SeenHas(local: Option<Entry>, resps: seq<Response>, r: Response)
    ensures local.Some? ==> local.value in Seen(local, resps)
    ensures r in resps && r.found.Some? ==> r.found.value in Seen(local, resps)
  {
    if resps != [] {
      SeenHas(local, resps[..|resps| - 1], r);
    }
  }

  function Sources(resps: seq<Response>): set<NodeId>
  {
    set r | r in resps :: r.src
  }

  lemma {:induction false} SourcesCount(members: set<NodeId>, id: NodeId, resps: seq<Response>)
    requires Responders(members, id, resps)
    ensures |Sources(resps)| == |resps|
  {
    if resps != [] {
      var init, r := resps[..|resps| - 1], resps[|resps| - 1];
      assert resps == init + [r];
      SourcesCount(members, id, init);
      assert Sources(resps) == Sources(init) + {r.src};
    }
  }

  /** Any R answers meet the holders of a met write, so the winner is at least that write. */
  lemma QuorumsMeet(members: set<NodeId>, cfg: QuorumConfig, holders: set<NodeId>, id: NodeId, p: PendingRead, e: Entry)
    requires |members| == cfg.N && cfg.IsStronglyConsistent()
    requires holders <= members && |holders| >= cfg.W && id in members
    requires Responders(members, id, p.resps) && FreshQuery(p, holders, id, p.key, e)
    requires ReplyOf(p, cfg.R) != QuorumNotMet
    ensures Winner(p).Some? && AtMost(e, Winner(p).value)
  {
    SourcesCount(members, id, p.resps);
    var readers := Sources(p.resps) + {id};
    assert |readers| == 1 + |p.resps|;
    var a := CommonMember(members, holders, readers);
    if a == id {
      SeenHas(p.local, p.resps, Response(id, None));
      NewestIsMax(Seen(p.local, p.resps), p.local.value);
      AtMostTransitive(e, p.local.value, Winner(p).value);
    } else {
      var r :| r in p.resps && r.src == a;
      SeenHas(p.local, p.resps, r);
      NewestIsMax(Seen(p.local, p.resps), r.found.value);
      AtMostTransitive(e, r.found.value, Winner(p).value);
    }
  }

  // ---------------------------------------------------------------- whole runs

  ghost predicate Inv(members: set<NodeId>, s: System)
  {
    s.nodes.Keys == members && WriteInv(s.nodes, s.net) && ReadInv(s.nodes, s.net)
  }

  lemma {:induction false} RunKeepsInv(members: set<NodeId>, cfg: QuorumConfig, tr: seq<System>, steps: seq<Step>,
      i: nat)
    requires IsRun(members, cfg, tr, steps) && i < |tr|
    ensures Inv(members, tr[i])
  {
    hide Next, WriteInv, ReadInv;
    if i == 0 {
      InitInv(members);
    } else {
      RunKeepsInv(members, cfg, tr, steps, i - 1);
      assert Next(members, cfg, tr[i - 1], steps[i - 1], tr[i]);
      StepEvolves(members, cfg, tr[i - 1], steps[i - 1], tr[i]);
      StepKeepsWriteInv(members, cfg, tr[i - 1], steps[i - 1], tr[i]);
      StepKeepsReadInv(members, cfg, tr[i - 1], steps[i - 1], tr[i]);
    }
  }

  lemma InitInv(members: set<NodeId>)
    ensures Inv(members, Init(members))
  {
  }

  /** What a replica stores never gets older. */
  lemma {:induction false} StampsOnlyGrow(members: set<NodeId>, cfg: QuorumConfig, tr: seq<System>, steps: seq<Step>,
      i: nat, j: nat, holders: set<NodeId>, key: string, e: Entry)
    requires IsRun(members, cfg, tr, steps) && i <= j < |tr|
    requires Stored(tr[i].nodes, holders, key, e)
    ensures Stored(tr[j].nodes, holders, key, e)
  {
    hide Next, Stored;
    if i < j {
      StampsOnlyGrow(members, cfg, tr, steps, i, j - 1, holders, key, e);
      assert Next(members, cfg, tr[j - 1], steps[j - 1], tr[j]);
      StepEvolves(members, cfg, tr[j - 1], steps[j - 1], tr[j]);
      StoredKept(tr[j - 1].nodes, tr[j].nodes, holders, key, e);
    }
  }

  lemma {:induction false} ReadStaysFresh(members: set<NodeId>, cfg: QuorumConfig, tr: seq<System>, steps: seq<Step>,
      j: nat, k: nat, holders: set<NodeId>, e: Entry)
    requires IsRun(members, cfg, tr, steps) && j < k < |tr| && steps[j].ReadStep?
    requires steps[j].id in tr[j + 1].nodes
    requires Stored(tr[j].nodes, holders, steps[j].key, e)
    ensures Fresh(tr[k], holders, steps[j].key, e, steps[j].id, tr[j + 1].nodes[steps[j].id].seqNo)
  {
    hide Next, Inv, Stored, Fresh;
    RunKeepsInv(members, cfg, tr, steps, k - 1);
    InvReads(members, tr[k - 1]);
    assert Next(members, cfg, tr[k - 1], steps[k - 1], tr[k]);
    if k == j + 1 {
      ReadBegins(members, cfg, tr[j], steps[j], tr[j + 1], holders, e);
    } else {
      ReadStaysFresh(members, cfg, tr, steps, j, k - 1, holders, e);
      StepKeepsFresh(members, cfg, tr[k - 1], steps[k - 1], tr[k], holders, steps[j].key, e, steps[j].id,
        tr[j + 1].nodes[steps[j].id].seqNo);
    }
  }

  lemma InvReads(members: set<NodeId>, s: System)
    requires Inv(members, s)
    ensures ReadInv(s.nodes, s.net)
  {
  }

  /** The write has been acknowledged by W nodes, its coordinator included. */
  ghost predicate WriteMet(cfg: QuorumConfig, s: System, c: NodeId, w: nat)
  {
    && c in s.nodes && w in s.nodes[c].writes && !s.nodes[c].writes[w].repair
    && QuorumMet(c, s.nodes[c].writes[w].acked, cfg.W)
  }

  lemma MetIsStored(members: set<NodeId>, cfg: QuorumConfig, s: System, c: NodeId, w: nat)
    requires Inv(members, s) && WriteMet(cfg, s, c, w)
    ensures var p := s.nodes[c].writes[w];
      p.acked + {c} <= members && Stored(s.nodes, p.acked + {c}, p.key, p.entry)
  {
  }

  /**
   Quorum freshness. A write that met its quorum at state i, and a read of the same key that began
   at a later step j: whenever the read can answer at all, the version it settles on is at least the
   write, and it reports the key missing exactly when that version is a tombstone.
   */
  lemma Freshness(members: set<NodeId>, cfg: QuorumConfig, tr: seq<System>, steps: seq<Step>,
      i: nat, c: NodeId, w: nat, j: nat, k: nat, q: nat)
    requires IsRun(members, cfg, tr, steps)
    requires |members| == cfg.N && cfg.IsStronglyConsistent()
    requires i <= j < k < |tr|
    requires WriteMet(cfg, tr[i], c, w)
    requires steps[j].ReadStep? && steps[j].key == tr[i].nodes[c].writes[w].key
    requires steps[j].id in tr[j + 1].nodes && q == tr[j + 1].nodes[steps[j].id].seqNo
    requires steps[j].id in tr[k].nodes && q in tr[k].nodes[steps[j].id].queries
    ensures var p := tr[k].nodes[steps[j].id].queries[q];
      p.key == steps[j].key &&
      match ReplyOf(p, cfg.R)
      case QuorumNotMet => 1 + |p.resps| < cfg.R
      case NotFound => Winner(p).Some? && Winner(p).value.tombstone
        && AtMost(tr[i].nodes[c].writes[w].entry, Winner(p).value)
      case Found(best) => !best.tombstone && AtMost(tr[i].nodes[c].writes[w].entry, best)
  {
    hide Next, Inv, Stored, FreshQuery, FreshAnswers, Responders, Winner;
    var id := steps[j].id;
    var write := tr[i].nodes[c].writes[w];
    var holders := write.acked + {c};
    RunKeepsInv(members, cfg, tr, steps, i);
    MetIsStored(members, cfg, tr[i], c, w);
    StampsOnlyGrow(members, cfg, tr, steps, i, j, holders, write.key, write.entry);
    ReadStaysFresh(members, cfg, tr, steps, j, k, holders, write.entry);
    RunKeepsInv(members, cfg, tr, steps, k);
    InvResponders(members, tr[k], id, q);
    var p := tr[k].nodes[id].queries[q];
    FreshKey(p, holders, id, write.key, write.entry);
    if ReplyOf(p, cfg.R) != QuorumNotMet {
      QuorumsMeet(members, cfg, holders, id, p, write.entry);
    }
  }

  lemma FreshKey(p: PendingRead, holders: set<NodeId>, id: NodeId, key: string, e: Entry)
    requires FreshQuery(p, holders, id, key, e)
    ensures p.key == key
  {
  }

  lemma InvResponders(members: set<NodeId>, s: System, id: NodeId, q: nat)
    requires Inv(members, s) && id in s.nodes && q in s.nodes[id].queries
    ensures id in members && Responders(members, id, s.nodes[id].queries[q].resps)
  {
  }
}
