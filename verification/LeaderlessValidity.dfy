/**
 What leaderless replicas store and answer (internal/node/leaderless.go): in every run, each version
 stored, on its way, hinted or answered is the entry of an earlier write of that key, and a replica that
 answered still stores what it answered, or something newer.
 */
module LeaderlessValidity {
  import opened Storage
  import opened Lww
  import opened Quorums
  import opened LeaderlessModel
  import opened LeaderlessFreshness

  /** Writes of a run: keys and entries. */
  type Writes = set<(string, Entry)>

  predicate From(ws: Writes, key: string, found: Option<Entry>)
  {
    found.Some? ==> (key, found.value) in ws
  }

  predicate Offers(m: Message)
  {
    m.WriteMsg? || m.HandoffMsg? || m.RepairMsg?
  }

  // ---------------------------------------------------------------- where versions come from

  ghost predicate ReadFrom(ws: Writes, p: PendingRead)
  {
    From(ws, p.key, p.local) && forall r :: r in p.resps ==> From(ws, p.key, r.found)
  }

  ghost predicate NodeFrom(ws: Writes, n: Node)
  {
    && (forall key :: key in n.store ==> (key, n.store[key]) in ws)
    && (forall q :: q in n.writes ==> (n.writes[q].key, n.writes[q].entry) in ws)
    && (forall q :: q in n.queries ==> ReadFrom(ws, n.queries[q]))
    && (forall h :: h in n.hints ==> (h.key, h.entry) in ws)
  }

  /** What a message offers was written, and what it answers to a read under way was written to the read's key. */
  ghost predicate MsgFrom(ws: Writes, n: Node, m: Message)
  {
    && (Offers(m) ==> (m.key, m.entry) in ws)
    && (m.ReadResp? && m.seqNo in n.queries ==> From(ws, n.queries[m.seqNo].key, m.found))
  }

  ghost predicate OutFrom(ws: Writes, out: seq<Message>)
  {
    forall m :: m in out && Offers(m) ==> (m.key, m.entry) in ws
  }

  lemma {:induction false} WriteMsgsFrom(ws: Writes, id: NodeId, q: nat, key: string, e: Entry, targets: seq<NodeId>)
    requires (key, e) in ws
    ensures OutFrom(ws, WriteMsgs(id, q, key, e, targets))
  {
    if targets != [] {
      WriteMsgsFrom(ws, id, q, key, e, targets[..|targets| - 1]);
    }
  }

  lemma {:induction false} RepairMsgsFrom(ws: Writes, id: NodeId, key: string, e: Entry, targets: seq<NodeId>)
    requires (key, e) in ws
    ensures OutFrom(ws, RepairMsgs(id, key, e, targets))
  {
    if targets != [] {
      RepairMsgsFrom(ws, id, key, e, targets[..|targets| - 1]);
    }
  }

  lemma {:induction false} ReadMsgsFrom(ws: Writes, id: NodeId, q: nat, key: string, targets: seq<NodeId>)
    ensures OutFrom(ws, ReadMsgs(id, q, key, targets))
  {
    if targets != [] {
      ReadMsgsFrom(ws, id, q, key, targets[..|targets| - 1]);
    }
  }

  lemma {:induction false} HandoffMsgsFrom(ws: Writes, id: NodeId, hints: seq<Hint>)
    requires forall h :: h in hints ==> (h.key, h.entry) in ws
    ensures OutFrom(ws, HandoffMsgs(id, hints))
  {
    if hints != [] {
      HandoffMsgsFrom(ws, id, hints[..|hints| - 1]);
    }
  }

  lemma {:induction false} HintsFrom(ws: Writes, p: PendingWrite, targets: seq<NodeId>)
    requires (p.key, p.entry) in ws
    ensures forall h :: h in HintsFor(p, targets) ==> (h.key, h.entry) in ws
  {
    if targets != [] {
      HintsFrom(ws, p, targets[..|targets| - 1]);
    }
  }

  lemma {:induction false} SeenFrom(ws: Writes, key: string, local: Option<Entry>, resps: seq<Response>)
    requires From(ws, key, local) && forall r :: r in resps ==> From(ws, key, r.found)
    ensures forall e :: e in Seen(local, resps) ==> (key, e) in ws
  {
    if resps != [] {
      SeenFrom(ws, key, local, resps[..|resps| - 1]);
    }
  }

  /** The version a read settles on was written. */
  lemma WinnerFrom(ws: Writes, p: PendingRead)
    requires ReadFrom(ws, p)
    ensures From(ws, p.key, Winner(p))
  {
    SeenFrom(ws, p.key, p.local, p.resps);
    var seen := Seen(p.local, p.resps);
    if seen != [] {
      NewestIsMax(seen, seen[0]);
    }
  }

  function WritesOf(step: Step): Writes
  {
    if step.WriteStep? then {(step.key, step.entry)} else {}
  }

  lemma NodeFromMore(ws: Writes, more: Writes, n: Node)
    requires NodeFrom(ws, n)
    ensures NodeFrom(ws + more, n)
  {
  }

  lemma ApplyFrom(ws: Writes, store: Versions, key: string, e: Entry)
    requires (key, e) in ws && forall k :: k in store ==> (k, store[k]) in ws
    ensures forall k :: k in ApplyWrite(store, key, e) ==> (k, ApplyWrite(store, key, e)[k]) in ws
  {
  }

  lemma StartFrom(ws: Writes, id: NodeId, n: Node, key: string, e: Entry, targets: seq<NodeId>)
    requires NodeFrom(ws, n) && (key, e) in ws
    ensures NodeFrom(ws, StartWrite(id, n, key, e, targets).node) && OutFrom(ws, StartWrite(id, n, key, e, targets).out)
  {
    hide ApplyWrite, WriteMsgs, OutFrom;
    ApplyFrom(ws, n.store, key, e);
    WriteMsgsFrom(ws, id, n.seqNo + 1, key, e, targets);
  }

  lemma EndFrom(ws: Writes, n: Node, q: nat, targets: seq<NodeId>)
    requires NodeFrom(ws, n)
    ensures NodeFrom(ws, EndWrite(n, q, targets).node) && OutFrom(ws, EndWrite(n, q, targets).out)
  {
    hide HintsFor;
    if q in n.writes {
      HintsFrom(ws, n.writes[q], targets);
    }
  }

  lemma RepairFrom(ws: Writes, id: NodeId, n: Node, p: PendingRead, best: Entry, sync: bool)
    requires NodeFrom(ws, n) && (p.key, best) in ws
    ensures NodeFrom(ws, Repair(id, n, p, best, sync).node) && OutFrom(ws, Repair(id, n, p, best, sync).out)
  {
    hide ApplyWrite, WriteMsgs, RepairMsgs, Stale, Wins;
    ApplyFrom(ws, n.store, p.key, best);
    WriteMsgsFrom(ws, id, n.seqNo + 1, p.key, best, Stale(best, p.resps));
    RepairMsgsFrom(ws, id, p.key, best, Stale(best, p.resps));
  }

  lemma EndReadFrom(ws: Writes, id: NodeId, n: Node, q: nat, R: int, sync: bool)
    requires NodeFrom(ws, n)
    ensures NodeFrom(ws, EndRead(id, n, q, R, sync).node) && OutFrom(ws, EndRead(id, n, q, R, sync).out)
  {
    hide Repair, Winner;
    if q in n.queries {
      var p := n.queries[q];
      WinnerFrom(ws, p);
      if Winner(p).Some? {
        RepairFrom(ws, id, n.(queries := n.queries - {q}), p, Winner(p).value, sync);
      }
    }
  }

  lemma HandleFrom(ws: Writes, id: NodeId, n: Node, m: Message)
    requires NodeFrom(ws, n) && MsgFrom(ws, n, m)
    ensures NodeFrom(ws, Handle(id, n, m).node) && OutFrom(ws, Handle(id, n, m).out)
  {
    hide ApplyWrite;
    if Offers(m) {
      ApplyFrom(ws, n.store, m.key, m.entry);
    }
  }

  lemma OutcomeFrom(ws: Writes, cfg: QuorumConfig, n: Node, step: Step)
    requires !step.DropStep? && NodeFrom(ws, n) && WritesOf(step) <= ws
      && (step.DeliverStep? ==> MsgFrom(ws, n, step.m))
    ensures NodeFrom(ws, Outcome(cfg, n, step).node) && OutFrom(ws, Outcome(cfg, n, step).out)
  {
    hide StartWrite, EndWrite, EndRead, Handle, HandoffMsgs, ReadMsgs, OutFrom;
    match step
    case WriteStep(id, key, e, targets) => StartFrom(ws, id, n, key, e, targets);
    case EndWriteStep(_, q, targets) => EndFrom(ws, n, q, targets);
    case HandoffStep(id) => HandoffMsgsFrom(ws, id, n.hints);
    case ReadStep(id, key, targets) => ReadMsgsFrom(ws, id, n.seqNo + 1, key, targets);
    case EndReadStep(id, q, sync) => EndReadFrom(ws, id, n, q, cfg.R, sync);
    case DeliverStep(m) => HandleFrom(ws, m.dst, n, m);
  }

  // ---------------------------------------------------------------- answers stay true

  /** The replica stores what it answered, or something newer. */
  ghost predicate TrueAnswer(nodes: Nodes, src: NodeId, key: string, found: Option<Entry>)
  {
    found.Some? ==> src in nodes && AtLeast(nodes[src].store, key, found.value)
  }

  ghost predicate TrueRead(nodes: Nodes, id: NodeId, p: PendingRead)
  {
    TrueAnswer(nodes, id, p.key, p.local) && forall r :: r in p.resps ==> TrueAnswer(nodes, r.src, p.key, r.found)
  }

  ghost predicate TrueMsg(nodes: Nodes, m: Message)
  {
    m.ReadResp? && m.dst in nodes && m.seqNo in nodes[m.dst].queries ==>
      TrueAnswer(nodes, m.src, nodes[m.dst].queries[m.seqNo].key, m.found)
  }

  lemma TrueKept(nodes: Nodes, nodes': Nodes, src: NodeId, key: string, found: Option<Entry>)
    requires AllEvolve(nodes, nodes') && TrueAnswer(nodes, src, key, found)
    ensures TrueAnswer(nodes', src, key, found)
  {
    if found.Some? {
      GrowsKeeps(nodes[src].store, nodes'[src].store, key, found.value);
    }
  }

  lemma TrueReadKept(nodes: Nodes, nodes': Nodes, id: NodeId, p: PendingRead)
    requires AllEvolve(nodes, nodes') && TrueRead(nodes, id, p)
    ensures TrueRead(nodes', id, p)
  {
    hide TrueAnswer, AllEvolve;
    TrueKept(nodes, nodes', id, p.key, p.local);
    forall r | r in p.resps
      ensures TrueAnswer(nodes', r.src, p.key, r.found)
    {
      TrueKept(nodes, nodes', r.src, p.key, r.found);
    }
  }

  // ---------------------------------------------------------------- the invariant

  ghost predicate Sound(ws: Writes, s: System)
  {
    && (forall id :: id in s.nodes ==> NodeFrom(ws, s.nodes[id]))
    && (forall id, q :: id in s.nodes && q in s.nodes[id].queries ==> TrueRead(s.nodes, id, s.nodes[id].queries[q]))
    && (forall m :: m in s.net ==> TrueMsg(s.nodes, m) && (m.dst in s.nodes ==> MsgFrom(ws, s.nodes[m.dst], m)))
    && (forall m :: m in s.net && Offers(m) ==> (m.key, m.entry) in ws)
  }

  lemma ActorTrue(cfg: QuorumConfig, s: System, step: Step, s': System, q: nat)
    requires Moved(cfg, s, step, s') && AllEvolve(s.nodes, s'.nodes) && q in s'.nodes[Actor(step)].queries
    requires q in s.nodes[Actor(step)].queries ==> TrueRead(s.nodes, Actor(step), s.nodes[Actor(step)].queries[q])
    requires step.DeliverStep? ==> TrueMsg(s.nodes, step.m)
    ensures TrueRead(s'.nodes, Actor(step), s'.nodes[Actor(step)].queries[q])
  {
    hide Outcome, AllEvolve, Consumed, TrueAnswer;
    var id := Actor(step);
    var n, n' := s.nodes[id], s'.nodes[id];
    OutcomeQueries(cfg, n, step, q);
    if q in n.queries && n'.queries[q] == n.queries[q] {
      TrueReadKept(s.nodes, s'.nodes, id, n.queries[q]);
    } else if step.DeliverStep? {
      TrueReadKept(s.nodes, s'.nodes, id, n.queries[q]);
      TrueKept(s.nodes, s'.nodes, step.m.src, n.queries[q].key, step.m.found);
    } else {
      FoundTrue(s.nodes, id, step.key);
      TrueKept(s.nodes, s'.nodes, id, step.key, Find(n.store, step.key));
    }
  }

  lemma FoundTrue(nodes: Nodes, id: NodeId, key: string)
    requires id in nodes
    ensures TrueAnswer(nodes, id, key, Find(nodes[id].store, key))
  {
  }

  /** The key of a read under way does not change. */
  lemma SameKey(cfg: QuorumConfig, s: System, step: Step, s': System, id: NodeId, q: nat)
    requires Moved(cfg, s, step, s') && id in s.nodes && q in s'.nodes[id].queries && q <= s.nodes[id].seqNo
    ensures q in s.nodes[id].queries && s'.nodes[id].queries[q].key == s.nodes[id].queries[q].key
  {
    hide Outcome;
    if id == Actor(step) {
      OutcomeQueries(cfg, s.nodes[id], step, q);
    }
  }

  lemma OldMsgKept(ws: Writes, cfg: QuorumConfig, s: System, step: Step, s': System, m: Message)
    requires Moved(cfg, s, step, s') && AllEvolve(s.nodes, s'.nodes) && ReadMsgOk(s.nodes, m) && m in s.net
    requires TrueMsg(s.nodes, m) && (m.dst in s.nodes ==> MsgFrom(ws, s.nodes[m.dst], m))
    ensures TrueMsg(s'.nodes, m) && (m.dst in s'.nodes ==> MsgFrom(ws, s'.nodes[m.dst], m))
  {
    hide Outcome, AllEvolve, TrueAnswer, Consumed;
    if m.ReadResp? && m.dst in s'.nodes && m.seqNo in s'.nodes[m.dst].queries {
      SameKey(cfg, s, step, s', m.dst, m.seqNo);
      TrueKept(s.nodes, s'.nodes, m.src, s.nodes[m.dst].queries[m.seqNo].key, m.found);
    }
  }

  lemma NewMsgSound(ws: Writes, cfg: QuorumConfig, s: System, step: Step, s': System, m: Message)
    requires Moved(cfg, s, step, s') && AllEvolve(s.nodes, s'.nodes)
    requires m in Outcome(cfg, s.nodes[Actor(step)], step).out
    requires OutFrom(ws, Outcome(cfg, s.nodes[Actor(step)], step).out) && NodeFrom(ws, s.nodes[Actor(step)])
    requires step.DeliverStep? ==> ReadMsgOk(s.nodes, step.m)
    ensures TrueMsg(s'.nodes, m) && (m.dst in s'.nodes ==> MsgFrom(ws, s'.nodes[m.dst], m))
  {
    hide AllEvolve, TrueAnswer, Consumed, Outcome;
    OutShape(cfg, s.nodes[Actor(step)], step, m);
    if m.ReadResp? && m.dst in s'.nodes && m.seqNo in s'.nodes[m.dst].queries {
      SameKey(cfg, s, step, s', m.dst, m.seqNo);
      FoundTrue(s.nodes, m.src, step.m.key);
      TrueKept(s.nodes, s'.nodes, m.src, step.m.key, m.found);
    }
  }

  lemma StepKeepsSound(members: set<NodeId>, cfg: QuorumConfig, ws: Writes, s: System, step: Step, s': System)
    requires Next(members, cfg, s, step, s') && ReadInv(s.nodes, s.net) && Sound(ws, s) && WritesOf(step) <= ws
    ensures Sound(ws, s')
  {
    hide Outcome, NodeFrom, TrueRead, TrueMsg, MsgFrom, ReadMsgOk, Slots, QueriesOk, AllEvolve, Others, Sample, OutFrom;
    StepEvolves(members, cfg, s, step, s');
    if !step.DropStep? {
      assert Moved(cfg, s, step, s');
      var id := Actor(step);
      OutcomeFrom(ws, cfg, s.nodes[id], step);
      assert s'.nodes.Keys == s.nodes.Keys;
      forall j, q | j in s'.nodes && q in s'.nodes[j].queries
        ensures TrueRead(s'.nodes, j, s'.nodes[j].queries[q])
      {
        if j == id {
          ActorTrue(cfg, s, step, s', q);
        } else {
          TrueReadKept(s.nodes, s'.nodes, j, s.nodes[j].queries[q]);
        }
      }
      forall m | m in s'.net
        ensures TrueMsg(s'.nodes, m) && (m.dst in s'.nodes ==> MsgFrom(ws, s'.nodes[m.dst], m))
        ensures Offers(m) ==> (m.key, m.entry) in ws
      {
        if m in s.net {
          OldMsgKept(ws, cfg, s, step, s', m);
        } else {
          NewMsgSound(ws, cfg, s, step, s', m);
          OfferFrom(ws, Outcome(cfg, s.nodes[id], step).out, m);
        }
      }
    }
  }

  lemma OfferFrom(ws: Writes, out: seq<Message>, m: Message)
    requires OutFrom(ws, out) && m in out
    ensures Offers(m) ==> (m.key, m.entry) in ws
  {
  }

  lemma SoundMore(ws: Writes, more: Writes, s: System)
    requires Sound(ws, s)
    ensures Sound(ws + more, s)
  {
    hide TrueRead, TrueMsg, NodeFrom;
    forall id | id in s.nodes
      ensures NodeFrom(ws + more, s.nodes[id])
    {
      NodeFromMore(ws, more, s.nodes[id]);
    }
  }

  // ---------------------------------------------------------------- runs

  function AllWrites(steps: seq<Step>): Writes
  {
    if steps == [] then {} else AllWrites(steps[..|steps| - 1]) + WritesOf(steps[|steps| - 1])
  }

  /** The entry was written to the key by step i. */
  predicate WrittenAt(steps: seq<Step>, i: nat, key: string, e: Entry)
  {
    i < |steps| && steps[i].WriteStep? && steps[i].key == key && steps[i].entry == e
  }

  lemma {:induction false} SomeStep(steps: seq<Step>, key: string, e: Entry) returns (i: nat)
    requires (key, e) in AllWrites(steps)
    ensures WrittenAt(steps, i, key, e)
  {
    var init := steps[..|steps| - 1];
    if (key, e) in AllWrites(init) {
      i := SomeStep(init, key, e);
    } else {
      i := |steps| - 1;
    }
  }

  lemma {:induction false} RunSound(members: set<NodeId>, cfg: QuorumConfig, tr: seq<System>, steps: seq<Step>, j: nat)
    requires IsRun(members, cfg, tr, steps) && j < |tr|
    ensures Sound(AllWrites(steps[..j]), tr[j])
    decreases j
  {
    hide Next, Sound, Inv;
    if j == 0 {
      InitSound(members);
    } else {
      RunSound(members, cfg, tr, steps, j - 1);
      RunKeepsInv(members, cfg, tr, steps, j - 1);
      InvReads(members, tr[j - 1]);
      assert Next(members, cfg, tr[j - 1], steps[j - 1], tr[j]);
      assert steps[..j][..j - 1] == steps[..j - 1];
      SoundMore(AllWrites(steps[..j - 1]), WritesOf(steps[j - 1]), tr[j - 1]);
      StepKeepsSound(members, cfg, AllWrites(steps[..j]), tr[j - 1], steps[j - 1], tr[j]);
    }
  }

  lemma InitSound(members: set<NodeId>)
    ensures Sound({}, Init(members))
  {
  }

  /** Whatever a replica stores of a key was written to that key. */
  lemma StoredWasWritten(members: set<NodeId>, cfg: QuorumConfig, tr: seq<System>, steps: seq<Step>, j: nat, id: NodeId,
                         key: string)
    returns (i: nat)
    requires IsRun(members, cfg, tr, steps) && j < |tr| && id in tr[j].nodes && key in tr[j].nodes[id].store
    ensures i < j && WrittenAt(steps, i, key, tr[j].nodes[id].store[key])
  {
    hide Next;
    RunSound(members, cfg, tr, steps, j);
    assert NodeFrom(AllWrites(steps[..j]), tr[j].nodes[id]);
    i := SomeStep(steps[..j], key, tr[j].nodes[id].store[key]);
  }

  /** Whatever a read finds was written to its key, and is live. */
  lemma FoundWasWritten(members: set<NodeId>, cfg: QuorumConfig, tr: seq<System>, steps: seq<Step>, j: nat, id: NodeId,
                        q: nat, best: Entry)
    returns (i: nat)
    requires IsRun(members, cfg, tr, steps) && j < |tr| && id in tr[j].nodes && q in tr[j].nodes[id].queries
    requires ReplyOf(tr[j].nodes[id].queries[q], cfg.R) == Found(best)
    ensures i < j && WrittenAt(steps, i, tr[j].nodes[id].queries[q].key, best) && !best.tombstone
  {
    hide Next, Winner;
    RunSound(members, cfg, tr, steps, j);
    assert NodeFrom(AllWrites(steps[..j]), tr[j].nodes[id]);
    WinnerFrom(AllWrites(steps[..j]), tr[j].nodes[id].queries[q]);
    i := SomeStep(steps[..j], tr[j].nodes[id].queries[q].key, best);
  }
}
