/**
 What leaderless coordination reaches (internal/node/leaderless.go): from any reachable state, once what
 a write, a read, a repair or a handoff has sent is delivered, every replica it is for has it. Nothing
 here says that messages arrive; it says to whom they go and what they do there.
 */
module LeaderlessDelivery {
  import opened Storage
  import opened Lww
  import opened Quorums
  import opened LeaderlessModel
  import opened LeaderlessFreshness
  import opened LeaderlessValidity

  // ---------------------------------------------------------------- who is sent what

  lemma {:induction false} WritesTo(id: NodeId, q: nat, key: string, e: Entry, targets: seq<NodeId>)
    ensures |WriteMsgs(id, q, key, e, targets)| == |targets|
    ensures forall i :: 0 <= i < |targets| ==>
      WriteMsgs(id, q, key, e, targets)[i] == WriteMsg(id, targets[i], q, key, e)
  {
    if targets != [] {
      WritesTo(id, q, key, e, targets[..|targets| - 1]);
    }
  }

  lemma {:induction false} ReadsTo(id: NodeId, q: nat, key: string, targets: seq<NodeId>)
    ensures |ReadMsgs(id, q, key, targets)| == |targets|
    ensures forall i :: 0 <= i < |targets| ==> ReadMsgs(id, q, key, targets)[i] == ReadMsg(id, targets[i], q, key)
  {
    if targets != [] {
      ReadsTo(id, q, key, targets[..|targets| - 1]);
    }
  }

  lemma {:induction false} RepairsTo(id: NodeId, key: string, e: Entry, targets: seq<NodeId>)
    ensures |RepairMsgs(id, key, e, targets)| == |targets|
    ensures forall i :: 0 <= i < |targets| ==> RepairMsgs(id, key, e, targets)[i] == RepairMsg(id, targets[i], key, e)
  {
    if targets != [] {
      RepairsTo(id, key, e, targets[..|targets| - 1]);
    }
  }

  lemma {:induction false} HandoffsTo(id: NodeId, hints: seq<Hint>)
    ensures |HandoffMsgs(id, hints)| == |hints|
    ensures forall i :: 0 <= i < |hints| ==>
      HandoffMsgs(id, hints)[i] == HandoffMsg(id, hints[i].target, hints[i].key, hints[i].entry)
  {
    if hints != [] {
      HandoffsTo(id, hints[..|hints| - 1]);
    }
  }

  /** The entry, for a target that has not acknowledged it. */
  predicate Owed(p: PendingWrite, targets: seq<NodeId>, h: Hint)
  {
    h.target in targets && h.target !in p.acked && h.key == p.key && h.entry == p.entry
  }

  /** A hint for every target that has not acknowledged, and for nobody else. */
  lemma {:induction false} HintsAre(p: PendingWrite, targets: seq<NodeId>, h: Hint)
    ensures h in HintsFor(p, targets) <==> Owed(p, targets, h)
  {
    if targets != [] {
      HintsAre(p, targets[..|targets| - 1], h);
      assert targets == targets[..|targets| - 1] + [targets[|targets| - 1]];
    }
  }

  /** A read repairs the responders that have nothing or something older, and nobody else. */
  lemma {:induction false} StaleAre(best: Entry, resps: seq<Response>, t: NodeId)
    ensures t in Stale(best, resps) <==>
      exists r :: r in resps && r.src == t && (r.found.None? || Older(r.found.value, best))
  {
    if resps != [] {
      var init, last := resps[..|resps| - 1], resps[|resps| - 1];
      assert resps == init + [last];
      StaleAre(best, init, t);
      if last.found.Some? {
        StampsOrdered(last.found.value, best);
      }
      if t in Stale(best, init) {
        var r :| r in init && r.src == t && (r.found.None? || Older(r.found.value, best));
        assert r in resps;
      } else if t in Stale(best, resps) {
        assert last in resps && last.src == t;
      }
    }
  }

  // ---------------------------------------------------------------- reachable states and deliveries

  ghost predicate RunTo(members: set<NodeId>, cfg: QuorumConfig, tr: seq<System>, steps: seq<Step>, s: System)
  {
    IsRun(members, cfg, tr, steps) && tr[|steps|] == s
  }

  ghost predicate Reachable(members: set<NodeId>, cfg: QuorumConfig, s: System)
  {
    exists tr, steps :: RunTo(members, cfg, tr, steps, s)
  }

  lemma ReachNext(members: set<NodeId>, cfg: QuorumConfig, s: System, step: Step, s': System)
    requires Reachable(members, cfg, s) && Next(members, cfg, s, step, s')
    ensures Reachable(members, cfg, s')
  {
    hide Next;
    var tr, steps :| RunTo(members, cfg, tr, steps, s);
    var tr', steps' := tr + [s'], steps + [step];
    forall i | 0 <= i < |steps'|
      ensures Next(members, cfg, tr'[i], steps'[i], tr'[i + 1])
    {
      if i < |steps| {
        assert Next(members, cfg, tr[i], steps[i], tr[i + 1]);
      }
    }
    assert RunTo(members, cfg, tr', steps', s');
  }

  lemma ReachInv(members: set<NodeId>, cfg: QuorumConfig, s: System)
    requires Reachable(members, cfg, s)
    ensures Inv(members, s) && s.nodes.Keys == members
  {
    hide WriteInv, ReadInv, Next;
    var tr, steps :| RunTo(members, cfg, tr, steps, s);
    RunKeepsInv(members, cfg, tr, steps, |steps|);
  }

  ghost predicate Passes(members: set<NodeId>, cfg: QuorumConfig, tr: seq<System>, ms: seq<Message>)
  {
    && |tr| == |ms| + 1
    && forall i :: 0 <= i < |ms| ==> Next(members, cfg, tr[i], DeliverStep(ms[i]), tr[i + 1])
  }

  ghost predicate Connects(members: set<NodeId>, cfg: QuorumConfig, s: System, ms: seq<Message>, s': System,
                           tr: seq<System>)
  {
    Passes(members, cfg, tr, ms) && tr[0] == s && tr[|ms|] == s'
  }

  /** Delivering these messages, in this order, leads from one state to the other. */
  ghost predicate Leads(members: set<NodeId>, cfg: QuorumConfig, s: System, ms: seq<Message>, s': System)
  {
    exists tr :: Connects(members, cfg, s, ms, s', tr)
  }

  lemma LeadsNowhere(members: set<NodeId>, cfg: QuorumConfig, s: System)
    ensures Leads(members, cfg, s, [], s)
  {
    assert Connects(members, cfg, s, [], s, [s]);
  }

  lemma LeadsOn(members: set<NodeId>, cfg: QuorumConfig, s: System, ms: seq<Message>, mid: System, ms': seq<Message>,
                s': System)
    requires Leads(members, cfg, s, ms, mid) && Leads(members, cfg, mid, ms', s')
    ensures Leads(members, cfg, s, ms + ms', s')
  {
    hide Next;
    var tr :| Connects(members, cfg, s, ms, mid, tr);
    var tr' :| Connects(members, cfg, mid, ms', s', tr');
    assert Connects(members, cfg, s, ms + ms', s', tr[..|ms|] + tr');
  }

  lemma LeadsStep(members: set<NodeId>, cfg: QuorumConfig, s: System, m: Message, s': System)
    requires Next(members, cfg, s, DeliverStep(m), s')
    ensures Leads(members, cfg, s, [m], s')
  {
    hide Next;
    assert Connects(members, cfg, s, [m], s', [s, s']);
  }

  lemma Deliver(members: set<NodeId>, cfg: QuorumConfig, s: System, ms: seq<Message>, mid: System, m: Message)
    returns (s': System)
    requires Reachable(members, cfg, mid) && Leads(members, cfg, s, ms, mid) && m in mid.net && m.dst in members
    ensures Leads(members, cfg, s, ms + [m], s') && Reachable(members, cfg, s') && mid.nodes.Keys == members
    ensures var e := Handle(m.dst, mid.nodes[m.dst], m);
      s'.nodes == mid.nodes[m.dst := e.node] && s'.net == mid.net - multiset{m} + multiset(e.out)
  {
    hide Reachable, Handle, Inv, Leads;
    ReachInv(members, cfg, mid);
    s' := Take(members, cfg, mid, DeliverStep(m));
    assert Next(members, cfg, mid, DeliverStep(m), s');
    ReachNext(members, cfg, mid, DeliverStep(m), s');
    LeadsStep(members, cfg, mid, m, s');
    LeadsOn(members, cfg, s, ms, mid, [m], s');
  }

  // ---------------------------------------------------------------- offers of an entry

  ghost predicate Has(s: System, id: NodeId, key: string, e: Entry)
  {
    id in s.nodes && AtLeast(s.nodes[id].store, key, e)
  }

  ghost predicate Took(s: System, m: Message)
  {
    Offers(m) && Has(s, m.dst, m.key, m.entry)
  }

  /** Apart from the stores, nobody has changed, and what was on its way still is unless it was delivered. */
  ghost predicate OnlyStores(s: System, s': System, gone: set<Message>)
  {
    && s'.nodes.Keys == s.nodes.Keys
    && (forall id :: id in s.nodes ==>
        Grows(s.nodes[id].store, s'.nodes[id].store) && s'.nodes[id] == s.nodes[id].(store := s'.nodes[id].store))
    && forall m :: m in s.net && m !in gone ==> m in s'.net
  }

  lemma OfferTaken(s: System, s': System, m: Message)
    requires Offers(m) && m.dst in s.nodes && m in s.net
    requires var e := Handle(m.dst, s.nodes[m.dst], m);
      s'.nodes == s.nodes[m.dst := e.node] && s'.net == s.net - multiset{m} + multiset(e.out)
    ensures OnlyStores(s, s', {m}) && Took(s', m)
    ensures m.WriteMsg? ==> WriteAck(m.dst, m.src, m.seqNo) in s'.net
  {
    hide Grows, ApplyWrite, AtLeast;
    ApplyGrows(s.nodes[m.dst].store, m.key, m.entry);
    forall id | id in s.nodes
      ensures Grows(s.nodes[id].store, s'.nodes[id].store)
    {
      SelfGrows(s.nodes[id].store);
    }
  }

  lemma GrowsOn(a: Versions, b: Versions, c: Versions)
    requires Grows(a, b) && Grows(b, c)
    ensures Grows(a, c)
  {
    forall key | key in a
      ensures AtLeast(c, key, a[key])
    {
      GrowsKeeps(b, c, key, a[key]);
    }
  }

  lemma OnlyStoresOn(s: System, s1: System, s2: System, gone: set<Message>, m: Message)
    requires OnlyStores(s, s1, gone) && OnlyStores(s1, s2, {m})
    ensures OnlyStores(s, s2, gone + {m})
  {
    hide Grows;
    forall id | id in s.nodes
      ensures Grows(s.nodes[id].store, s2.nodes[id].store)
    {
      GrowsOn(s.nodes[id].store, s1.nodes[id].store, s2.nodes[id].store);
    }
  }

  lemma StillHas(s: System, s': System, gone: set<Message>, id: NodeId, key: string, e: Entry)
    requires OnlyStores(s, s', gone) && Has(s, id, key, e)
    ensures Has(s', id, key, e)
  {
    GrowsKeeps(s.nodes[id].store, s'.nodes[id].store, key, e);
  }

  /** What has been delivered was taken, and acknowledged where that is asked for. */
  ghost predicate AllTook(s: System, gone: set<Message>)
  {
    forall m :: m in gone ==> Took(s, m) && (m.WriteMsg? ==> WriteAck(m.dst, m.src, m.seqNo) in s.net)
  }

  lemma AllTookOn(s: System, s': System, gone: set<Message>, m: Message)
    requires AllTook(s, gone) && OnlyStores(s, s', {m}) && Took(s', m)
    requires m.WriteMsg? ==> WriteAck(m.dst, m.src, m.seqNo) in s'.net
    ensures AllTook(s', gone + {m})
  {
    hide Has, OnlyStores;
    forall x | x in gone
      ensures Took(s', x) && (x.WriteMsg? ==> WriteAck(x.dst, x.src, x.seqNo) in s'.net)
    {
      StillHas(s, s', {m}, x.dst, x.key, x.entry);
      if x.WriteMsg? {
        OtherStays(s, s', m, WriteAck(x.dst, x.src, x.seqNo));
      }
    }
  }

  lemma OtherStays(s: System, s': System, m: Message, x: Message)
    requires OnlyStores(s, s', {m}) && x in s.net && x != m
    ensures x in s'.net
  {
  }

  /** Offers on their way can all be delivered; each is then stored where it was sent, or newer, and acknowledged. */
  lemma {:induction false} DeliverOffers(members: set<NodeId>, cfg: QuorumConfig, s: System, offers: set<Message>)
    returns (ms: seq<Message>, s': System)
    requires Reachable(members, cfg, s)
    requires forall m :: m in offers ==> m in s.net && Offers(m) && m.dst in members
    ensures Leads(members, cfg, s, ms, s') && Reachable(members, cfg, s')
    ensures OnlyStores(s, s', offers) && AllTook(s', offers) && forall m :: m in ms <==> m in offers
    decreases |offers|
  {
    hide Reachable, Handle, OnlyStores, AllTook, Took, Leads;
    if offers == {} {
      ms, s' := [], s;
      LeadsNowhere(members, cfg, s);
      NothingDelivered(s);
    } else {
      var m :| m in offers;
      var rest := offers - {m};
      var ms1, s1 := DeliverOffers(members, cfg, s, rest);
      StillOn(s, s1, rest, m);
      s' := Deliver(members, cfg, s, ms1, s1, m);
      ms := ms1 + [m];
      OfferTaken(s1, s', m);
      OnlyStoresOn(s, s1, s', rest, m);
      AllTookOn(s1, s', rest, m);
      assert rest + {m} == offers;
    }
  }

  lemma NothingDelivered(s: System)
    ensures OnlyStores(s, s, {}) && AllTook(s, {})
  {
  }

  lemma StillOn(s: System, s': System, gone: set<Message>, m: Message)
    requires OnlyStores(s, s', gone) && m in s.net && m !in gone
    ensures m in s'.net
  {
  }

  // ---------------------------------------------------------------- acknowledgements

  /** Only the acknowledgements of one write have changed. */
  ghost predicate OnlyAcks(s: System, s': System, id: NodeId, q: nat, from: set<NodeId>)
  {
    && id in s.nodes && q in s.nodes[id].writes
    && var p := s.nodes[id].writes[q];
    s'.nodes == s.nodes[id := s.nodes[id].(writes := s.nodes[id].writes[q := p.(acked := p.acked + from)])]
  }

  ghost predicate AcksLeft(s: System, s': System, id: NodeId, q: nat, from: set<NodeId>)
  {
    forall t :: t !in from && WriteAck(t, id, q) in s.net ==> WriteAck(t, id, q) in s'.net
  }

  lemma {:induction false} DeliverAcks(members: set<NodeId>, cfg: QuorumConfig, s: System, id: NodeId, q: nat,
                                       from: set<NodeId>)
    returns (ms: seq<Message>, s': System)
    requires Reachable(members, cfg, s) && id in s.nodes && id in members && q in s.nodes[id].writes
    requires forall t :: t in from ==> WriteAck(t, id, q) in s.net
    ensures Leads(members, cfg, s, ms, s') && Reachable(members, cfg, s') && OnlyAcks(s, s', id, q, from)
    ensures AcksLeft(s, s', id, q, from)
    ensures forall m :: m in ms ==> m.WriteAck? && m.src in from && m.dst == id && m.seqNo == q
    decreases |from|
  {
    hide Reachable, Leads, OnlyAcks, AcksLeft, Handle;
    if from == {} {
      ms, s' := [], s;
      LeadsNowhere(members, cfg, s);
      NoAck(s, id, q);
    } else {
      var t :| t in from;
      var rest := from - {t};
      var ms1, s1 := DeliverAcks(members, cfg, s, id, q, rest);
      AckLeft(s, s1, id, q, rest, t);
      s' := Deliver(members, cfg, s, ms1, s1, WriteAck(t, id, q));
      ms := ms1 + [WriteAck(t, id, q)];
      OneAckMore(s, s1, s', id, q, rest, t);
      assert rest + {t} == from;
    }
  }

  lemma NoAck(s: System, id: NodeId, q: nat)
    requires id in s.nodes && q in s.nodes[id].writes
    ensures OnlyAcks(s, s, id, q, {}) && AcksLeft(s, s, id, q, {})
  {
    var p := s.nodes[id].writes[q];
    assert p.(acked := p.acked + {}) == p;
    assert s.nodes[id].writes[q := p] == s.nodes[id].writes;
    assert s.nodes[id := s.nodes[id]] == s.nodes;
  }

  lemma AckLeft(s: System, s1: System, id: NodeId, q: nat, from: set<NodeId>, t: NodeId)
    requires AcksLeft(s, s1, id, q, from) && t !in from && WriteAck(t, id, q) in s.net
    ensures WriteAck(t, id, q) in s1.net
  {
  }

  lemma OneAckMore(s: System, s1: System, s': System, id: NodeId, q: nat, from: set<NodeId>, t: NodeId)
    requires OnlyAcks(s, s1, id, q, from) && AcksLeft(s, s1, id, q, from) && id in s1.nodes
    requires var m := WriteAck(t, id, q); var e := Handle(id, s1.nodes[id], m);
      s'.nodes == s1.nodes[id := e.node] && s'.net == s1.net - multiset{m} + multiset(e.out)
    ensures OnlyAcks(s, s', id, q, from + {t}) && AcksLeft(s, s', id, q, from + {t})
  {
    var p, p1 := s.nodes[id].writes[q], s1.nodes[id].writes[q];
    assert p1.(acked := p1.acked + {t}) == p.(acked := p.acked + (from + {t}));
    assert s1.nodes[id].writes[q := p1.(acked := p1.acked + {t})]
        == s.nodes[id].writes[q := p1.(acked := p1.acked + {t})];
  }

  // ---------------------------------------------------------------- a write

  /** The messages that offer an entry to each of these replicas. */
  function WriteOffers(id: NodeId, q: nat, key: string, e: Entry, to: set<NodeId>): set<Message>
  {
    set t | t in to :: WriteMsg(id, t, q, key, e)
  }

  lemma WritesSent(id: NodeId, q: nat, key: string, e: Entry, targets: seq<NodeId>)
    ensures forall m :: m in WriteOffers(id, q, key, e, Listed(targets)) ==> m in WriteMsgs(id, q, key, e, targets)
  {
    WritesTo(id, q, key, e, targets);
    forall m | m in WriteOffers(id, q, key, e, Listed(targets))
      ensures m in WriteMsgs(id, q, key, e, targets)
    {
      var i :| 0 <= i < |targets| && targets[i] == m.dst;
      assert WriteMsgs(id, q, key, e, targets)[i] == m;
    }
  }

  /** One message to each target, and none elsewhere. */
  lemma {:induction false} WritesOnce(id: NodeId, q: nat, key: string, e: Entry, targets: seq<NodeId>)
    requires Distinct(targets)
    ensures multiset(WriteMsgs(id, q, key, e, targets)) == multiset(WriteOffers(id, q, key, e, Listed(targets)))
  {
    if targets != [] {
      var init, t := targets[..|targets| - 1], targets[|targets| - 1];
      WritesOnce(id, q, key, e, init);
      assert targets == init + [t];
      assert WriteOffers(id, q, key, e, Listed(targets)) ==
        WriteOffers(id, q, key, e, Listed(init)) + {WriteMsg(id, t, q, key, e)};
    }
  }

  /** What the start of a write leaves behind. */
  lemma WriteStarted(members: set<NodeId>, cfg: QuorumConfig, s: System, id: NodeId, key: string, e: Entry,
                     targets: seq<NodeId>, s': System)
    requires Next(members, cfg, s, WriteStep(id, key, e, targets), s')
    ensures id in s.nodes && id in s'.nodes && s'.nodes[id].seqNo == s.nodes[id].seqNo + 1
    ensures var q := s'.nodes[id].seqNo;
      && q in s'.nodes[id].writes && s'.nodes[id].writes[q].acked == {} && !s'.nodes[id].writes[q].repair
      && s'.nodes[id].writes[q].key == key && s'.nodes[id].writes[q].entry == e
      && forall t :: t in members && t != id ==> WriteMsg(id, t, q, key, e) in s'.net
    ensures Has(s', id, key, e)
  {
    hide ApplyWrite, AtLeast, WriteMsgs;
    var q := s.nodes[id].seqNo + 1;
    ApplyGrows(s.nodes[id].store, key, e);
    WritesSent(id, q, key, e, targets);
    forall t | t in members && t != id
      ensures WriteMsg(id, t, q, key, e) in s'.net
    {
      assert t in Listed(targets);
      assert WriteMsg(id, t, q, key, e) in WriteOffers(id, q, key, e, Listed(targets));
      assert WriteMsg(id, t, q, key, e) in WriteMsgs(id, q, key, e, targets);
    }
  }

  /**
   A write reaches every replica: from any reachable state, once what it sent and then the
   acknowledgements are delivered, every member stores the entry or a newer one, and every other member
   is counted.
   */
  lemma WriteReachesAll(members: set<NodeId>, cfg: QuorumConfig, s: System, id: NodeId, key: string, e: Entry,
                        targets: seq<NodeId>, s0: System)
    returns (ms: seq<Message>, s': System)
    requires Reachable(members, cfg, s) && Next(members, cfg, s, WriteStep(id, key, e, targets), s0)
    ensures Leads(members, cfg, s0, ms, s') && Reachable(members, cfg, s')
    ensures forall t :: t in members ==> t in s'.nodes && AtLeast(s'.nodes[t].store, key, e)
    ensures var q := s.nodes[id].seqNo + 1;
      && q in s'.nodes[id].writes && s'.nodes[id].writes[q].acked + {id} == members
      && (cfg.W <= |members| ==> QuorumMet(id, s'.nodes[id].writes[q].acked, cfg.W))
    ensures forall m :: m in ms ==> (m.WriteMsg? && m.src == id) || (m.WriteAck? && m.dst == id)
  {
    hide Reachable, Next, Leads, OnlyStores, AllTook, AtLeast;
    WriteStarted(members, cfg, s, id, key, e, targets, s0);
    var q := s.nodes[id].seqNo + 1;
    ReachNext(members, cfg, s, WriteStep(id, key, e, targets), s0);
    ReachMembers(members, cfg, s0);
    var offers := WriteOffers(id, q, key, e, members - {id});
    var ms1, s1 := DeliverOffers(members, cfg, s0, offers);
    ReachMembers(members, cfg, s1);
    SameWrites(s0, s1, offers, id);
    forall t | t in members - {id}
      ensures WriteAck(t, id, q) in s1.net && Has(s1, t, key, e)
    {
      OfferTook(s1, offers, WriteMsg(id, t, q, key, e));
    }
    StillHas(s0, s1, offers, id, key, e);
    var ms2, s2 := DeliverAcks(members, cfg, s1, id, q, members - {id});
    LeadsOn(members, cfg, s0, ms1, s1, ms2, s2);
    ms, s' := ms1 + ms2, s2;
    assert {} + (members - {id}) + {id} == members;
  }

  lemma ReachMembers(members: set<NodeId>, cfg: QuorumConfig, s: System)
    requires Reachable(members, cfg, s)
    ensures s.nodes.Keys == members
  {
    ReachInv(members, cfg, s);
  }

  lemma SameWrites(s: System, s': System, gone: set<Message>, id: NodeId)
    requires OnlyStores(s, s', gone) && id in s.nodes
    ensures id in s'.nodes && s'.nodes[id].writes == s.nodes[id].writes
  {
  }

  lemma OfferTook(s: System, gone: set<Message>, m: Message)
    requires AllTook(s, gone) && m in gone && m.WriteMsg?
    ensures WriteAck(m.dst, m.src, m.seqNo) in s.net && Has(s, m.dst, m.key, m.entry)
  {
  }

  // ---------------------------------------------------------------- hints

  lemma HintsKept(s: System, id: NodeId, q: nat, targets: seq<NodeId>, s0: System, t: NodeId)
    requires id in s.nodes && q in s.nodes[id].writes && !s.nodes[id].writes[q].repair
    requires s0.nodes == s.nodes[id := EndWrite(s.nodes[id], q, targets).node]
    requires t in targets && t !in s.nodes[id].writes[q].acked
    ensures Hint(t, s.nodes[id].writes[q].key, s.nodes[id].writes[q].entry) in s0.nodes[id].hints
  {
    hide HintsFor;
    var p := s.nodes[id].writes[q];
    HintsAre(p, targets, Hint(t, p.key, p.entry));
  }

  lemma HintSent(id: NodeId, hints: seq<Hint>, h: Hint)
    requires h in hints
    ensures HandoffMsg(id, h.target, h.key, h.entry) in HandoffMsgs(id, hints)
  {
    HandoffsTo(id, hints);
    var i :| 0 <= i < |hints| && hints[i] == h;
    assert HandoffMsgs(id, hints)[i] == HandoffMsg(id, h.target, h.key, h.entry);
  }

  /**
   A write reaches every replica by handoff: when it ends, with whatever acknowledgements, and the
   hints are sent and delivered, every member stores its entry or a newer one.
   */
  lemma HandoffReachesAll(members: set<NodeId>, cfg: QuorumConfig, s: System, id: NodeId, q: nat, targets: seq<NodeId>,
                          s0: System, s1: System)
    returns (ms: seq<Message>, s': System)
    requires Reachable(members, cfg, s) && id in s.nodes && q in s.nodes[id].writes && !s.nodes[id].writes[q].repair
    requires Next(members, cfg, s, EndWriteStep(id, q, targets), s0) && Next(members, cfg, s0, HandoffStep(id), s1)
    ensures Leads(members, cfg, s1, ms, s') && Reachable(members, cfg, s')
    ensures var p := s.nodes[id].writes[q];
      forall t :: t in members ==> t in s'.nodes && AtLeast(s'.nodes[t].store, p.key, p.entry)
    ensures forall m :: m in ms ==> m.HandoffMsg? && m.src == id
  {
    hide Reachable, Next, Leads, OnlyStores, AllTook, AtLeast, HintsFor, HandoffMsgs, WriteInv, ReadInv;
    var p := s.nodes[id].writes[q];
    ReachInv(members, cfg, s);
    ReachNext(members, cfg, s, EndWriteStep(id, q, targets), s0);
    ReachNext(members, cfg, s0, HandoffStep(id), s1);
    ReachMembers(members, cfg, s1);
    HandoffStates(members, cfg, s, id, q, targets, s0, s1);
    var silent := members - {id} - p.acked;
    var offers := set t | t in silent :: HandoffMsg(id, t, p.key, p.entry);
    forall m | m in offers
      ensures m in s1.net
    {
      HintsKept(s, id, q, targets, s0, m.dst);
      HintSent(id, s0.nodes[id].hints, Hint(m.dst, p.key, p.entry));
    }
    ms, s' := DeliverOffers(members, cfg, s1, offers);
    forall t | t in members
      ensures Has(s', t, p.key, p.entry)
    {
      if t in silent {
        OfferHeld(s', offers, HandoffMsg(id, t, p.key, p.entry));
      } else {
        AckedHas(members, s, id, q, t);
        SameStoreHas(s, s1, t, p.key, p.entry);
        StillHas(s1, s', offers, t, p.key, p.entry);
      }
    }
  }

  lemma HandoffStates(members: set<NodeId>, cfg: QuorumConfig, s: System, id: NodeId, q: nat, targets: seq<NodeId>,
                      s0: System, s1: System)
    requires id in s.nodes && q in s.nodes[id].writes
    requires Next(members, cfg, s, EndWriteStep(id, q, targets), s0) && Next(members, cfg, s0, HandoffStep(id), s1)
    ensures Listed(targets) == members - {id} && s0.nodes == s.nodes[id := EndWrite(s.nodes[id], q, targets).node]
    ensures forall m :: m in HandoffMsgs(id, s0.nodes[id].hints) ==> m in s1.net
    ensures s1.nodes.Keys == s.nodes.Keys && forall t :: t in s.nodes ==> s1.nodes[t].store == s.nodes[t].store
  {
    hide HintsFor, HandoffMsgs;
  }

  lemma AckedHas(members: set<NodeId>, s: System, id: NodeId, q: nat, t: NodeId)
    requires Inv(members, s) && id in s.nodes && q in s.nodes[id].writes && !s.nodes[id].writes[q].repair
    requires t == id || t in s.nodes[id].writes[q].acked
    ensures Has(s, t, s.nodes[id].writes[q].key, s.nodes[id].writes[q].entry)
  {
    hide ReadInv, AtLeast, WriteMsgOk;
    assert WritesOk(s.nodes, id, s.nodes[id]);
    assert PendingOk(s.nodes, id, s.nodes[id].writes[q]);
  }

  lemma SameStoreHas(s: System, s': System, t: NodeId, key: string, e: Entry)
    requires Has(s, t, key, e) && t in s'.nodes && s'.nodes[t].store == s.nodes[t].store
    ensures Has(s', t, key, e)
  {
  }

  lemma OfferHeld(s: System, gone: set<Message>, m: Message)
    requires AllTook(s, gone) && m in gone && Offers(m)
    ensures Has(s, m.dst, m.key, m.entry)
  {
  }

  // ---------------------------------------------------------------- read repair

  lemma ReachSound(members: set<NodeId>, cfg: QuorumConfig, s: System) returns (ws: Writes)
    requires Reachable(members, cfg, s)
    ensures Sound(ws, s)
  {
    hide Next, Sound;
    var tr, steps :| RunTo(members, cfg, tr, steps, s);
    RunSound(members, cfg, tr, steps, |steps|);
    ws := AllWrites(steps[..|steps|]);
  }

  /** A repair goes to every stale responder, one way or the other. */
  lemma RepairSent(id: NodeId, n: Node, p: PendingRead, best: Entry, sync: bool, t: NodeId) returns (m: Message)
    requires Solid(best) && t in Stale(best, p.resps)
    ensures m in Repair(id, n, p, best, sync).out && Offers(m) && m.dst == t && m.key == p.key && m.entry == best
  {
    hide Stale, WriteMsgs, RepairMsgs, ApplyWrite, Wins;
    var stale := Stale(best, p.resps);
    var i :| 0 <= i < |stale| && stale[i] == t;
    WritesTo(id, n.seqNo + 1, p.key, best, stale);
    RepairsTo(id, p.key, best, stale);
    m := Repair(id, n, p, best, sync).out[i];
  }

  /** The coordinator's own copy after a repair. */
  lemma RepairOwn(id: NodeId, n: Node, p: PendingRead, best: Entry, sync: bool)
    requires Solid(best) && (p.local.Some? ==> AtLeast(n.store, p.key, p.local.value))
    ensures AtLeast(Repair(id, n, p, best, sync).node.store, p.key, best)
  {
    hide Stale, WriteMsgs, RepairMsgs;
    ApplyGrows(n.store, p.key, best);
    if p.local.Some? {
      StampsOrdered(p.local.value, best);
      if !Wins(best, p.local.value) {
        AtMostTransitive(best, p.local.value, n.store[p.key]);
      }
    }
  }

  /** What the end of a read that can answer does to the system. */
  lemma EndReadIs(members: set<NodeId>, cfg: QuorumConfig, s: System, id: NodeId, q: nat, sync: bool, s0: System,
                  best: Entry)
    requires Next(members, cfg, s, EndReadStep(id, q, sync), s0) && id in s.nodes && q in s.nodes[id].queries
    requires ReplyOf(s.nodes[id].queries[q], cfg.R) != QuorumNotMet && Winner(s.nodes[id].queries[q]) == Some(best)
    ensures var p := s.nodes[id].queries[q];
      var e := Repair(id, s.nodes[id].(queries := s.nodes[id].queries - {q}), p, best, sync);
      s0.nodes == s.nodes[id := e.node] && s0.net == s.net + multiset(e.out)
  {
    hide Winner, Repair;
  }

  /**
   A read repairs whom it heard: from any reachable state, once the repairs of a read that can answer
   are delivered, the reader and every responder store the version it settled on, or a newer one.
   */
  lemma RepairReachesAll(members: set<NodeId>, cfg: QuorumConfig, s: System, id: NodeId, q: nat, sync: bool, s0: System,
                         best: Entry)
    returns (ms: seq<Message>, s': System)
    requires Reachable(members, cfg, s) && Next(members, cfg, s, EndReadStep(id, q, sync), s0)
    requires id in s.nodes && q in s.nodes[id].queries && ReplyOf(s.nodes[id].queries[q], cfg.R) != QuorumNotMet
    requires Winner(s.nodes[id].queries[q]) == Some(best) && (best.value.Some? || best.tombstone)
    ensures Leads(members, cfg, s0, ms, s') && Reachable(members, cfg, s')
    ensures var p := s.nodes[id].queries[q];
      && id in s'.nodes && AtLeast(s'.nodes[id].store, p.key, best)
      && forall r :: r in p.resps ==> r.src in s'.nodes && AtLeast(s'.nodes[r.src].store, p.key, best)
  {
    hide Reachable, Next, Leads, OnlyStores, AllTook, AtLeast, Repair, Winner, Stale, Inv, ReplyOf, Offers;
    var p := s.nodes[id].queries[q];
    var ws := ReachSound(members, cfg, s);
    var n := s.nodes[id].(queries := s.nodes[id].queries - {q});
    var e := Repair(id, n, p, best, sync);
    ReachInv(members, cfg, s);
    InvResponders(members, s, id, q);
    ReachNext(members, cfg, s, EndReadStep(id, q, sync), s0);
    ReachMembers(members, cfg, s0);
    EndReadIs(members, cfg, s, id, q, sync, s0, best);
    TrueOf(ws, s, id, q);
    RepairOwn(id, n, p, best, sync);
    var offers := set m | m in e.out && Offers(m) && m.dst in members;
    ms, s' := DeliverOffers(members, cfg, s0, offers);
    StillHas(s0, s', offers, id, p.key, best);
    forall r | r in p.resps
      ensures Has(s', r.src, p.key, best)
    {
      ResponderHas(members, s, s0, s', id, n, p, best, sync, offers, r);
    }
  }

  lemma TrueOf(ws: Writes, s: System, id: NodeId, q: nat)
    requires Sound(ws, s) && id in s.nodes && q in s.nodes[id].queries
    ensures var p := s.nodes[id].queries[q];
      && (p.local.Some? ==> AtLeast(s.nodes[id].store, p.key, p.local.value))
      && forall r :: r in p.resps && r.found.Some? ==> Has(s, r.src, p.key, r.found.value)
  {
    hide NodeFrom, TrueMsg, MsgFrom, AtLeast;
    assert TrueRead(s.nodes, id, s.nodes[id].queries[q]);
  }

  lemma ResponderHas(members: set<NodeId>, s: System, s0: System, s': System, id: NodeId, n: Node, p: PendingRead,
                     best: Entry, sync: bool, offers: set<Message>, r: Response)
    requires Solid(best) && r in p.resps && Responders(members, id, p.resps) && s0.nodes.Keys == members
    requires r.found.Some? ==> Has(s, r.src, p.key, r.found.value)
    requires s0.nodes == s.nodes[id := Repair(id, n, p, best, sync).node]
    requires offers == set m | m in Repair(id, n, p, best, sync).out && Offers(m) && m.dst in members
    requires OnlyStores(s0, s', offers) && AllTook(s', offers)
    ensures Has(s', r.src, p.key, best)
  {
    hide OnlyStores, AllTook, Repair, Stale, AtLeast;
    StaleAre(best, p.resps, r.src);
    if r.src in Stale(best, p.resps) {
      var m := RepairSent(id, n, p, best, sync, r.src);
      assert m in offers;
      OfferHeld(s', offers, m);
    } else {
      assert r.found.Some? && !Older(r.found.value, best);
      NewerHas(s, r.src, p.key, r.found.value, best);
      SameStoreHas(s, s0, r.src, p.key, best);
      StillHas(s0, s', offers, r.src, p.key, best);
    }
  }

  lemma NewerHas(s: System, id: NodeId, key: string, e: Entry, best: Entry)
    requires Has(s, id, key, e) && !Older(e, best)
    ensures Has(s, id, key, best)
  {
    StampsOrdered(best, e);
    AtMostTransitive(best, e, s.nodes[id].store[key]);
  }

  // ---------------------------------------------------------------- reads

  function Answer(nodes: Nodes, t: NodeId, key: string): Option<Entry>
  {
    if t in nodes && key in nodes[t].store then Some(nodes[t].store[key]) else None
  }

  ghost predicate Asked(s: System, s': System, id: NodeId, q: nat, key: string, to: set<NodeId>)
  {
    && s'.nodes == s.nodes
    && (forall t :: t in to ==> ReadResp(t, id, q, Answer(s.nodes, t, key)) in s'.net)
    && (forall t :: t !in to && ReadMsg(id, t, q, key) in s.net ==> ReadMsg(id, t, q, key) in s'.net)
  }

  lemma {:induction false} DeliverRequests(members: set<NodeId>, cfg: QuorumConfig, s: System, id: NodeId, q: nat,
                                           key: string, to: set<NodeId>)
    returns (ms: seq<Message>, s': System)
    requires Reachable(members, cfg, s) && to <= members && forall t :: t in to ==> ReadMsg(id, t, q, key) in s.net
    ensures Leads(members, cfg, s, ms, s') && Reachable(members, cfg, s') && Asked(s, s', id, q, key, to)
    ensures forall m :: m in ms ==> m.ReadMsg? && m.src == id && m.seqNo == q
    decreases |to|
  {
    hide Reachable, Leads, Handle, Asked;
    if to == {} {
      ms, s' := [], s;
      LeadsNowhere(members, cfg, s);
      assert Asked(s, s, id, q, key, {}) by { NobodyAsked(s, id, q, key); }
    } else {
      var t :| t in to;
      var ms1, s1 := DeliverRequests(members, cfg, s, id, q, key, to - {t});
      NotAskedYet(s, s1, id, q, key, to - {t}, t);
      s' := Deliver(members, cfg, s, ms1, s1, ReadMsg(id, t, q, key));
      ms := ms1 + [ReadMsg(id, t, q, key)];
      OneMoreAsked(s, s1, s', id, q, key, to - {t}, t);
      assert to - {t} + {t} == to;
    }
  }

  lemma NobodyAsked(s: System, id: NodeId, q: nat, key: string)
    ensures Asked(s, s, id, q, key, {})
  {
  }

  lemma NotAskedYet(s: System, s1: System, id: NodeId, q: nat, key: string, to: set<NodeId>, t: NodeId)
    requires Asked(s, s1, id, q, key, to) && t !in to && ReadMsg(id, t, q, key) in s.net
    ensures ReadMsg(id, t, q, key) in s1.net
  {
  }

  lemma OneMoreAsked(s: System, s1: System, s': System, id: NodeId, q: nat, key: string, to: set<NodeId>, t: NodeId)
    requires Asked(s, s1, id, q, key, to) && t in s1.nodes
    requires var m := ReadMsg(id, t, q, key); var e := Handle(t, s1.nodes[t], m);
      s'.nodes == s1.nodes[t := e.node] && s'.net == s1.net - multiset{m} + multiset(e.out)
    ensures Asked(s, s', id, q, key, to + {t})
  {
    assert s1.nodes[t := s1.nodes[t]] == s1.nodes;
  }

  /** The read has these nodes' answers, each once, on top of what it had. */
  ghost predicate Heard(p: PendingRead, p': PendingRead, nodes: Nodes, from: set<NodeId>)
  {
    && p' == p.(resps := p'.resps) && |p'.resps| == |p.resps| + |from|
    && (forall t :: t in from ==> Response(t, Answer(nodes, t, p.key)) in p'.resps)
    && (forall r :: r in p'.resps ==> r in p.resps || (r.src in from && r.found == Answer(nodes, r.src, p.key)))
  }

  ghost predicate AnswersLeft(s: System, s': System, id: NodeId, q: nat, nodes: Nodes, key: string, from: set<NodeId>)
  {
    forall t :: t !in from && ReadResp(t, id, q, Answer(nodes, t, key)) in s.net ==>
      ReadResp(t, id, q, Answer(nodes, t, key)) in s'.net
  }

  lemma {:induction false} DeliverAnswers(members: set<NodeId>, cfg: QuorumConfig, s: System, id: NodeId, q: nat,
                                          nodes: Nodes, from: set<NodeId>)
    returns (ms: seq<Message>, s': System)
    requires Reachable(members, cfg, s) && id in members && id in s.nodes && q in s.nodes[id].queries
    requires |s.nodes[id].queries[q].resps| + |from| <= s.nodes[id].queries[q].needed
    requires forall t :: t in from ==> ReadResp(t, id, q, Answer(nodes, t, s.nodes[id].queries[q].key)) in s.net
    ensures Leads(members, cfg, s, ms, s') && Reachable(members, cfg, s')
    ensures id in s'.nodes && q in s'.nodes[id].queries
    ensures Heard(s.nodes[id].queries[q], s'.nodes[id].queries[q], nodes, from)
    ensures AnswersLeft(s, s', id, q, nodes, s.nodes[id].queries[q].key, from)
    ensures forall m :: m in ms ==> m.ReadResp? && m.dst == id && m.seqNo == q
    decreases |from|
  {
    hide Reachable, Leads, Handle, AnswersLeft, Answer;
    if from == {} {
      ms, s' := [], s;
      LeadsNowhere(members, cfg, s);
      NothingHeard(s, id, q, nodes);
    } else {
      var t :| t in from;
      var rest, p := from - {t}, s.nodes[id].queries[q];
      assert |from| == |rest| + 1;
      var ms1, s1 := DeliverAnswers(members, cfg, s, id, q, nodes, rest);
      var m := ReadResp(t, id, q, Answer(nodes, t, p.key));
      NotHeardYet(s, s1, id, q, nodes, p.key, rest, t);
      s' := Deliver(members, cfg, s, ms1, s1, m);
      ms := ms1 + [m];
      OneMoreHeard(s1.nodes[id], id, q, t, Answer(nodes, t, p.key));
      HeardMore(p, s1.nodes[id].queries[q], s'.nodes[id].queries[q], nodes, rest, t);
      OneLeft(s, s1, s', id, q, nodes, p.key, rest, t);
      assert rest + {t} == from;
    }
  }

  lemma NothingHeard(s: System, id: NodeId, q: nat, nodes: Nodes)
    requires id in s.nodes && q in s.nodes[id].queries
    ensures Heard(s.nodes[id].queries[q], s.nodes[id].queries[q], nodes, {})
    ensures AnswersLeft(s, s, id, q, nodes, s.nodes[id].queries[q].key, {})
  {
  }

  lemma NotHeardYet(s: System, s1: System, id: NodeId, q: nat, nodes: Nodes, key: string, from: set<NodeId>, t: NodeId)
    requires AnswersLeft(s, s1, id, q, nodes, key, from) && t !in from
    requires ReadResp(t, id, q, Answer(nodes, t, key)) in s.net
    ensures ReadResp(t, id, q, Answer(nodes, t, key)) in s1.net
  {
  }

  lemma OneLeft(s: System, s1: System, s': System, id: NodeId, q: nat, nodes: Nodes, key: string, from: set<NodeId>,
                t: NodeId)
    requires AnswersLeft(s, s1, id, q, nodes, key, from)
    requires s1.net - multiset{ReadResp(t, id, q, Answer(nodes, t, key))} <= s'.net
    ensures AnswersLeft(s, s', id, q, nodes, key, from + {t})
  {
  }

  /** An answer to a read that still waits is added to it. */
  lemma OneMoreHeard(n: Node, id: NodeId, q: nat, t: NodeId, found: Option<Entry>)
    requires q in n.queries && |n.queries[q].resps| < n.queries[q].needed
    ensures var n' := Handle(id, n, ReadResp(t, id, q, found)).node;
      q in n'.queries && n'.queries[q] == n.queries[q].(resps := n.queries[q].resps + [Response(t, found)])
  {
  }

  lemma HeardMore(p: PendingRead, p1: PendingRead, p': PendingRead, nodes: Nodes, from: set<NodeId>, t: NodeId)
    requires Heard(p, p1, nodes, from) && t !in from
    requires p' == p1.(resps := p1.resps + [Response(t, Answer(nodes, t, p.key))])
    ensures Heard(p, p', nodes, from + {t})
  {
    hide Answer;
    assert |from + {t}| == |from| + 1;
  }

  /** What a read of a key that asked these nodes has to say, by what they stored. */
  ghost predicate Verdict(nodes: Nodes, asked: set<NodeId>, key: string, reply: Reply)
  {
    match reply
    case QuorumNotMet => false
    case NotFound => forall a :: a in asked && Answer(nodes, a, key).Some? ==> Buried(nodes, asked, a, key)
    case Found(best) =>
      && !best.tombstone && (exists b :: b in asked && Answer(nodes, b, key) == Some(best))
      && forall a :: a in asked && Answer(nodes, a, key).Some? ==> AtMost(Answer(nodes, a, key).value, best)
  }

  /** Someone asked has a tombstone at least as new as what a has. */
  ghost predicate Buried(nodes: Nodes, asked: set<NodeId>, a: NodeId, key: string)
    requires Answer(nodes, a, key).Some?
  {
    exists b :: b in asked && Answer(nodes, b, key).Some? && Answer(nodes, b, key).value.tombstone
      && AtMost(Answer(nodes, a, key).value, Answer(nodes, b, key).value)
  }

  /** The read has its own version and the answers of the others, and nothing else. */
  ghost predicate Complete(nodes: Nodes, id: NodeId, others: set<NodeId>, p: PendingRead)
  {
    && p.local == Answer(nodes, id, p.key)
    && (forall t :: t in others ==> Response(t, Answer(nodes, t, p.key)) in p.resps)
    && (forall r :: r in p.resps ==> r.src in others && r.found == Answer(nodes, r.src, p.key))
  }

  lemma {:induction false} SeenOnly(local: Option<Entry>, resps: seq<Response>, e: Entry)
    requires e in Seen(local, resps)
    ensures local == Some(e) || exists r :: r in resps && r.found == Some(e)
  {
    if resps != [] {
      var init, last := resps[..|resps| - 1], resps[|resps| - 1];
      assert resps == init + [last];
      if e in Seen(local, init) {
        SeenOnly(local, init, e);
        if local != Some(e) {
          var r :| r in init && r.found == Some(e);
          assert r in resps;
        }
      } else {
        assert last in resps && last.found == Some(e);
      }
    }
  }

  lemma CompleteVerdict(nodes: Nodes, id: NodeId, others: set<NodeId>, p: PendingRead, R: int)
    requires Complete(nodes, id, others, p) && 1 + |p.resps| >= R
    ensures Verdict(nodes, others + {id}, p.key, ReplyOf(p, R))
  {
    hide Seen, Newest;
    var seen, asked := Seen(p.local, p.resps), others + {id};
    forall a | a in asked && Answer(nodes, a, p.key).Some?
      ensures Answer(nodes, a, p.key).value in seen
    {
      SeenHas(p.local, p.resps, Response(a, Answer(nodes, a, p.key)));
    }
    if seen != [] {
      var best := Newest(seen);
      NewestIsMax(seen, seen[0]);
      SeenOnly(p.local, p.resps, best);
      var b := Holder(nodes, id, others, p, best);
      forall a | a in asked && Answer(nodes, a, p.key).Some?
        ensures AtMost(Answer(nodes, a, p.key).value, best)
      {
        NewestIsMax(seen, Answer(nodes, a, p.key).value);
      }
    }
  }

  lemma Holder(nodes: Nodes, id: NodeId, others: set<NodeId>, p: PendingRead, e: Entry) returns (b: NodeId)
    requires Complete(nodes, id, others, p) && (p.local == Some(e) || exists r :: r in p.resps && r.found == Some(e))
    ensures b in others + {id} && Answer(nodes, b, p.key) == Some(e)
  {
    if p.local == Some(e) {
      b := id;
    } else {
      var r :| r in p.resps && r.found == Some(e);
      b := r.src;
    }
  }

  lemma ReadStarted(members: set<NodeId>, cfg: QuorumConfig, s: System, id: NodeId, key: string, targets: seq<NodeId>,
                    s0: System)
    requires Next(members, cfg, s, ReadStep(id, key, targets), s0) && cfg.R <= |members|
    ensures id in s.nodes && id in s0.nodes && id !in targets && Distinct(targets) && Listed(targets) <= members
    ensures s0.nodes[id].seqNo == s.nodes[id].seqNo + 1
    ensures var q := s0.nodes[id].seqNo;
      && q in s0.nodes[id].queries && s0.nodes[id].queries[q].key == key && s0.nodes[id].queries[q].resps == []
      && s0.nodes[id].queries[q].local == Answer(s.nodes, id, key)
      && s0.nodes[id].queries[q].needed == |targets| && 1 + |targets| >= cfg.R
      && forall t :: t in targets ==> ReadMsg(id, t, q, key) in s0.net
    ensures forall t :: Answer(s0.nodes, t, key) == Answer(s.nodes, t, key)
  {
    hide ReadMsgs;
    var q := s.nodes[id].seqNo + 1;
    ReadsTo(id, q, key, targets);
    assert forall t :: t in Listed(targets) ==> t in targets;
    forall t | t in targets
      ensures ReadMsg(id, t, q, key) in s0.net
    {
      var i :| 0 <= i < |targets| && targets[i] == t;
      assert ReadMsgs(id, q, key, targets)[i] in ReadMsgs(id, q, key, targets);
    }
    assert |members - {id}| == |members| - 1;
  }

  /** A read asks for as many answers as make R with its own version, if it has one, or else everyone. */
  lemma AsksForR(members: set<NodeId>, cfg: QuorumConfig, id: NodeId, local: Option<Entry>, targets: seq<NodeId>)
    requires Sample(members, id, RemoteNeeded(local, cfg.R), targets) && cfg.R >= 1 && id in members
    ensures var own := if local.Some? then 1 else 0;
      own + |targets| == cfg.R || (own + |targets| < cfg.R && Listed(targets) == members - {id})
  {
    ListedSize(targets);
    if |targets| == |members - {id}| {
      SubsetOf(Listed(targets), members - {id});
    }
  }

  lemma SubsetOf(a: set<NodeId>, b: set<NodeId>)
    requires (forall x :: x in a ==> x in b) && |a| == |b|
    ensures a == b
  {
    if x :| x in b && x !in a {
      SubsetSize(a, b - {x});
      assert false;
    }
  }

  /**
   A read that hears everyone it asked can answer, and answers with the newest version among its own and
   theirs, or that there is none.
   */
  lemma ReadAnswered(members: set<NodeId>, cfg: QuorumConfig, s: System, id: NodeId, key: string, targets: seq<NodeId>,
                     s0: System)
    returns (ms: seq<Message>, s': System)
    requires Reachable(members, cfg, s) && Next(members, cfg, s, ReadStep(id, key, targets), s0) && cfg.R <= |members|
    ensures Leads(members, cfg, s0, ms, s') && Reachable(members, cfg, s')
    ensures id in s.nodes && id in s'.nodes && s.nodes[id].seqNo + 1 in s'.nodes[id].queries
    ensures Verdict(s.nodes, Listed(targets) + {id}, key, ReplyOf(s'.nodes[id].queries[s.nodes[id].seqNo + 1], cfg.R))
    ensures forall m :: m in ms ==> (m.ReadMsg? && m.src == id) || (m.ReadResp? && m.dst == id)
  {
    hide Reachable, Next, Leads, ReplyOf, Verdict, Answer, AnswersLeft;
    ReadStarted(members, cfg, s, id, key, targets, s0);
    var q := s0.nodes[id].seqNo;
    ReachNext(members, cfg, s, ReadStep(id, key, targets), s0);
    ReachMembers(members, cfg, s0);
    var others := Listed(targets);
    var ms1, s1 := DeliverRequests(members, cfg, s0, id, q, key, others);
    ListedSize(targets);
    var ms2, s2 := DeliverAnswers(members, cfg, s1, id, q, s0.nodes, others);
    LeadsOn(members, cfg, s0, ms1, s1, ms2, s2);
    ms, s' := ms1 + ms2, s2;
    CompleteVerdict(s.nodes, id, others, s'.nodes[id].queries[q], cfg.R);
  }

  lemma {:induction false} ListedSize(s: seq<NodeId>)
    requires Distinct(s)
    ensures |Listed(s)| == |s|
  {
    if s != [] {
      var init := s[..|s| - 1];
      ListedSize(init);
      assert s == init + [s[|s| - 1]];
      assert Listed(s) == Listed(init) + {s[|s| - 1]};
    }
  }
}
