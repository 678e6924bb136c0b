/** The leaderless node as the object it is: its methods move it as LeaderlessModel says. */
module LeaderlessNodeObject {
  import opened Storage
  import opened StoreObject
  import opened StoredVersions
  import opened HlcObject
  import H = HlcModel
  import C = Chains
  import Lww
  import Q = Quorums
  import M = LeaderlessModel
  import D = LeaderlessDelivery

  /** entryWins, and the newest of a read's versions: the loop of Read. */
  method PickNewest(versions: seq<Lww.Entry>) returns (best: Lww.Entry)
    requires versions != []
    ensures best == M.Newest(versions)
  {
    best := versions[0];
    assert versions[..1] == [versions[0]];
    for i := 1 to |versions|
      invariant best == M.Newest(versions[..i])
    {
      assert versions[..i + 1][..i] == versions[..i];
      if Lww.Wins(versions[i], best) {
        best := versions[i];
      }
    }
    assert versions[..|versions|] == versions;
  }

  method CollectSeen(local: Option<Lww.Entry>, resps: seq<M.Response>) returns (versions: seq<Lww.Entry>)
    ensures versions == M.Seen(local, resps)
  {
    versions := if local.Some? then [local.value] else [];
    for i := 0 to |resps|
      invariant versions == M.Seen(local, resps[..i])
    {
      assert resps[..i + 1][..i] == resps[..i];
      if resps[i].found.Some? {
        versions := versions + [resps[i].found.value];
      }
    }
    assert resps[..|resps|] == resps;
  }

  method FindStale(best: Lww.Entry, resps: seq<M.Response>) returns (stale: seq<NodeId>)
    ensures stale == M.Stale(best, resps)
  {
    stale := [];
    for i := 0 to |resps|
      invariant stale == M.Stale(best, resps[..i])
    {
      assert resps[..i + 1][..i] == resps[..i];
      var r := resps[i];
      if r.found.None? || Lww.Wins(best, r.found.value) {
        stale := stale + [r.src];
      }
    }
    assert resps[..|resps|] == resps;
  }

  class LeaderlessNode {
    const id: NodeId
    const cfg: Q.QuorumConfig
    const store: Store
    const hlc: HLC
    const allNodes: seq<NodeId>
    var seqNo: nat
    var writes: map<nat, M.PendingWrite>
    var queries: map<nat, M.PendingRead>
    var hints: seq<M.Hint>

    ghost predicate Valid()
      reads this, store, hlc
    {
      store.Valid() && hlc.Valid()
    }

    /** The node as the protocol sees it. */
    ghost function State(): M.Node
      reads this, store
    {
      M.Node(Versions(store.data), seqNo, writes, queries, hints)
    }

    constructor (id: NodeId, cfg: Q.QuorumConfig, allNodes: seq<NodeId>)
      ensures Valid() && fresh(store) && fresh(hlc) && this.id == id && this.cfg == cfg && this.allNodes == allNodes
      ensures State() == M.NEW_NODE
    {
      this.id, this.cfg, this.allNodes := id, cfg, allNodes;
      store := new Store();
      hlc := new HLC();
      seqNo, writes, queries, hints := 0, map[], map[], [];
    }

    method ApplyWrite(e: KVEntry, unixNano: int)
      requires Valid()
      modifies store, hlc`lastPhysical, hlc`logical
      ensures Valid()
      ensures Versions(store.data) == M.ApplyWrite(old(Versions(store.data)), e.key, Content(e))
      ensures hlc.Last() == H.Join(old(hlc.Last()), e.timestamp, H.Wall(unixNano, hlc.skewNanos))
    {
      var _ := hlc.Update(e.timestamp, unixNano);
      var existing := store.GetRaw(e.key);
      VersionsAfterSet(store.data, store.version, e);
      if existing.None? {
        store.Set(e);
        return;
      }
      if Lww.Wins(Content(e), Content(existing.value)) {
        store.Set(e);
      }
    }

    /** writeQuorumMet at the plain quorum level. */
    method WriteQuorumMet(acked: set<NodeId>, selfIsReplica: bool) returns (met: bool)
      ensures selfIsReplica ==> met == M.QuorumMet(id, acked, cfg.W)
      ensures !selfIsReplica ==> met == (|acked| >= cfg.W)
    {
      var total := acked;
      if selfIsReplica {
        total := total + {id};
      }
      met := |total| >= cfg.W;
    }

    /** The replicas of a key without this node. */
    method OtherReplicas(replicas: seq<NodeId>) returns (targets: seq<NodeId>, selfIsReplica: bool)
      requires M.Distinct(replicas)
      ensures M.Others(M.Listed(replicas), id, targets)
      ensures selfIsReplica <==> id in replicas
    {
      targets, selfIsReplica := [], false;
      for i := 0 to |replicas|
        invariant M.Others(M.Listed(replicas[..i]), id, targets)
        invariant selfIsReplica <==> id in replicas[..i]
      {
        assert replicas[..i + 1] == replicas[..i] + [replicas[i]];
        ListedMore(replicas[..i], replicas[i]);
        if replicas[i] == id {
          selfIsReplica := true;
        } else {
          ListedMore(targets, replicas[i]);
          assert replicas[i] !in M.Listed(targets);
          targets := targets + [replicas[i]];
        }
      }
      assert replicas[..|replicas|] == replicas;
    }

    method SendWrites(q: nat, key: string, e: Lww.Entry, targets: seq<NodeId>) returns (out: seq<M.Message>)
      ensures out == M.WriteMsgs(id, q, key, e, targets) && |out| == |targets|
      ensures forall i :: 0 <= i < |targets| ==> out[i] == M.WriteMsg(id, targets[i], q, key, e)
    {
      out := [];
      for i := 0 to |targets|
        invariant out == M.WriteMsgs(id, q, key, e, targets[..i]) && |out| == i
        invariant forall j :: 0 <= j < i ==> out[j] == M.WriteMsg(id, targets[j], q, key, e)
      {
        assert targets[..i + 1][..i] == targets[..i];
        out := out + [M.WriteMsg(id, targets[i], q, key, e)];
      }
      assert targets[..|targets|] == targets;
    }

    /** The start of coordinate: apply locally, take a number, fan out. */
    method Coordinate(e: KVEntry, replicas: seq<NodeId>, unixNano: int) returns (q: nat, out: seq<M.Message>)
      requires Valid() && M.Distinct(replicas)
      modifies this, store, hlc`lastPhysical, hlc`logical
      ensures Valid() && q == seqNo == old(seqNo) + 1
      ensures exists targets ::
        && M.Others(M.Listed(replicas), id, targets)
        && M.Effect(State(), out) == M.StartWrite(id, old(State()), e.key, Content(e), targets)
      ensures multiset(out) == multiset(set t | t in replicas && t != id :: M.WriteMsg(id, t, q, e.key, Content(e)))
    {
      ApplyWrite(e, unixNano);
      var targets, _ := OtherReplicas(replicas);
      seqNo := seqNo + 1;
      q := seqNo;
      writes := writes[q := M.PendingWrite(e.key, Content(e), {}, false)];
      out := SendWrites(q, e.key, Content(e), targets);
      D.WritesOnce(id, q, e.key, Content(e), targets);
      assert D.WriteOffers(id, q, e.key, Content(e), M.Listed(targets)) ==
        set t | t in replicas && t != id :: M.WriteMsg(id, t, q, e.key, Content(e));
      assert M.Effect(State(), out) == M.StartWrite(id, old(State()), e.key, Content(e), targets);
    }

    method Write(key: string, value: Value, replicas: seq<NodeId>, unixNano: int)
        returns (e: KVEntry, q: nat, out: seq<M.Message>)
      requires Valid() && M.Distinct(replicas)
      modifies this, store, hlc`lastPhysical, hlc`logical
      ensures Valid() && q == seqNo == old(seqNo) + 1
      ensures Content(e) == Lww.Entry(value, map[id := 1], H.Tick(old(hlc.Last()), H.Wall(unixNano, hlc.skewNanos)),
        id, false)
      ensures exists targets ::
        && M.Others(M.Listed(replicas), id, targets)
        && M.Effect(State(), out) == M.StartWrite(id, old(State()), key, Content(e), targets)
      ensures multiset(out) == multiset(set t | t in replicas && t != id :: M.WriteMsg(id, t, q, key, Content(e)))
    {
      var ts := hlc.Now(unixNano);
      e := KVEntry(key, value, map[id := 1], ts, id, false, 0);
      q, out := Coordinate(e, replicas, unixNano);
    }

    method Delete(key: string, replicas: seq<NodeId>, unixNano: int) returns (e: KVEntry, q: nat, out: seq<M.Message>)
      requires Valid() && M.Distinct(replicas)
      modifies this, store, hlc`lastPhysical, hlc`logical
      ensures Valid() && q == seqNo == old(seqNo) + 1
      ensures Content(e) == Lww.Entry(None, map[id := 1], H.Tick(old(hlc.Last()), H.Wall(unixNano, hlc.skewNanos)),
        id, true)
      ensures exists targets ::
        && M.Others(M.Listed(replicas), id, targets)
        && M.Effect(State(), out) == M.StartWrite(id, old(State()), key, Content(e), targets)
      ensures multiset(out) == multiset(set t | t in replicas && t != id :: M.WriteMsg(id, t, q, key, Content(e)))
    {
      var ts := hlc.Now(unixNano);
      e := KVEntry(key, None, map[id := 1], ts, id, true, 0);
      q, out := Coordinate(e, replicas, unixNano);
    }

    /** The end of collectHints: a hint for every target that never acknowledged. */
    method CollectHints(q: nat, targets: seq<NodeId>)
      requires Valid() && q in writes && !writes[q].repair
      modifies this
      ensures Valid() && State() == M.EndWrite(old(State()), q, targets).node
      ensures forall h :: h in hints <==> h in old(hints) || D.Owed(old(writes)[q], targets, h)
    {
      var p := writes[q];
      writes := writes - {q};
      ghost var before := hints;
      for i := 0 to |targets|
        modifies `hints
        invariant hints == before + M.HintsFor(p, targets[..i])
      {
        assert targets[..i + 1][..i] == targets[..i];
        if targets[i] !in p.acked {
          hints := hints + [M.Hint(targets[i], p.key, p.entry)];
        }
      }
      assert targets[..|targets|] == targets;
      forall h
        ensures h in M.HintsFor(p, targets) <==> D.Owed(p, targets, h)
      {
        D.HintsAre(p, targets, h);
      }
    }

    method DeliverHints() returns (out: seq<M.Message>)
      requires Valid()
      modifies this
      ensures Valid() && M.Effect(State(), out) == M.DeliverHints(id, old(State())) && |out| == |old(hints)|
      ensures forall i :: 0 <= i < |out| ==>
        out[i] == M.HandoffMsg(id, old(hints)[i].target, old(hints)[i].key, old(hints)[i].entry)
    {
      out := [];
      for i := 0 to |hints|
        invariant out == M.HandoffMsgs(id, hints[..i]) && |out| == i
        invariant forall j :: 0 <= j < i ==> out[j] == M.HandoffMsg(id, hints[j].target, hints[j].key, hints[j].entry)
        modifies {}
      {
        assert hints[..i + 1][..i] == hints[..i];
        out := out + [M.HandoffMsg(id, hints[i].target, hints[i].key, hints[i].entry)];
      }
      assert hints[..|hints|] == hints;
      hints := [];
    }

    /** The members a read may still ask when the preference list is too short. */
    method TopUp(chosen: seq<NodeId>) returns (others: seq<NodeId>)
      requires M.Distinct(chosen) && M.Listed(chosen) <= M.Listed(allNodes) - {id}
      ensures M.Others(M.Listed(allNodes), id, others)
    {
      others := chosen;
      for i := 0 to |allNodes|
        invariant M.Distinct(others) && M.Listed(others) == M.Listed(chosen) + (M.Listed(allNodes[..i]) - {id})
      {
        assert allNodes[..i + 1] == allNodes[..i] + [allNodes[i]];
        ListedMore(allNodes[..i], allNodes[i]);
        if allNodes[i] != id && allNodes[i] !in others {
          ListedMore(others, allNodes[i]);
          others := others + [allNodes[i]];
        }
      }
      assert allNodes[..|allNodes|] == allNodes;
    }

    /** readTargets: a random sample of the other replicas, topped up from the membership when they are too few. */
    method ReadTargets(replicas: seq<NodeId>, count: nat, shuffle: seq<NodeId> -> seq<NodeId>)
        returns (targets: seq<NodeId>)
      requires M.Distinct(replicas) && M.Listed(replicas) <= M.Listed(allNodes)
      requires forall s :: multiset(shuffle(s)) == multiset(s)
      ensures M.Sample(M.Listed(allNodes), id, count, targets)
    {
      var others, _ := OtherReplicas(replicas);
      ghost var members := M.Listed(allNodes);
      if |others| < count {
        others := TopUp(others);
      }
      D.ListedSize(others);
      Q.SubsetSize(M.Listed(others), members - {id});
      if count >= |others| {
        targets := others;
        assert forall t :: t in targets ==> t in M.Listed(targets);
        return;
      }
      var mixed := shuffle(others);
      C.DifferentAfter(others, mixed);
      targets := mixed[..count];
      forall t | t in targets
        ensures t in members && t != id
      {
        assert t in multiset(mixed);
        assert t in M.Listed(others);
      }
    }

    /** The start of Read. */
    method StartRead(key: string, targets: seq<NodeId>) returns (q: nat, out: seq<M.Message>)
      requires Valid()
      modifies this
      ensures Valid() && q == seqNo == old(seqNo) + 1
      ensures M.Effect(State(), out) == M.StartRead(id, old(State()), key, cfg.R, targets) && |out| == |targets|
      ensures forall i :: 0 <= i < |targets| ==> out[i] == M.ReadMsg(id, targets[i], q, key)
    {
      var found := store.GetRaw(key);
      var local := if found.Some? then Some(Content(found.value)) else None;
      var localHits := if local.Some? then 1 else 0;
      var remoteNeeded := cfg.R - localHits;
      if remoteNeeded < 0 {
        remoteNeeded := 0;
      }
      var needed := remoteNeeded;
      if needed > |targets| {
        needed := |targets|;
      }
      seqNo := seqNo + 1;
      q := seqNo;
      queries := queries[q := M.PendingRead(key, local, needed, [])];
      out := [];
      for i := 0 to |targets|
        modifies {}
        invariant out == M.ReadMsgs(id, q, key, targets[..i]) && |out| == i
        invariant forall j :: 0 <= j < i ==> out[j] == M.ReadMsg(id, targets[j], q, key)
      {
        assert targets[..i + 1][..i] == targets[..i];
        out := out + [M.ReadMsg(id, targets[i], q, key)];
      }
      assert targets[..|targets|] == targets;
    }

    /** The end of Read: the reply, then the repairs. */
    method EndRead(q: nat, sync: bool, unixNano: int) returns (reply: M.Reply, out: seq<M.Message>)
      requires Valid() && q in queries
      modifies this, store, hlc`lastPhysical, hlc`logical
      ensures Valid() && reply == M.ReplyOf(old(queries[q]), cfg.R)
      ensures M.Effect(State(), out) == M.EndRead(id, old(State()), q, cfg.R, sync)
    {
      hide M.Newest, M.Seen, M.Repair;
      var p := queries[q];
      queries := queries - {q};
      if 1 + |p.resps| < cfg.R {
        return M.QuorumNotMet, [];
      }
      var versions := CollectSeen(p.local, p.resps);
      if versions == [] {
        return M.NotFound, [];
      }
      var best := PickNewest(versions);
      out := Repair(p, best, sync, unixNano);
      reply := if best.tombstone then M.NotFound else M.Found(best);
    }

    /** The own copy if it is older, then the stale responders, blocking or not. */
    method Repair(p: M.PendingRead, best: Lww.Entry, sync: bool, unixNano: int) returns (out: seq<M.Message>)
      requires Valid()
      modifies this, store, hlc`lastPhysical, hlc`logical
      ensures Valid() && M.Effect(State(), out) == M.Repair(id, old(State()), p, best, sync)
    {
      hide M.Stale, M.WriteMsgs, M.RepairMsgs, M.ApplyWrite, Lww.Wins, Versions;
      var solid := best.value.Some? || best.tombstone;
      if (p.local.None? || Lww.Wins(best, p.local.value)) && solid {
        ApplyWrite(Unfiled(p.key, best), unixNano);
      }
      out := [];
      var stale := FindStale(best, p.resps);
      if |stale| > 0 && solid {
        if sync {
          seqNo := seqNo + 1;
          writes := writes[seqNo := M.PendingWrite(p.key, best, {}, true)];
          out := SendWrites(seqNo, p.key, best, stale);
        } else {
          out := Broadcast(p.key, best, stale);
        }
      }
    }

    method Broadcast(key: string, e: Lww.Entry, targets: seq<NodeId>) returns (out: seq<M.Message>)
      ensures out == M.RepairMsgs(id, key, e, targets) && |out| == |targets|
      ensures forall i :: 0 <= i < |targets| ==> out[i] == M.RepairMsg(id, targets[i], key, e)
    {
      out := [];
      for i := 0 to |targets|
        invariant out == M.RepairMsgs(id, key, e, targets[..i]) && |out| == i
        invariant forall j :: 0 <= j < i ==> out[j] == M.RepairMsg(id, targets[j], key, e)
      {
        assert targets[..i + 1][..i] == targets[..i];
        out := out + [M.RepairMsg(id, targets[i], key, e)];
      }
      assert targets[..|targets|] == targets;
    }

    method HandleMessage(m: M.Message, unixNano: int) returns (out: seq<M.Message>)
      requires Valid()
      modifies this, store, hlc`lastPhysical, hlc`logical
      ensures Valid() && M.Effect(State(), out) == M.Handle(id, old(State()), m)
    {
      out := [];
      match m
      case WriteMsg(src, _, q, key, e) =>
        ApplyWrite(Unfiled(key, e), unixNano);
        out := [M.WriteAck(id, src, q)];
      case HandoffMsg(src, _, key, e) =>
        ApplyWrite(Unfiled(key, e), unixNano);
        out := [M.WriteAck(id, src, 0)];
      case WriteAck(src, _, q) =>
        if q in writes {
          writes := writes[q := writes[q].(acked := writes[q].acked + {src})];
        }
      case ReadMsg(src, _, q, key) =>
        var found := store.GetRaw(key);
        out := [M.ReadResp(id, src, q, if found.Some? then Some(Content(found.value)) else None)];
      case ReadResp(src, _, q, found) =>
        if q in queries && |queries[q].resps| < queries[q].needed {
          queries := queries[q := queries[q].(resps := queries[q].resps + [M.Response(src, found)])];
        }
      case RepairMsg(_, _, key, e) =>
        ApplyWrite(Unfiled(key, e), unixNano);
    }
  }

  lemma ListedMore(s: seq<NodeId>, x: NodeId)
    ensures M.Listed(s + [x]) == M.Listed(s) + {x}
    ensures forall y :: y in s <==> y in M.Listed(s)
  {
  }
}
