/**
 What multi-leader replication reaches (internal/node/multileader.go): what a write sends can reach every
 replica, replicas that have caught up with every writer agree, and gossip alone can bring them there.
 */
module MultiLeaderDelivery {
  import opened Storage
  import opened VectorClocks
  import opened Lww
  import opened MultiLeaderModel
  import opened MultiLeaderConvergence

  // ---------------------------------------------------------------- catching up with every writer

  /** The node's version of the key counts at least as many writes of n as n's own. */
  ghost predicate Caught(s: System, b: NodeId, n: NodeId, key: string)
  {
    b in s.nodes && n in s.nodes && (key in s.nodes[n].store ==>
      key in s.nodes[b].store && At(s.nodes[b].store[key].vclock, n) >= At(s.nodes[n].store[key].vclock, n))
  }

  lemma NoneAhead(ws: Writes, s: System, b: NodeId, n: NodeId, key: string)
    requires Inv(s, ws) && b in s.nodes && key in s.nodes[b].store && At(s.nodes[b].store[key].vclock, n) > 0
    ensures n in s.nodes && key in s.nodes[n].store
    ensures At(s.nodes[b].store[key].vclock, n) <= At(s.nodes[n].store[key].vclock, n)
  {
    hide StampsUnique, SentGood;
    var c := At(s.nodes[b].store[key].vclock, n);
    StoredIsGood(ws, s.nodes[b], key);
    assert (key, n, c) in ws;
    assert OwnCounted(ws, n, s.nodes[n]);
  }

  /** Eventual convergence: two replicas that have caught up with every writer of a key agree on it. */
  lemma CaughtUpAgree(members: set<NodeId>, tr: seq<System>, steps: seq<Step>, i: nat, a: NodeId, b: NodeId,
                      key: string)
    requires IsRun(members, tr, steps) && i < |tr| && a in tr[i].nodes && b in tr[i].nodes
    requires forall n :: n in tr[i].nodes ==> Caught(tr[i], a, n, key) && Caught(tr[i], b, n, key)
    ensures key in tr[i].nodes[a].store <==> key in tr[i].nodes[b].store
    ensures key in tr[i].nodes[a].store ==>
      SameContent(tr[i].nodes[a].store[key], tr[i].nodes[b].store[key])
  {
    hide Next, SameContent;
    var s := tr[i];
    assert Caught(s, a, b, key) && Caught(s, b, a, key);
    if key in s.nodes[a].store {
      var x, y := s.nodes[a].store[key], s.nodes[b].store[key];
      SameClocks(members, tr, steps, i, a, b, key);
      assert Stores(s, a, key, x) && Stores(s, b, key, y);
      Convergence(members, tr, steps, i, i, a, b, key, x, y);
      SameIs(x, y);
    }
  }

  lemma SameIs(x: Entry, y: Entry)
    requires x.value == y.value && x.tombstone == y.tombstone && SameStamp(x, y)
    ensures SameContent(x, y)
  {
  }

  lemma SameClocks(members: set<NodeId>, tr: seq<System>, steps: seq<Step>, i: nat, a: NodeId, b: NodeId, key: string)
    requires IsRun(members, tr, steps) && i < |tr| && a in tr[i].nodes && b in tr[i].nodes
    requires forall n :: n in tr[i].nodes ==> Caught(tr[i], a, n, key) && Caught(tr[i], b, n, key)
    requires key in tr[i].nodes[a].store && key in tr[i].nodes[b].store
    ensures Same(tr[i].nodes[a].store[key].vclock, tr[i].nodes[b].store[key].vclock)
  {
    hide Next, Inv;
    var s := tr[i];
    RunPrefix(members, tr, steps, i);
    RunExplained(members, tr[..i + 1], steps[..i]);
    var ws :| Explains(tr[..i + 1], steps[..i], ws);
    var x, y := s.nodes[a].store[key].vclock, s.nodes[b].store[key].vclock;
    forall n
      ensures At(x, n) == At(y, n)
    {
      if At(x, n) > 0 {
        NoneAhead(ws, s, a, n, key);
        assert Caught(s, b, n, key);
      }
      if At(y, n) > 0 {
        NoneAhead(ws, s, b, n, key);
        assert Caught(s, a, n, key);
      }
    }
  }

  /** The entry was received, or something that covers it. */
  ghost predicate Covered(s: System, b: NodeId, key: string, e: Entry)
  {
    && b in s.nodes && key in s.nodes[b].store
    && (forall n :: At(s.nodes[b].store[key].vclock, n) >= At(e.vclock, n))
    && AtMost(e, s.nodes[b].store[key])
  }

  lemma ReceiveCovers(ws: Writes, s: System, b: NodeId, key: string, e: Entry, wall: int)
    requires Inv(s, ws) && b in s.nodes && (key, e) in s.sent
    ensures Covered(Take(s, ReceiveStep(b, key, e, wall)), b, key, e)
  {
    hide EntryGood, Reconcile, StampsUnique, OwnCounted, AtMost;
    var n := s.nodes[b];
    assert EntryGood(ws, key, e);
    if key in n.store {
      StoredIsGood(ws, n, key);
      ReconcileNotBelow(ws, key, n.store[key], e);
    } else {
      SelfAtMost(e);
    }
  }

  lemma SelfAtMost(e: Entry)
    ensures AtMost(e, e)
  {
  }

  /** A remote version is never newer than what is left after reconciling with it. */
  lemma ReconcileNotBelow(ws: Writes, key: string, local: Entry, remote: Entry)
    requires StampsUnique(ws) && EntryGood(ws, key, local) && EntryGood(ws, key, remote)
    ensures AtMost(remote, Reconcile(local, remote))
    ensures forall n :: At(Reconcile(local, remote).vclock, n) >= At(remote.vclock, n)
  {
    ReconcileKeepsGood(ws, key, local, remote);
    ReconcileJoins(local, remote);
    var r := Reconcile(local, remote);
    var c: nat :| 1 <= c <= At(remote.vclock, remote.nodeId) && (key, remote.nodeId, c) in ws
      && SameContent(ws[(key, remote.nodeId, c)], remote);
    assert AtMost(ws[(key, remote.nodeId, c)], r);
  }

  /** What is sent can be received everywhere, one node after the other, and then everyone has it or newer. */
  lemma {:induction false} DeliverEverywhere(members: set<NodeId>, tr: seq<System>, steps: seq<Step>, key: string,
                                             e: Entry, todo: set<NodeId>)
    returns (tr': seq<System>, steps': seq<Step>)
    requires IsRun(members, tr, steps) && (key, e) in tr[|steps|].sent && todo <= tr[|steps|].nodes.Keys
    requires forall b :: b in tr[|steps|].nodes && b !in todo ==> Covered(tr[|steps|], b, key, e)
    ensures IsRun(members, tr', steps') && tr <= tr' && steps <= steps'
    ensures forall i :: |steps| <= i < |steps'| ==> steps'[i].ReceiveStep? && steps'[i].entry == e
    ensures tr'[|steps'|].nodes.Keys == tr[|steps|].nodes.Keys
    ensures forall b :: b in tr'[|steps'|].nodes ==> Covered(tr'[|steps'|], b, key, e)
    decreases |todo|
  {
    hide Next, Covered, Take;
    if todo == {} {
      tr', steps' := tr, steps;
    } else {
      var b :| b in todo;
      var s' := ReceiveOne(members, tr, steps, key, e, b);
      forall c | c in s'.nodes && c !in todo - {b}
        ensures Covered(s', c, key, e)
      {
        if c != b {
          StillCovered(tr[|steps|], s', c, key, e);
        }
      }
      tr', steps' := DeliverEverywhere(members, tr + [s'], steps + [ReceiveStep(b, key, e, 0)], key, e, todo - {b});
    }
  }

  lemma ReceiveOne(members: set<NodeId>, tr: seq<System>, steps: seq<Step>, key: string, e: Entry, b: NodeId)
    returns (s': System)
    requires IsRun(members, tr, steps) && (key, e) in tr[|steps|].sent && b in tr[|steps|].nodes
    ensures IsRun(members, tr + [s'], steps + [ReceiveStep(b, key, e, 0)])
    ensures s'.nodes.Keys == tr[|steps|].nodes.Keys && s'.sent == tr[|steps|].sent && Covered(s', b, key, e)
    ensures forall c :: c in s'.nodes && c != b ==> s'.nodes[c] == tr[|steps|].nodes[c]
  {
    hide Next, Covered, Receive, Inv, WritesRecorded, WritesReal, AllGood;
    var s := tr[|steps|];
    s' := Take(s, ReceiveStep(b, key, e, 0));
    OneMore(members, tr, steps, ReceiveStep(b, key, e, 0));
    RunExplained(members, tr, steps);
    var ws :| Explains(tr, steps, ws);
    ReceiveCovers(ws, s, b, key, e, 0);
  }

  lemma StillCovered(s: System, s': System, c: NodeId, key: string, e: Entry)
    requires Covered(s, c, key, e) && c in s'.nodes && s'.nodes[c] == s.nodes[c]
    ensures Covered(s', c, key, e)
  {
  }

  lemma OneMore(members: set<NodeId>, tr: seq<System>, steps: seq<Step>, step: Step)
    requires IsRun(members, tr, steps) && Enabled(tr[|steps|], step)
    ensures IsRun(members, tr + [Take(tr[|steps|], step)], steps + [step])
  {
    hide Take, Enabled;
    var tr', steps' := tr + [Take(tr[|steps|], step)], steps + [step];
    forall i | 0 <= i < |steps'|
      ensures Next(tr'[i], steps'[i], tr'[i + 1])
    {
      if i < |steps| {
        assert Next(tr[i], steps[i], tr[i + 1]);
      }
    }
  }

  /**
   From any reachable state, what a write sends can reach every node, and then every node shows what the
   client asked for, or a version that is at least as new and counts the write.
   */
  lemma WriteReachesAll(members: set<NodeId>, tr: seq<System>, steps: seq<Step>, id: NodeId, key: string, value: Value,
                        tombstone: bool, wall: int)
    returns (tr': seq<System>, steps': seq<Step>, w: Entry)
    requires IsRun(members, tr, steps) && id in tr[|steps|].nodes
    ensures IsRun(members, tr', steps') && steps + [WriteStep(id, key, value, tombstone, wall)] <= steps'
    ensures forall i :: |steps| < i < |steps'| ==> steps'[i].ReceiveStep? && steps'[i].entry == w
    ensures w.value == value && w.tombstone == tombstone && w.nodeId == id
    ensures forall b :: b in tr'[|steps'|].nodes ==> Covered(tr'[|steps'|], b, key, w)
  {
    hide Next, Covered;
    var step := WriteStep(id, key, value, tombstone, wall);
    OneMore(members, tr, steps, step);
    var s' := Take(tr[|steps|], step);
    var tr1, steps1 := tr + [s'], steps + [step];
    WriteStores(members, tr1, steps1, |steps|);
    w := s'.nodes[id].store[key];
    tr', steps' := DeliverEverywhere(members, tr1, steps1, key, w, s'.nodes.Keys);
  }

  // ---------------------------------------------------------------- gossip

  predicate Spreads(step: Step)
  {
    step.GossipStep? || step.ReceiveStep?
  }

  /** How many writes of n the node's version of the key counts. */
  function Counts(node: Node, key: string, n: NodeId): nat
  {
    if key in node.store then At(node.store[key].vclock, n) else 0
  }

  ghost predicate AllPositive(s: System)
  {
    && (forall id, key :: id in s.nodes && key in s.nodes[id].store ==> Positive(s.nodes[id].store[key].vclock))
    && (forall key, e :: (key, e) in s.sent ==> Positive(e.vclock))
  }

  lemma InvPositive(s: System, ws: Writes)
    requires Inv(s, ws)
    ensures AllPositive(s)
  {
    hide StampsUnique, OwnCounted, GreatestOfPast, FromPast;
  }

  lemma ReceiveCounts(node: Node, key: string, e: Entry, wall: int, k: string, n: NodeId)
    requires Positive(e.vclock) && (key in node.store ==> Positive(node.store[key].vclock))
    ensures Counts(Receive(node, key, e, wall), k, n) >= Counts(node, k, n)
    ensures k in node.store ==> k in Receive(node, key, e, wall).store
  {
    hide Reconcile;
    if key in node.store {
      ReconcileJoins(node.store[key], e);
    }
  }

  /** Gossip and receives never lower a count. */
  lemma SpreadCounts(s: System, step: Step, b: NodeId, k: string, n: NodeId)
    requires AllPositive(s) && Enabled(s, step) && Spreads(step) && b in s.nodes
    ensures b in Take(s, step).nodes && Counts(Take(s, step).nodes[b], k, n) >= Counts(s.nodes[b], k, n)
    ensures k in s.nodes[b].store ==> k in Take(s, step).nodes[b].store
  {
    hide Receive;
    if step.ReceiveStep? && step.id == b {
      ReceiveCounts(s.nodes[b], step.key, step.entry, step.wall, k, n);
    }
  }

  /** The second run goes on from the first by gossip and receives. */
  ghost predicate GoesOn(tr: seq<System>, steps: seq<Step>, tr': seq<System>, steps': seq<Step>)
  {
    && tr <= tr' && steps <= steps' && |tr| == |steps| + 1 && |tr'| == |steps'| + 1
    && forall i :: |steps| <= i < |steps'| ==> Spreads(steps'[i])
  }

  lemma {:induction false} CountsKept(members: set<NodeId>, tr: seq<System>, steps: seq<Step>, i: nat, j: nat,
      b: NodeId,
                                      k: string, n: NodeId)
    requires IsRun(members, tr, steps) && i <= j < |tr| && b in tr[i].nodes
    requires forall h :: i <= h < j ==> Spreads(steps[h])
    ensures b in tr[j].nodes && Counts(tr[j].nodes[b], k, n) >= Counts(tr[i].nodes[b], k, n)
    ensures k in tr[i].nodes[b].store ==> k in tr[j].nodes[b].store
    decreases j
  {
    hide Take, Enabled, Inv, AllPositive, WritesRecorded, WritesReal, AllGood, Counts;
    if i < j {
      CountsKept(members, tr, steps, i, j - 1, b, k, n);
      assert Next(tr[j - 1], steps[j - 1], tr[j]);
      RunPrefix(members, tr, steps, j - 1);
      RunExplained(members, tr[..j], steps[..j - 1]);
      var ws :| Explains(tr[..j], steps[..j - 1], ws);
      InvPositive(tr[j - 1], ws);
      SpreadCounts(tr[j - 1], steps[j - 1], b, k, n);
    }
  }

  /** Without new writes nobody, the writer included, counts more writes of n than n did. */
  lemma NoNewWrites(members: set<NodeId>, tr: seq<System>, steps: seq<Step>, tr': seq<System>, steps': seq<Step>,
                    n: NodeId, key: string)
    requires IsRun(members, tr, steps) && IsRun(members, tr', steps') && GoesOn(tr, steps, tr', steps')
    requires n in tr[|steps|].nodes && n in tr'[|steps'|].nodes
    ensures Counts(tr'[|steps'|].nodes[n], key, n) <= Counts(tr[|steps|].nodes[n], key, n)
  {
    hide Next, Inv, AllGood;
    RunExplained(members, tr, steps);
    RunExplained(members, tr', steps');
    var ws :| Explains(tr, steps, ws);
    var ws' :| Explains(tr', steps', ws');
    var c := Counts(tr'[|steps'|].nodes[n], key, n);
    if c > 0 {
      OwnWrite(ws', tr'[|steps'|], n, key);
      assert WrittenIn(tr', steps', n, key, c, ws'[(key, n, c)]);
      var i: nat :| IsWrite(tr', steps', i, n, key, ws'[(key, n, c)]);
      assert i < |steps|;
      assert IsWrite(tr, steps, i, n, key, ws'[(key, n, c)]);
      OwnCount(ws, tr[|steps|], n, key, c);
    }
  }

  lemma OwnWrite(ws: Writes, s: System, n: NodeId, key: string)
    requires Inv(s, ws) && n in s.nodes && Counts(s.nodes[n], key, n) > 0
    ensures (key, n, Counts(s.nodes[n], key, n)) in ws
  {
    hide StampsUnique, OwnCounted, SentGood;
    StoredIsGood(ws, s.nodes[n], key);
  }

  lemma OwnCount(ws: Writes, s: System, n: NodeId, key: string, c: nat)
    requires Inv(s, ws) && n in s.nodes && (key, n, c) in ws
    ensures c <= Counts(s.nodes[n], key, n)
  {
    hide StampsUnique, StoreGood, SentGood;
    assert OwnCounted(ws, n, s.nodes[n]);
  }

  /** A node's version of a key can be gossiped and received everywhere. */
  lemma GossipOne(members: set<NodeId>, tr: seq<System>, steps: seq<Step>, key: string, n: NodeId)
    returns (tr': seq<System>, steps': seq<Step>)
    requires IsRun(members, tr, steps) && n in tr[|steps|].nodes && key in tr[|steps|].nodes[n].store
    ensures IsRun(members, tr', steps') && GoesOn(tr, steps, tr', steps')
    ensures tr'[|steps'|].nodes.Keys == tr[|steps|].nodes.Keys
    ensures forall b :: b in tr'[|steps'|].nodes ==>
      key in tr'[|steps'|].nodes[b].store
        && Counts(tr'[|steps'|].nodes[b], key, n) >= Counts(tr[|steps|].nodes[n], key, n)
  {
    hide Next, Inv;
    var s, step := tr[|steps|], GossipStep(n, key);
    var e := s.nodes[n].store[key];
    OneMore(members, tr, steps, step);
    var s1 := Take(s, step);
    tr', steps' := DeliverEverywhere(members, tr + [s1], steps + [step], key, e, s1.nodes.Keys);
    forall b | b in tr'[|steps'|].nodes
      ensures key in tr'[|steps'|].nodes[b].store
      ensures Counts(tr'[|steps'|].nodes[b], key, n) >= Counts(s.nodes[n], key, n)
    {
      assert Covered(tr'[|steps'|], b, key, e);
    }
  }

  /** Everyone counts at least as many writes of these nodes as they did at first. */
  ghost predicate Reached(s: System, s': System, key: string, done: set<NodeId>)
  {
    && s'.nodes.Keys == s.nodes.Keys && done <= s.nodes.Keys
    && forall b, n :: b in s'.nodes && n in done && key in s.nodes[n].store ==>
      key in s'.nodes[b].store && Counts(s'.nodes[b], key, n) >= Counts(s.nodes[n], key, n)
  }

  lemma GoesOnTwice(tr: seq<System>, steps: seq<Step>, tr1: seq<System>, steps1: seq<Step>, tr2: seq<System>,
                    steps2: seq<Step>)
    requires GoesOn(tr, steps, tr1, steps1) && GoesOn(tr1, steps1, tr2, steps2)
    ensures GoesOn(tr, steps, tr2, steps2)
  {
    forall i | |steps| <= i < |steps2|
      ensures Spreads(steps2[i])
    {
      if i < |steps1| {
        assert steps2[i] == steps1[i];
      }
    }
  }

  lemma StillReached(members: set<NodeId>, s: System, tr: seq<System>, steps: seq<Step>, i: nat, key: string,
                     done: set<NodeId>)
    requires IsRun(members, tr, steps) && i < |tr| && Reached(s, tr[i], key, done)
    requires forall h :: i <= h < |steps| ==> Spreads(steps[h])
    requires tr[|steps|].nodes.Keys == tr[i].nodes.Keys
    ensures Reached(s, tr[|steps|], key, done)
  {
    hide Next, Counts;
    forall b, n | b in tr[|steps|].nodes && n in done && key in s.nodes[n].store
      ensures key in tr[|steps|].nodes[b].store && Counts(tr[|steps|].nodes[b], key, n) >= Counts(s.nodes[n], key, n)
    {
      CountsKept(members, tr, steps, i, |steps|, b, key, n);
    }
  }

  lemma {:induction false} GossipAll(members: set<NodeId>, tr: seq<System>, steps: seq<Step>, key: string,
                                     done: set<NodeId>)
    returns (tr': seq<System>, steps': seq<Step>)
    requires IsRun(members, tr, steps) && done <= tr[|steps|].nodes.Keys
    ensures IsRun(members, tr', steps') && GoesOn(tr, steps, tr', steps')
    ensures Reached(tr[|steps|], tr'[|steps'|], key, done)
    decreases |done|
  {
    hide Next, Counts, Inv;
    var s := tr[|steps|];
    if done == {} {
      tr', steps' := tr, steps;
    } else {
      var n :| n in done;
      var tr1, steps1 := GossipAll(members, tr, steps, key, done - {n});
      if key in s.nodes[n].store {
        var i := |steps1|;
        CountsOn(members, tr, steps, tr1, steps1, n, key);
        tr', steps' := GossipOne(members, tr1, steps1, key, n);
        GoesOnTwice(tr, steps, tr1, steps1, tr', steps');
        assert tr'[i] == tr1[i];
        StillReached(members, s, tr', steps', i, key, done - {n});
      } else {
        tr', steps' := tr1, steps1;
      }
    }
  }

  lemma CountsOn(members: set<NodeId>, tr: seq<System>, steps: seq<Step>, tr': seq<System>, steps': seq<Step>,
      n: NodeId,
                 key: string)
    requires IsRun(members, tr, steps) && IsRun(members, tr', steps') && GoesOn(tr, steps, tr', steps')
    requires n in tr[|steps|].nodes
    ensures n in tr'[|steps'|].nodes
    ensures Counts(tr'[|steps'|].nodes[n], key, n) >= Counts(tr[|steps|].nodes[n], key, n)
    ensures key in tr[|steps|].nodes[n].store ==> key in tr'[|steps'|].nodes[n].store
  {
    hide Next;
    assert tr'[|steps|] == tr[|steps|];
    CountsKept(members, tr', steps', |steps|, |steps'|, n, key, n);
  }

  /**
   From any reachable state, gossip alone can make all replicas agree on a key: it is in all stores or
   in none, with the same content.
   */
  lemma GossipConverges(members: set<NodeId>, tr: seq<System>, steps: seq<Step>, key: string)
    returns (tr': seq<System>, steps': seq<Step>)
    requires IsRun(members, tr, steps)
    ensures IsRun(members, tr', steps') && GoesOn(tr, steps, tr', steps')
    ensures forall a, b :: a in tr'[|steps'|].nodes && b in tr'[|steps'|].nodes ==>
      Alike(tr'[|steps'|], a, b, key)
  {
    hide Next, Inv, Counts, SameContent;
    var s := tr[|steps|];
    if forall m :: m in s.nodes ==> key !in s.nodes[m].store {
      return tr, steps;
    }
    tr', steps' := GossipAll(members, tr, steps, key, s.nodes.Keys);
    var s' := tr'[|steps'|];
    forall b, n | b in s'.nodes && n in s'.nodes
      ensures Caught(s', b, n, key)
    {
      NoNewWrites(members, tr, steps, tr', steps', n, key);
      NowCaught(s, s', b, n, key);
    }
    forall a, b | a in s'.nodes && b in s'.nodes
      ensures Alike(s', a, b, key)
    {
      CaughtUpAgree(members, tr', steps', |steps'|, a, b, key);
    }
  }

  lemma NowCaught(s: System, s': System, b: NodeId, n: NodeId, key: string)
    requires Reached(s, s', key, s.nodes.Keys) && b in s'.nodes && n in s'.nodes
    requires exists m :: m in s.nodes && key in s.nodes[m].store
    requires Counts(s'.nodes[n], key, n) <= Counts(s.nodes[n], key, n)
    ensures Caught(s', b, n, key)
  {
    var m :| m in s.nodes && key in s.nodes[m].store;
    assert key in s'.nodes[b].store;
  }

  /** The two nodes show the same of the key. */
  predicate Alike(s: System, a: NodeId, b: NodeId, key: string)
    requires a in s.nodes && b in s.nodes
  {
    && (key in s.nodes[a].store <==> key in s.nodes[b].store)
    && (key in s.nodes[a].store && key in s.nodes[b].store ==>
        SameContent(s.nodes[a].store[key], s.nodes[b].store[key]))
  }
}
