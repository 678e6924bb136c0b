/**
 Multi-leader replication under last-write-wins (internal/node/multileader.go).

 Every node stamps its writes with its hybrid logical clock and a vector clock, broadcasts them,
 and re-broadcasts what it stores. A broadcast entry may reach any node any number of times, in
 any order, or never. Timestamps follow the one-line clock that HlcObject refines.
 */
module MultiLeaderModel {
  import opened Storage
  import opened VectorClocks
  import opened Lww
  import H = HlcModel

  datatype Node = Node(clock: int, store: map<string, Entry>)

  datatype System = System(nodes: map<NodeId, Node>, sent: set<(string, Entry)>)

  /** Write and Delete: a tombstone is a write of no value. */
  function Written(id: NodeId, n: Node, key: string, value: Value, tombstone: bool, wall: int): Entry
  {
    var known := if key in n.store then n.store[key].vclock else map[];
    Entry(value, Increment(known, id), H.Tick(n.clock, wall), id, tombstone)
  }

  function Write(id: NodeId, n: Node, key: string, value: Value, tombstone: bool, wall: int): Node
  {
    var e := Written(id, n, key, value, tombstone, wall);
    Node(e.timestamp, n.store[key := e])
  }

  /** What receiveRemoteWrite makes of a stored and a received version. */
  ghost function Reconcile(local: Entry, remote: Entry): Entry
  {
    if EqualTest(remote.vclock, local.vclock) then local
    else if Before(remote.vclock, local.vclock) then local
    else if Before(local.vclock, remote.vclock) then remote
    else Resolve(local, remote).(vclock := Joined(local.vclock, remote.vclock))
  }

  ghost function Receive(n: Node, key: string, remote: Entry, wall: int): Node
  {
    Node(H.Join(n.clock, remote.timestamp, wall),
         n.store[key := if key in n.store then Reconcile(n.store[key], remote) else remote])
  }

  datatype Step =
    | WriteStep(id: NodeId, key: string, value: Value, tombstone: bool, wall: int)
    | ReceiveStep(id: NodeId, key: string, entry: Entry, wall: int)
    | GossipStep(id: NodeId, key: string)

  function Init(members: set<NodeId>): System
  {
    System(map id | id in members :: Node(0, map[]), {})
  }

  ghost predicate Enabled(s: System, step: Step)
  {
    match step
    case WriteStep(id, _, _, _, _) => id in s.nodes
    case ReceiveStep(id, key, e, _) => id in s.nodes && (key, e) in s.sent
    case GossipStep(id, key) => id in s.nodes && key in s.nodes[id].store
  }

  ghost function Take(s: System, step: Step): System
    requires Enabled(s, step)
  {
    match step
    case WriteStep(id, key, value, tombstone, wall) =>
      System(s.nodes[id := Write(id, s.nodes[id], key, value, tombstone, wall)],
             s.sent + {(key, Written(id, s.nodes[id], key, value, tombstone, wall))})
    case ReceiveStep(id, key, e, wall) => s.(nodes := s.nodes[id := Receive(s.nodes[id], key, e, wall)])
    case GossipStep(id, key) => s.(sent := s.sent + {(key, s.nodes[id].store[key])})
  }

  ghost predicate Next(s: System, step: Step, s': System)
  {
    Enabled(s, step) && s' == Take(s, step)
  }

  ghost predicate IsRun(members: set<NodeId>, tr: seq<System>, steps: seq<Step>)
  {
    && |tr| == |steps| + 1
    && tr[0] == Init(members)
    && forall i :: 0 <= i < |steps| ==> Next(tr[i], steps[i], tr[i + 1])
  }

  lemma RunLast(members: set<NodeId>, tr: seq<System>, steps: seq<Step>)
    requires IsRun(members, tr, steps)
    ensures steps == [] ==> tr == [Init(members)]
    ensures steps != [] ==>
      IsRun(members, tr[..|steps|], steps[..|steps| - 1]) && Next(tr[|steps| - 1], steps[|steps| - 1], tr[|steps|])
  {
    hide Next;
  }
}

module MultiLeaderConvergence {
  import opened Storage
  import opened VectorClocks
  import opened Lww
  import opened MultiLeaderModel

  /** The c-th write of a node to a key, by (key, node, c). */
  type Writes = map<(string, NodeId, nat), Entry>

  // ---------------------------------------------------------------- what every entry satisfies

  /** Every write the entry's clock covers happened, and none carries a greater stamp. */
  ghost predicate GreatestOfPast(ws: Writes, key: string, e: Entry)
  {
    forall n, c: nat :: 1 <= c <= At(e.vclock, n) ==> (key, n, c) in ws && AtMost(ws[(key, n, c)], e)
  }

  /** The entry's content is that of a write its clock covers. */
  ghost predicate FromPast(ws: Writes, key: string, e: Entry)
  {
    exists c: nat :: 1 <= c <= At(e.vclock, e.nodeId) && (key, e.nodeId, c) in ws
      && SameContent(ws[(key, e.nodeId, c)], e)
  }

  predicate SameContent(a: Entry, b: Entry)
  {
    SameStamp(a, b) && a.value == b.value && a.tombstone == b.tombstone
  }

  ghost predicate EntryGood(ws: Writes, key: string, e: Entry)
  {
    Positive(e.vclock) && GreatestOfPast(ws, key, e) && FromPast(ws, key, e)
  }

  /** A node stamps its own writes in increasing order, so a stamp names one write. */
  ghost predicate StampsUnique(ws: Writes)
  {
    && (forall k, n, c :: (k, n, c) in ws ==> ws[(k, n, c)].nodeId == n)
    && (forall k, n, c, k', c' :: (k, n, c) in ws && (k', n, c') in ws ==>
        ws[(k, n, c)].timestamp == ws[(k', n, c')].timestamp ==> k == k' && c == c')
  }

  /** Entries of one key with the same clock are the same version. */
  lemma SameClockSameContent(ws: Writes, key: string, a: Entry, b: Entry)
    requires StampsUnique(ws) && EntryGood(ws, key, a) && EntryGood(ws, key, b) && Same(a.vclock, b.vclock)
    ensures SameContent(a, b)
  {
    var c: nat :| 1 <= c <= At(a.vclock, a.nodeId) && (key, a.nodeId, c) in ws
      && SameContent(ws[(key, a.nodeId, c)], a);
    var d: nat :| 1 <= d <= At(b.vclock, b.nodeId) && (key, b.nodeId, d) in ws
      && SameContent(ws[(key, b.nodeId, d)], b);
    assert At(a.vclock, a.nodeId) == At(b.vclock, a.nodeId) && At(a.vclock, b.nodeId) == At(b.vclock, b.nodeId);
    var wa, wb := ws[(key, a.nodeId, c)], ws[(key, b.nodeId, d)];
    assert AtMost(wa, b) && AtMost(wb, a);
    StampsOrdered(a, b);
    assert AtMost(a, b) && AtMost(b, a);
  }

  /** A receive leaves the clock at the join of local and remote, whichever branch it takes. */
  lemma ReconcileJoins(local: Entry, remote: Entry)
    requires Positive(local.vclock) && Positive(remote.vclock)
    ensures IsJoin(local.vclock, remote.vclock, Reconcile(local, remote).vclock)
    ensures Positive(Reconcile(local, remote).vclock)
  {
  }

  lemma ReconcileKeepsGood(ws: Writes, key: string, local: Entry, remote: Entry)
    requires StampsUnique(ws) && EntryGood(ws, key, local) && EntryGood(ws, key, remote)
    ensures EntryGood(ws, key, Reconcile(local, remote))
  {
    ReconcileJoins(local, remote);
    var r := Reconcile(local, remote);
    if r != local && r != remote {
      var w := Resolve(local, remote);
      ResolveIsMax(local, remote);
      forall n, c: nat | 1 <= c <= At(r.vclock, n)
        ensures (key, n, c) in ws && AtMost(ws[(key, n, c)], r)
      {
        if c <= At(local.vclock, n) {
          AtMostTransitive(ws[(key, n, c)], local, w);
        } else {
          assert c <= At(remote.vclock, n);
          AtMostTransitive(ws[(key, n, c)], remote, w);
        }
      }
      var c: nat :| 1 <= c <= At(w.vclock, w.nodeId) && (key, w.nodeId, c) in ws
        && SameContent(ws[(key, w.nodeId, c)], w);
      assert c <= At(r.vclock, r.nodeId);
    }
  }

  // ---------------------------------------------------------------- the invariant

  ghost predicate SentGood(ws: Writes, sent: set<(string, Entry)>)
  {
    forall key, e :: (key, e) in sent ==> EntryGood(ws, key, e)
  }

  /** Stored entries are good and not ahead of the node's clock. */
  ghost predicate StoreGood(ws: Writes, n: Node)
  {
    forall key :: key in n.store ==> EntryGood(ws, key, n.store[key]) && n.store[key].timestamp <= n.clock
  }

  /** A node's own entry counts every write it made, and its clock has passed them. */
  ghost predicate OwnCounted(ws: Writes, id: NodeId, n: Node)
  {
    forall k, c :: (k, id, c) in ws ==>
      1 <= c && ws[(k, id, c)].timestamp <= n.clock && k in n.store && c <= At(n.store[k].vclock, id)
  }

  ghost predicate Inv(s: System, ws: Writes)
  {
    && StampsUnique(ws)
    && SentGood(ws, s.sent)
    && (forall id :: id in s.nodes ==> StoreGood(ws, s.nodes[id]) && OwnCounted(ws, id, s.nodes[id]))
    && (forall k, n, c :: (k, n, c) in ws ==> n in s.nodes)
  }

  /** Writes are only added. */
  ghost predicate Grows(ws: Writes, ws': Writes)
  {
    forall w :: w in ws ==> w in ws' && ws'[w] == ws[w]
  }

  lemma GoodGrows(ws: Writes, ws': Writes, key: string, e: Entry)
    requires EntryGood(ws, key, e) && Grows(ws, ws')
    ensures EntryGood(ws', key, e)
  {
  }

  lemma StoreGrows(ws: Writes, ws': Writes, n: Node)
    requires StoreGood(ws, n) && Grows(ws, ws')
    ensures StoreGood(ws', n)
  {
  }

  // ---------------------------------------------------------------- writes

  lemma WriteIsNew(ws: Writes, id: NodeId, n: Node, key: string, value: Value, tomb: bool, wall: int)
    requires StoreGood(ws, n) && OwnCounted(ws, id, n) && StampsUnique(ws)
    ensures var e := Written(id, n, key, value, tomb, wall);
      (key, id, At(e.vclock, id)) !in ws && StampsUnique(ws[(key, id, At(e.vclock, id)) := e])
  {
  }

  lemma WrittenGood(ws: Writes, id: NodeId, n: Node, key: string, value: Value, tomb: bool, wall: int)
    requires StoreGood(ws, n) && OwnCounted(ws, id, n)
    ensures var e := Written(id, n, key, value, tomb, wall);
      EntryGood(ws[(key, id, At(e.vclock, id)) := e], key, e)
  {
  }

  lemma WriterGood(ws: Writes, ws': Writes, id: NodeId, n: Node, key: string, value: Value, tomb: bool, wall: int)
    requires StoreGood(ws, n) && OwnCounted(ws, id, n) && Grows(ws, ws')
    requires var e := Written(id, n, key, value, tomb, wall);
      ws' == ws[(key, id, At(e.vclock, id)) := e] && EntryGood(ws', key, e)
    ensures StoreGood(ws', Write(id, n, key, value, tomb, wall))
      && OwnCounted(ws', id, Write(id, n, key, value, tomb, wall))
  {
    hide EntryGood;
    StoreGrows(ws, ws', n);
  }

  lemma SentGrows(ws: Writes, ws': Writes, sent: set<(string, Entry)>, key: string, e: Entry)
    requires SentGood(ws, sent) && Grows(ws, ws') && EntryGood(ws', key, e)
    ensures SentGood(ws', sent + {(key, e)})
  {
  }

  lemma WriteKeepsInv(s: System, ws: Writes, id: NodeId, key: string, value: Value, tomb: bool, wall: int)
    requires Inv(s, ws) && id in s.nodes
    ensures var e := Written(id, s.nodes[id], key, value, tomb, wall);
      var ws' := ws[(key, id, At(e.vclock, id)) := e];
      Inv(Take(s, WriteStep(id, key, value, tomb, wall)), ws') && Grows(ws, ws')
  {
    hide EntryGood, StampsUnique, StoreGood, SentGood, Written;
    var n := s.nodes[id];
    var e := Written(id, n, key, value, tomb, wall);
    var ws' := ws[(key, id, At(e.vclock, id)) := e];
    var s' := Take(s, WriteStep(id, key, value, tomb, wall));
    WriteIsNew(ws, id, n, key, value, tomb, wall);
    WrittenGood(ws, id, n, key, value, tomb, wall);
    SentGrows(ws, ws', s.sent, key, e);
    WriterGood(ws, ws', id, n, key, value, tomb, wall);
    forall k | k in s.nodes
      ensures StoreGood(ws', s'.nodes[k]) && OwnCounted(ws', k, s'.nodes[k])
    {
      StoreGrows(ws, ws', s.nodes[k]);
    }
  }

  // ---------------------------------------------------------------- receives

  lemma ReconcileStamp(local: Entry, remote: Entry)
    ensures Reconcile(local, remote).timestamp == local.timestamp
      || Reconcile(local, remote).timestamp == remote.timestamp
  {
  }

  lemma ReceiveKeepsNode(ws: Writes, id: NodeId, n: Node, key: string, e: Entry, wall: int)
    requires StampsUnique(ws) && StoreGood(ws, n) && OwnCounted(ws, id, n) && EntryGood(ws, key, e)
    ensures StoreGood(ws, Receive(n, key, e, wall)) && OwnCounted(ws, id, Receive(n, key, e, wall))
  {
    if key in n.store {
      ReconcileKeepsGood(ws, key, n.store[key], e);
      ReconcileJoins(n.store[key], e);
      ReconcileStamp(n.store[key], e);
    }
    hide EntryGood, Reconcile;
  }

  lemma ReceiveKeepsInv(s: System, ws: Writes, id: NodeId, key: string, e: Entry, wall: int)
    requires Inv(s, ws) && id in s.nodes && (key, e) in s.sent
    ensures Inv(Take(s, ReceiveStep(id, key, e, wall)), ws)
  {
    hide StampsUnique, StoreGood, OwnCounted, EntryGood;
    ReceiveKeepsNode(ws, id, s.nodes[id], key, e, wall);
  }

  // ---------------------------------------------------------------- runs

  /** The write step i and the entry it stored. */
  ghost predicate IsWrite(tr: seq<System>, steps: seq<Step>, i: nat, id: NodeId, key: string, w: Entry)
  {
    && i < |steps| && i + 1 < |tr|
    && steps[i].WriteStep? && steps[i].id == id && steps[i].key == key
    && id in tr[i + 1].nodes && key in tr[i + 1].nodes[id].store && tr[i + 1].nodes[id].store[key] == w
  }

  ghost predicate WritesRecorded(tr: seq<System>, steps: seq<Step>, ws: Writes)
  {
    forall i: nat, id, key, w :: IsWrite(tr, steps, i, id, key, w) ==>
      (key, id, At(w.vclock, id)) in ws && ws[(key, id, At(w.vclock, id))] == w
  }

  /** Every recorded write is a step of the run. */
  ghost predicate WritesReal(tr: seq<System>, steps: seq<Step>, ws: Writes)
  {
    forall k, n, c :: (k, n, c) in ws ==> WrittenIn(tr, steps, n, k, c, ws[(k, n, c)])
  }

  ghost predicate WrittenIn(tr: seq<System>, steps: seq<Step>, id: NodeId, key: string, c: nat, w: Entry)
  {
    At(w.vclock, id) == c && exists i: nat :: IsWrite(tr, steps, i, id, key, w)
  }

  ghost predicate Stores(s: System, id: NodeId, key: string, e: Entry)
  {
    id in s.nodes && key in s.nodes[id].store && s.nodes[id].store[key] == e
  }

  ghost predicate AllGood(tr: seq<System>, ws: Writes)
  {
    && (forall i, id, key, e :: 0 <= i < |tr| && Stores(tr[i], id, key, e) ==> EntryGood(ws, key, e))
    && (forall i, key, e :: 0 <= i < |tr| && (key, e) in tr[i].sent ==> EntryGood(ws, key, e))
  }

  ghost predicate Explains(tr: seq<System>, steps: seq<Step>, ws: Writes)
  {
    && tr != [] && |tr| == |steps| + 1
    && Inv(tr[|tr| - 1], ws)
    && WritesRecorded(tr, steps, ws) && WritesReal(tr, steps, ws)
    && AllGood(tr, ws)
  }

  ghost predicate Explained(tr: seq<System>, steps: seq<Step>)
  {
    exists ws :: Explains(tr, steps, ws)
  }

  lemma InitExplained(members: set<NodeId>)
    ensures Explained([Init(members)], [])
  {
    assert Explains([Init(members)], [], map[]);
  }

  lemma StepKeepsInv(s: System, step: Step, s': System, ws: Writes) returns (ws': Writes)
    requires Inv(s, ws) && Next(s, step, s')
    ensures Inv(s', ws') && Grows(ws, ws') && (!step.WriteStep? ==> ws' == ws)
    ensures step.WriteStep? ==>
      && step.id in s'.nodes && step.key in s'.nodes[step.id].store
      && var w := s'.nodes[step.id].store[step.key]; ws' == ws[(step.key, step.id, At(w.vclock, step.id)) := w]
  {
    hide Inv;
    match step {
      case WriteStep(id, key, value, tomb, wall) =>
        WriteKeepsInv(s, ws, id, key, value, tomb, wall);
        var e := Written(id, s.nodes[id], key, value, tomb, wall);
        ws' := ws[(key, id, At(e.vclock, id)) := e];
      case ReceiveStep(id, key, e, wall) =>
        ws' := ws;
        ReceiveKeepsInv(s, ws, id, key, e, wall);
      case GossipStep(id, key) =>
        ws' := ws;
        GossipKeepsInv(s, ws, id, key);
    }
  }

  lemma StoredIsGood(ws: Writes, n: Node, key: string)
    requires StoreGood(ws, n) && key in n.store
    ensures EntryGood(ws, key, n.store[key])
  {
  }

  lemma GossipKeepsInv(s: System, ws: Writes, id: NodeId, key: string)
    requires Inv(s, ws) && id in s.nodes && key in s.nodes[id].store
    ensures Inv(Take(s, GossipStep(id, key)), ws)
  {
    hide EntryGood, StampsUnique, StoreGood, OwnCounted, SentGood;
    StoredIsGood(ws, s.nodes[id], key);
    SentGrows(ws, ws, s.sent, key, s.nodes[id].store[key]);
  }

  lemma AllGoodExtends(tr: seq<System>, s': System, ws: Writes, ws': Writes)
    requires AllGood(tr, ws) && Grows(ws, ws') && Inv(s', ws')
    ensures AllGood(tr + [s'], ws')
  {
    hide EntryGood, StampsUnique;
    var tr' := tr + [s'];
    forall i, id, key, e | 0 <= i < |tr'| && Stores(tr'[i], id, key, e)
      ensures EntryGood(ws', key, e)
    {
      if i < |tr| {
        GoodGrows(ws, ws', key, e);
      } else {
        assert StoreGood(ws', s'.nodes[id]);
      }
    }
    forall i, key, e | 0 <= i < |tr'| && (key, e) in tr'[i].sent
      ensures EntryGood(ws', key, e)
    {
      if i < |tr| {
        GoodGrows(ws, ws', key, e);
      }
    }
  }

  lemma RecordedExtends(tr: seq<System>, steps: seq<Step>, step: Step, s': System, ws: Writes, ws': Writes)
    requires |tr| == |steps| + 1 && WritesRecorded(tr, steps, ws) && Grows(ws, ws')
    requires step.WriteStep? && step.id in s'.nodes && step.key in s'.nodes[step.id].store ==>
      var w := s'.nodes[step.id].store[step.key];
      (step.key, step.id, At(w.vclock, step.id)) in ws' && ws'[(step.key, step.id, At(w.vclock, step.id))] == w
    ensures WritesRecorded(tr + [s'], steps + [step], ws')
  {
    forall i: nat, id, key, w | IsWrite(tr + [s'], steps + [step], i, id, key, w)
      ensures (key, id, At(w.vclock, id)) in ws' && ws'[(key, id, At(w.vclock, id))] == w
    {
      if i < |steps| {
        assert IsWrite(tr, steps, i, id, key, w);
      }
    }
  }

  lemma WriteExtends(tr: seq<System>, steps: seq<Step>, step: Step, s': System, i: nat, id: NodeId, key: string,
      w: Entry)
    requires |tr| == |steps| + 1 && IsWrite(tr, steps, i, id, key, w)
    ensures IsWrite(tr + [s'], steps + [step], i, id, key, w)
  {
  }

  lemma RealExtends(tr: seq<System>, steps: seq<Step>, step: Step, s': System, ws: Writes, ws': Writes)
    requires |tr| == |steps| + 1 && WritesReal(tr, steps, ws) && (!step.WriteStep? ==> ws' == ws)
    requires step.WriteStep? ==>
      && step.id in s'.nodes && step.key in s'.nodes[step.id].store
      && var w := s'.nodes[step.id].store[step.key]; ws' == ws[(step.key, step.id, At(w.vclock, step.id)) := w]
    ensures WritesReal(tr + [s'], steps + [step], ws')
  {
    hide IsWrite;
    forall k, n, c | (k, n, c) in ws'
      ensures WrittenIn(tr + [s'], steps + [step], n, k, c, ws'[(k, n, c)])
    {
      if (k, n, c) in ws && ws'[(k, n, c)] == ws[(k, n, c)] {
        assert WrittenIn(tr, steps, n, k, c, ws[(k, n, c)]);
        var i: nat :| IsWrite(tr, steps, i, n, k, ws[(k, n, c)]);
        WriteExtends(tr, steps, step, s', i, n, k, ws[(k, n, c)]);
      } else {
        LastIsWrite(tr, steps, step, s', ws'[(k, n, c)]);
      }
    }
  }

  lemma LastIsWrite(tr: seq<System>, steps: seq<Step>, step: Step, s': System, w: Entry)
    requires |tr| == |steps| + 1 && step.WriteStep? && Stores(s', step.id, step.key, w)
    ensures IsWrite(tr + [s'], steps + [step], |steps|, step.id, step.key, w)
  {
  }

  lemma StepExplained(tr: seq<System>, steps: seq<Step>, step: Step, s': System)
    requires Explained(tr, steps) && Next(tr[|tr| - 1], step, s')
    ensures Explained(tr + [s'], steps + [step])
  {
    hide Inv, Next, AllGood, WritesRecorded, WritesReal;
    var ws :| Explains(tr, steps, ws);
    var ws' := StepKeepsInv(tr[|tr| - 1], step, s', ws);
    AllGoodExtends(tr, s', ws, ws');
    RecordedExtends(tr, steps, step, s', ws, ws');
    RealExtends(tr, steps, step, s', ws, ws');
    assert Explains(tr + [s'], steps + [step], ws');
  }

  lemma {:induction false} RunExplained(members: set<NodeId>, tr: seq<System>, steps: seq<Step>)
    requires IsRun(members, tr, steps)
    ensures Explained(tr, steps)
    decreases |steps|
  {
    hide Explained, Next;
    RunLast(members, tr, steps);
    if steps == [] {
      InitExplained(members);
    } else {
      var k := |steps|;
      RunExplained(members, tr[..k], steps[..k - 1]);
      StepExplained(tr[..k], steps[..k - 1], steps[k - 1], tr[k]);
      assert tr == tr[..k] + [tr[k]] && steps == steps[..k - 1] + [steps[k - 1]];
    }
  }

  /**
   Strong convergence: wherever and whenever two replicas hold the same vector clock for a key,
   they hold the same value or tombstone of the same write.
   */
  lemma Convergence(members: set<NodeId>, tr: seq<System>, steps: seq<Step>, i: nat, j: nat,
                    a: NodeId, b: NodeId, key: string, x: Entry, y: Entry)
    requires IsRun(members, tr, steps) && i < |tr| && j < |tr|
    requires Stores(tr[i], a, key, x) && Stores(tr[j], b, key, y) && Same(x.vclock, y.vclock)
    ensures x.value == y.value && x.tombstone == y.tombstone && SameStamp(x, y)
  {
    RunExplained(members, tr, steps);
    var ws :| Explains(tr, steps, ws);
    SameClockSameContent(ws, key, x, y);
  }

  /** The entry is on its way or stored somewhere. */
  ghost predicate Present(s: System, key: string, e: Entry)
  {
    (key, e) in s.sent || exists b :: Stores(s, b, key, e)
  }

  /** Every entry is at least as new as every write of the run that its vector clock covers. */
  lemma NoneGreater(members: set<NodeId>, tr: seq<System>, steps: seq<Step>, j: nat, key: string, e: Entry,
                    i: nat, id: NodeId, w: Entry)
    requires IsRun(members, tr, steps) && j < |tr| && Present(tr[j], key, e)
    requires IsWrite(tr, steps, i, id, key, w) && At(w.vclock, id) <= At(e.vclock, id)
    ensures AtMost(w, e)
  {
    RunExplained(members, tr, steps);
    var ws :| Explains(tr, steps, ws);
    assert EntryGood(ws, key, e);
    assert At(w.vclock, id) >= 1 by {
      assert IsRun(members, tr, steps) && Next(tr[i], steps[i], tr[i + 1]);
    }
  }

  /** Every entry has the content of a write of the run that its vector clock covers. */
  lemma ContentOfWrite(members: set<NodeId>, tr: seq<System>, steps: seq<Step>, j: nat, key: string, e: Entry)
    returns (i: nat, w: Entry)
    requires IsRun(members, tr, steps) && j < |tr| && Present(tr[j], key, e)
    ensures IsWrite(tr, steps, i, e.nodeId, key, w) && At(w.vclock, e.nodeId) <= At(e.vclock, e.nodeId)
      && SameContent(w, e)
  {
    hide IsWrite, Next;
    RunExplained(members, tr, steps);
    var ws :| Explains(tr, steps, ws);
    assert EntryGood(ws, key, e);
    var c: nat :| 1 <= c <= At(e.vclock, e.nodeId) && (key, e.nodeId, c) in ws
      && SameContent(ws[(key, e.nodeId, c)], e);
    w := ws[(key, e.nodeId, c)];
    assert WrittenIn(tr, steps, e.nodeId, key, c, w);
    i :| IsWrite(tr, steps, i, e.nodeId, key, w);
  }

  lemma RunPrefix(members: set<NodeId>, tr: seq<System>, steps: seq<Step>, j: nat)
    requires IsRun(members, tr, steps) && j < |tr|
    ensures IsRun(members, tr[..j + 1], steps[..j])
  {
    hide Next;
  }

  /** A write stores and sends what its client asked for, a delete a tombstone, under its writer's name. */
  lemma WriteStores(members: set<NodeId>, tr: seq<System>, steps: seq<Step>, i: nat)
    requires IsRun(members, tr, steps) && i < |steps| && steps[i].WriteStep?
    ensures steps[i].id in tr[i + 1].nodes && steps[i].key in tr[i + 1].nodes[steps[i].id].store
    ensures var w := tr[i + 1].nodes[steps[i].id].store[steps[i].key];
      && w.value == steps[i].value && w.tombstone == steps[i].tombstone && w.nodeId == steps[i].id
      && (steps[i].key, w) in tr[i + 1].sent
  {
    assert Next(tr[i], steps[i], tr[i + 1]);
  }

  /**
   Every entry, stored or on its way, carries what an earlier write of the run was asked to store and the
   stamp of that write, the greatest by stamp of all the writes its vector clock covers.
   */
  lemma GreatestStamp(members: set<NodeId>, tr: seq<System>, steps: seq<Step>, j: nat, key: string, e: Entry)
    returns (i: nat, w: Entry)
    requires IsRun(members, tr, steps) && j < |tr| && Present(tr[j], key, e)
    ensures i < j && IsWrite(tr, steps, i, e.nodeId, key, w) && At(w.vclock, e.nodeId) <= At(e.vclock, e.nodeId)
    ensures SameStamp(w, e) && e.value == steps[i].value && e.tombstone == steps[i].tombstone
    ensures forall i', id', w' :: IsWrite(tr, steps, i', id', key, w') && At(w'.vclock, id') <= At(e.vclock, id') ==>
      AtMost(w', w)
  {
    hide Next;
    RunPrefix(members, tr, steps, j);
    i, w := ContentOfWrite(members, tr[..j + 1], steps[..j], j, key, e);
    WriteStores(members, tr, steps, i);
    forall i': nat, id', w' | IsWrite(tr, steps, i', id', key, w') && At(w'.vclock, id') <= At(e.vclock, id')
      ensures AtMost(w', w)
    {
      NoneGreater(members, tr, steps, j, key, e, i', id', w');
      AtMostTransitive(w', e, w) by { StampsOrdered(e, w); }
    }
  }

  /** Two replicas that have received each other's version of a key agree on it. */
  lemma ExchangeConverges(members: set<NodeId>, tr: seq<System>, steps: seq<Step>, i: nat,
                          a: NodeId, b: NodeId, key: string, x: Entry, y: Entry)
    requires IsRun(members, tr, steps) && i < |tr| && Stores(tr[i], a, key, x) && Stores(tr[i], b, key, y)
    ensures Same(Reconcile(x, y).vclock, Reconcile(y, x).vclock)
    ensures SameContent(Reconcile(x, y), Reconcile(y, x))
  {
    RunExplained(members, tr, steps);
    var ws :| Explains(tr, steps, ws);
    assert EntryGood(ws, key, x) && EntryGood(ws, key, y);
    ReconcileJoins(x, y);
    ReconcileJoins(y, x);
    JoinUnique(x.vclock, y.vclock, Reconcile(x, y).vclock, Reconcile(y, x).vclock);
    ReconcileKeepsGood(ws, key, x, y);
    ReconcileKeepsGood(ws, key, y, x);
    SameClockSameContent(ws, key, Reconcile(x, y), Reconcile(y, x));
  }
}
