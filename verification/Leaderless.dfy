/**
 Dynamo-style quorum replication (internal/node/leaderless.go).

 Every node coordinates writes and reads over the whole membership. The network may drop and delay
 messages but does not duplicate them. Timestamps are whatever the nodes' clocks say: nothing here
 depends on how they are chosen.
 */
module LeaderlessModel {
  import opened Storage
  import opened Lww
  import opened Quorums

  datatype Message =
    | WriteMsg(src: NodeId, dst: NodeId, seqNo: nat, key: string, entry: Entry)
    | HandoffMsg(src: NodeId, dst: NodeId, key: string, entry: Entry)
    | WriteAck(src: NodeId, dst: NodeId, seqNo: nat)
    | ReadMsg(src: NodeId, dst: NodeId, seqNo: nat, key: string)
    | ReadResp(src: NodeId, dst: NodeId, seqNo: nat, found: Option<Entry>)
    | RepairMsg(src: NodeId, dst: NodeId, key: string, entry: Entry)

  type Versions = map<string, Entry>

  /** A write, or a blocking read repair, that still collects acknowledgements. */
  datatype PendingWrite = PendingWrite(key: string, entry: Entry, acked: set<NodeId>, repair: bool)

  datatype Response = Response(src: NodeId, found: Option<Entry>)

  /** A read that still collects responses. */
  datatype PendingRead = PendingRead(key: string, local: Option<Entry>, needed: nat, resps: seq<Response>)

  datatype Hint = Hint(target: NodeId, key: string, entry: Entry)

  datatype Node = Node(store: Versions, seqNo: nat, writes: map<nat, PendingWrite>,
                       queries: map<nat, PendingRead>, hints: seq<Hint>)

  datatype Effect = Effect(node: Node, out: seq<Message>)

  // ---------------------------------------------------------------- replicas

  function Find(store: Versions, key: string): Option<Entry>
  {
    if key in store then Some(store[key]) else None
  }

  /** applyWrite: the newer version stays. */
  function ApplyWrite(store: Versions, key: string, e: Entry): Versions
  {
    if key !in store || Wins(e, store[key]) then store[key := e] else store
  }

  // ---------------------------------------------------------------- coordinating a write

  /** writeQuorumMet at the plain quorum level, for a coordinator that is itself a replica. */
  predicate QuorumMet(id: NodeId, acked: set<NodeId>, W: int)
  {
    |acked + {id}| >= W
  }

  function WriteMsgs(id: NodeId, seqNo: nat, key: string, e: Entry, targets: seq<NodeId>): seq<Message>
  {
    if targets == [] then []
    else WriteMsgs(id, seqNo, key, e, targets[..|targets| - 1]) + [WriteMsg(id, targets[|targets| - 1], seqNo, key, e)]
  }

  function StartWrite(id: NodeId, n: Node, key: string, e: Entry, targets: seq<NodeId>): Effect
  {
    var q := n.seqNo + 1;
    Effect(n.(store := ApplyWrite(n.store, key, e), seqNo := q,
              writes := n.writes[q := PendingWrite(key, e, {}, false)]),
           WriteMsgs(id, q, key, e, targets))
  }

  function HintsFor(p: PendingWrite, targets: seq<NodeId>): seq<Hint>
  {
    if targets == [] then []
    else
      var t := targets[|targets| - 1];
      HintsFor(p, targets[..|targets| - 1]) + if t in p.acked then [] else [Hint(t, p.key, p.entry)]
  }

  /** collectHints, and the end of a blocking repair: acknowledgements are no longer awaited. */
  function EndWrite(n: Node, q: nat, targets: seq<NodeId>): Effect
  {
    if q !in n.writes then Effect(n, [])
    else
      var p := n.writes[q];
      Effect(n.(writes := n.writes - {q}, hints := n.hints + if p.repair then [] else HintsFor(p, targets)), [])
  }

  function HandoffMsgs(id: NodeId, hints: seq<Hint>): seq<Message>
  {
    if hints == [] then []
    else
      var h := hints[|hints| - 1];
      HandoffMsgs(id, hints[..|hints| - 1]) + [HandoffMsg(id, h.target, h.key, h.entry)]
  }

  function DeliverHints(id: NodeId, n: Node): Effect
  {
    Effect(n.(hints := []), HandoffMsgs(id, n.hints))
  }

  // ---------------------------------------------------------------- coordinating a read

  /** How many remote answers a read waits for: a local miss does not count towards R. */
  function RemoteNeeded(local: Option<Entry>, R: int): nat
  {
    var needed := if local.Some? then R - 1 else R;
    if needed < 0 then 0 else needed
  }

  function ReadMsgs(id: NodeId, seqNo: nat, key: string, targets: seq<NodeId>): seq<Message>
  {
    if targets == [] then []
    else ReadMsgs(id, seqNo, key, targets[..|targets| - 1]) + [ReadMsg(id, targets[|targets| - 1], seqNo, key)]
  }

  function StartRead(id: NodeId, n: Node, key: string, R: int, targets: seq<NodeId>): Effect
  {
    var q := n.seqNo + 1;
    var local := Find(n.store, key);
    var needed := if RemoteNeeded(local, R) > |targets| then |targets| else RemoteNeeded(local, R);
    Effect(n.(seqNo := q, queries := n.queries[q := PendingRead(key, local, needed, [])]),
           ReadMsgs(id, q, key, targets))
  }

  /** The versions a read has seen, its own first. */
  function Seen(local: Option<Entry>, resps: seq<Response>): seq<Entry>
  {
    if resps == [] then (if local.Some? then [local.value] else [])
    else
      var r := resps[|resps| - 1];
      Seen(local, resps[..|resps| - 1]) + if r.found.Some? then [r.found.value] else []
  }

  /** The winner of the entryWins loop. */
  function Newest(es: seq<Entry>): Entry
    requires es != []
  {
    if |es| == 1 then es[0]
    else
      var best := Newest(es[..|es| - 1]);
      if Wins(es[|es| - 1], best) then es[|es| - 1] else best
  }

  function Winner(p: PendingRead): Option<Entry>
  {
    var seen := Seen(p.local, p.resps);
    if seen == [] then None else Some(Newest(seen))
  }

  datatype Reply = QuorumNotMet | NotFound | Found(entry: Entry)

  function ReplyOf(p: PendingRead, R: int): Reply
  {
    if 1 + |p.resps| < R then QuorumNotMet
    else
      match Winner(p)
      case None => NotFound
      case Some(best) => if best.tombstone then NotFound else Found(best)
  }

  /** The responders a read repairs: those without the key or with an older version. */
  function Stale(best: Entry, resps: seq<Response>): seq<NodeId>
  {
    if resps == [] then []
    else
      var r := resps[|resps| - 1];
      Stale(best, resps[..|resps| - 1]) +
      if r.found.None? || Wins(best, r.found.value) then [r.src] else []
  }

  function RepairMsgs(id: NodeId, key: string, e: Entry, targets: seq<NodeId>): seq<Message>
  {
    if targets == [] then []
    else RepairMsgs(id, key, e, targets[..|targets| - 1]) + [RepairMsg(id, targets[|targets| - 1], key, e)]
  }

  /** An entry that carries content: metadata alone is never written back. */
  predicate Solid(e: Entry)
  {
    e.value.Some? || e.tombstone
  }

  /** Read repair: the own copy, then the stale responders, blocking or not. */
  function Repair(id: NodeId, n: Node, p: PendingRead, best: Entry, sync: bool): Effect
  {
    var n' := if (p.local.None? || Wins(best, p.local.value)) && Solid(best)
              then n.(store := ApplyWrite(n.store, p.key, best)) else n;
    var stale := Stale(best, p.resps);
    if stale == [] || !Solid(best) then Effect(n', [])
    else if sync then
      var q := n'.seqNo + 1;
      Effect(n'.(seqNo := q, writes := n'.writes[q := PendingWrite(p.key, best, {}, true)]),
             WriteMsgs(id, q, p.key, best, stale))
    else Effect(n', RepairMsgs(id, p.key, best, stale))
  }

  /** The end of Read. */
  function EndRead(id: NodeId, n: Node, q: nat, R: int, sync: bool): Effect
  {
    if q !in n.queries then Effect(n, [])
    else
      var p := n.queries[q];
      var n' := n.(queries := n.queries - {q});
      if 1 + |p.resps| < R || Winner(p).None? then Effect(n', [])
      else Repair(id, n', p, Winner(p).value, sync)
  }

  // ---------------------------------------------------------------- messages

  function Handle(id: NodeId, n: Node, m: Message): Effect
  {
    match m
    case WriteMsg(src, _, seqNo, key, e) =>
      Effect(n.(store := ApplyWrite(n.store, key, e)), [WriteAck(id, src, seqNo)])
    case HandoffMsg(src, _, key, e) =>
      Effect(n.(store := ApplyWrite(n.store, key, e)), [WriteAck(id, src, 0)])
    case WriteAck(src, _, q) =>
      Effect(if q in n.writes then n.(writes := n.writes[q := n.writes[q].(acked := n.writes[q].acked + {src})])
        else n, [])
    case ReadMsg(src, _, q, key) => Effect(n, [ReadResp(id, src, q, Find(n.store, key))])
    case ReadResp(src, _, q, found) =>
      Effect(if q in n.queries && |n.queries[q].resps| < n.queries[q].needed
             then n.(queries := n.queries[q := n.queries[q].(resps := n.queries[q].resps + [Response(src, found)])])
               else n, [])
    case RepairMsg(_, _, key, e) => Effect(n.(store := ApplyWrite(n.store, key, e)), [])
  }

  // ---------------------------------------------------------------- the cluster

  datatype System = System(nodes: map<NodeId, Node>, net: multiset<Message>)

  datatype Step =
    | WriteStep(id: NodeId, key: string, entry: Entry, targets: seq<NodeId>)
    | EndWriteStep(id: NodeId, seqNo: nat, targets: seq<NodeId>)
    | HandoffStep(id: NodeId)
    | ReadStep(id: NodeId, key: string, targets: seq<NodeId>)
    | EndReadStep(id: NodeId, seqNo: nat, sync: bool)
    | DeliverStep(m: Message)
    | DropStep(m: Message)

  const NEW_NODE := Node(map[], 0, map[], map[], [])

  function Init(members: set<NodeId>): System
  {
    System(map n | n in members :: NEW_NODE, multiset{})
  }

  ghost predicate Distinct(s: seq<NodeId>)
  {
    forall i, j :: 0 <= i < j < |s| ==> s[i] != s[j]
  }

  function Listed(s: seq<NodeId>): set<NodeId>
  {
    set t | t in s
  }

  /** The replicas of a key other than the coordinator: with N equal to the membership, everyone else. */
  ghost predicate Others(members: set<NodeId>, id: NodeId, targets: seq<NodeId>)
  {
    Distinct(targets) && Listed(targets) == members - {id}
  }

  /** What readTargets may return: any sample of the others of the asked-for size, or all of them. */
  ghost predicate Sample(members: set<NodeId>, id: NodeId, count: nat, targets: seq<NodeId>)
  {
    && Distinct(targets) && (forall t :: t in targets ==> t in members && t != id)
    && |targets| == if count < |members - {id}| then count else |members - {id}|
  }

  ghost predicate Enabled(members: set<NodeId>, cfg: QuorumConfig, s: System, step: Step)
  {
    && s.nodes.Keys == members
    && match step
       case WriteStep(id, _, _, targets) => id in members && Others(members, id, targets)
       case EndWriteStep(id, _, targets) => id in members && Others(members, id, targets)
       case HandoffStep(id) => id in members
       case ReadStep(id, key, targets) =>
         id in members && Sample(members, id, RemoteNeeded(Find(s.nodes[id].store, key), cfg.R), targets)
       case EndReadStep(id, _, _) => id in members
       case DeliverStep(m) => m in s.net && m.dst in members
       case DropStep(m) => m in s.net
  }

  function Actor(step: Step): NodeId
    requires !step.DropStep?
  {
    if step.DeliverStep? then step.m.dst else step.id
  }

  function Outcome(cfg: QuorumConfig, n: Node, step: Step): Effect
    requires !step.DropStep?
  {
    match step
    case WriteStep(id, key, e, targets) => StartWrite(id, n, key, e, targets)
    case EndWriteStep(_, q, targets) => EndWrite(n, q, targets)
    case HandoffStep(id) => DeliverHints(id, n)
    case ReadStep(id, key, targets) => StartRead(id, n, key, cfg.R, targets)
    case EndReadStep(id, q, sync) => EndRead(id, n, q, cfg.R, sync)
    case DeliverStep(m) => Handle(m.dst, n, m)
  }

  function Consumed(net: multiset<Message>, step: Step): multiset<Message>
  {
    if step.DeliverStep? || step.DropStep? then net - multiset{step.m} else net
  }

  ghost function Take(members: set<NodeId>, cfg: QuorumConfig, s: System, step: Step): System
    requires Enabled(members, cfg, s, step)
  {
    if step.DropStep? then s.(net := Consumed(s.net, step))
    else
      var e := Outcome(cfg, s.nodes[Actor(step)], step);
      System(s.nodes[Actor(step) := e.node], Consumed(s.net, step) + multiset(e.out))
  }

  ghost predicate Next(members: set<NodeId>, cfg: QuorumConfig, s: System, step: Step, s': System)
  {
    Enabled(members, cfg, s, step) && s' == Take(members, cfg, s, step)
  }

  ghost predicate IsRun(members: set<NodeId>, cfg: QuorumConfig, tr: seq<System>, steps: seq<Step>)
  {
    && |tr| == |steps| + 1
    && tr[0] == Init(members)
    && forall i :: 0 <= i < |steps| ==> Next(members, cfg, tr[i], steps[i], tr[i + 1])
  }
}
