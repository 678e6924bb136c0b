/**
 Log Matching: in every run without compaction, two logs that hold an entry of the same index and
 term are identical up to that index, also when they are looked at at different times.

 The proof follows a run with the log of each term's leader, as it stood when that leader last
 appended: an entry of term t can only sit where the leader of t put it, behind the same entries.
 */
module RaftLogMatching {
  import opened Storage
  import opened RaftModel
  import E = RaftElection
  import L = LogModel

  type TermLogs = map<nat, seq<LogEntry>>
  type Leaders = map<nat, NodeId>

  /** Position i of the log is where the leader of its term put it, behind the leader's entries. */
  ghost predicate PlacedByLeader(tl: TermLogs, log: seq<LogEntry>, i: nat)
    requires i < |log|
  {
    var t := log[i].term;
    t in tl && i < |tl[t]| && log[..i + 1] == tl[t][..i + 1]
  }

  ghost predicate Coherent(tl: TermLogs, log: seq<LogEntry>)
  {
    forall i :: 0 <= i < |log| ==> PlacedByLeader(tl, log, i)
  }

  lemma CoherentAgree(tl: TermLogs, a: seq<LogEntry>, b: seq<LogEntry>, k: nat)
    requires Coherent(tl, a) && Coherent(tl, b)
    requires 1 <= k <= |a| && k <= |b| && a[k - 1].term == b[k - 1].term
    ensures a[..k] == b[..k]
  {
    assert PlacedByLeader(tl, a, k - 1) && PlacedByLeader(tl, b, k - 1);
  }

  lemma CoherentPrefix(tl: TermLogs, log: seq<LogEntry>, k: nat)
    requires Coherent(tl, log) && k <= |log|
    ensures Coherent(tl, log[..k])
  {
    forall i | 0 <= i < k
      ensures PlacedByLeader(tl, log[..k], i)
    {
      assert PlacedByLeader(tl, log, i);
      assert log[..k][..i + 1] == log[..i + 1];
    }
  }

  /** Leaders' logs only grow. */
  ghost predicate Grows(tl: TermLogs, tl': TermLogs)
  {
    forall t :: t in tl ==> t in tl' && tl[t] <= tl'[t]
  }

  lemma CoherentGrows(tl: TermLogs, tl': TermLogs, log: seq<LogEntry>)
    requires Coherent(tl, log) && Grows(tl, tl')
    ensures Coherent(tl', log)
  {
    forall i | 0 <= i < |log|
      ensures PlacedByLeader(tl', log, i)
    {
      assert PlacedByLeader(tl, log, i);
    }
  }

  // ---------------------------------------------------------------- the invariant

  /** What log replication sees of a node. */
  datatype Holder = Holder(currentTerm: nat, role: Role, entries: seq<LogEntry>, snapshotIndex: nat)

  datatype Shelf = Shelf(nodes: map<NodeId, Holder>, net: multiset<Message>)

  function HolderOf(n: Node): Holder
  {
    Holder(n.currentTerm, n.role, n.log.entries, n.log.snapshotIndex)
  }

  function View(s: System): Shelf
  {
    Shelf(map id | id in s.nodes :: HolderOf(s.nodes[id]), s.net)
  }

  ghost predicate TermLogsGood(leaders: Leaders, tl: TermLogs)
  {
    && tl.Keys == leaders.Keys
    && forall t :: t in tl ==> Coherent(tl, tl[t]) && L.Numbered(tl[t])
  }

  ghost predicate HolderGood(tl: TermLogs, n: Holder)
  {
    && n.snapshotIndex == 0
    && Coherent(tl, n.entries)
    && (n.role == Leader ==> n.currentTerm in tl && n.entries == tl[n.currentTerm])
  }

  ghost predicate HoldersGood(tl: TermLogs, nodes: map<NodeId, Holder>)
  {
    forall id :: id in nodes ==> HolderGood(tl, nodes[id])
  }

  /** Entries travel as a slice of the log of the leader that sent them. */
  ghost predicate MessageGood(leaders: Leaders, tl: TermLogs, m: Message)
  {
    && !m.InstallSnap?
    && (m.AppendEntries? ==>
        && m.term in leaders && leaders[m.term] == m.src && m.src != m.dst && m.term in tl
        && (m.entries != [] ==> SliceOf(tl[m.term], m)))
  }

  ghost predicate SliceOf(log: seq<LogEntry>, m: Message)
    requires m.AppendEntries?
  {
    var end := m.prevLogIndex + |m.entries|;
    end <= |log| && m.entries == log[m.prevLogIndex..end] && m.prevLogTerm == L.PlainTermAt(log, m.prevLogIndex)
  }

  ghost predicate NetGood(leaders: Leaders, tl: TermLogs, net: multiset<Message>)
  {
    forall m :: m in net ==> MessageGood(leaders, tl, m)
  }

  /** Terms do not run ahead of their leaders, and a candidate has not led its term before. */
  ghost predicate CandidatesNew(nodes: map<NodeId, Holder>, leaders: Leaders)
  {
    && (forall t :: t in leaders ==> leaders[t] in nodes && t <= nodes[leaders[t]].currentTerm)
    && (forall id :: id in nodes && nodes[id].role == Candidate ==>
        !(nodes[id].currentTerm in leaders && leaders[nodes[id].currentTerm] == id))
  }

  ghost predicate LeadersKnown(nodes: map<NodeId, Holder>, leaders: Leaders)
  {
    forall id :: id in nodes && nodes[id].role == Leader ==>
      nodes[id].currentTerm in leaders && leaders[nodes[id].currentTerm] == id
  }

  ghost predicate LogInv(s: Shelf, leaders: Leaders, tl: TermLogs)
  {
    && TermLogsGood(leaders, tl)
    && HoldersGood(tl, s.nodes)
    && NetGood(leaders, tl, s.net)
    && CandidatesNew(s.nodes, leaders)
  }

  // ---------------------------------------------------------------- one node changes

  /** The node did not become leader, and did not go back to being a candidate of its term. */
  ghost predicate NoNewLeader(n: Holder, n': Holder)
  {
    && n'.currentTerm >= n.currentTerm
    && (n'.role == Leader ==> n.role == Leader && n'.currentTerm == n.currentTerm)
    && (n'.role == Candidate ==> n'.currentTerm > n.currentTerm || n.role == Candidate)
  }

  lemma HolderReplaced(s: Shelf, leaders: Leaders, tl: TermLogs, id: NodeId, n': Holder, net': multiset<Message>)
    requires LogInv(s, leaders, tl) && id in s.nodes && NoNewLeader(s.nodes[id], n') && HolderGood(tl, n')
    requires NetGood(leaders, tl, net')
    ensures LogInv(Shelf(s.nodes[id := n'], net'), leaders, tl)
  {
  }

  lemma NetAfter(leaders: Leaders, tl: TermLogs, net: multiset<Message>, step: Step, out: seq<Message>)
    requires NetGood(leaders, tl, net) && forall m :: m in out ==> MessageGood(leaders, tl, m)
    ensures NetGood(leaders, tl, Consumed(net, step) + multiset(out))
  {
  }

  // ---------------------------------------------------------------- the leader's own steps

  lemma SendGood(leaders: Leaders, tl: TermLogs, id: NodeId, n: Node, peer: NodeId)
    requires HolderGood(tl, HolderOf(n)) && peer != id
    requires n.role == Leader ==> n.currentTerm in leaders && leaders[n.currentTerm] == id
    ensures forall m :: m in SendAppend(id, n, peer) ==> MessageGood(leaders, tl, m)
  {
  }

  lemma MessagesGrow(leaders: Leaders, leaders': Leaders, tl: TermLogs, tl': TermLogs, m: Message)
    requires MessageGood(leaders, tl, m) && Grows(tl, tl')
    requires forall t :: t in leaders ==> t in leaders' && leaders'[t] == leaders[t]
    ensures MessageGood(leaders', tl', m)
  {
  }

  lemma NetGrows(net: multiset<Message>, net': multiset<Message>, leaders: Leaders, leaders': Leaders, tl: TermLogs,
      tl': TermLogs)
    requires net' <= net && NetGood(leaders, tl, net) && Grows(tl, tl')
    requires forall t :: t in leaders ==> t in leaders' && leaders'[t] == leaders[t]
    ensures NetGood(leaders', tl', net')
  {
  }

  /** A leader's append keeps every term log coherent. */
  lemma TermLogAppended(leaders: Leaders, tl: TermLogs, t: nat, e: LogEntry)
    requires TermLogsGood(leaders, tl) && t in tl && e.term == t && e.index == |tl[t]| + 1
    ensures var tl' := tl[t := tl[t] + [e]]; TermLogsGood(leaders, tl') && Grows(tl, tl')
  {
    var log := tl[t] + [e];
    var tl' := tl[t := log];
    forall u | u in tl
      ensures Coherent(tl', tl[u])
    {
      CoherentGrows(tl, tl', tl[u]);
    }
    forall i | 0 <= i < |log|
      ensures PlacedByLeader(tl', log, i)
    {
      if i < |tl[t]| {
        assert PlacedByLeader(tl', tl[t], i);
        assert log[..i + 1] == tl[t][..i + 1];
      }
    }
  }

  /** So does recording the log of a term's first leader. */
  lemma TermLogAdded(leaders: Leaders, tl: TermLogs, t: nat, id: NodeId, log: seq<LogEntry>)
    requires TermLogsGood(leaders, tl) && t !in leaders && Coherent(tl, log) && L.Numbered(log)
    ensures TermLogsGood(leaders[t := id], tl[t := log]) && Grows(tl, tl[t := log])
  {
    var tl' := tl[t := log];
    forall u | u in tl
      ensures Coherent(tl', tl[u])
    {
      CoherentGrows(tl, tl', tl[u]);
    }
    CoherentGrows(tl, tl', log);
  }

  lemma HoldersGrow(nodes: map<NodeId, Holder>, tl: TermLogs, tl': TermLogs, id: NodeId, n': Holder)
    requires HoldersGood(tl, nodes) && Grows(tl, tl') && HolderGood(tl', n')
    requires forall u :: u in tl && u != n'.currentTerm ==> tl'[u] == tl[u]
    requires forall k :: k in nodes && k != id && nodes[k].role == Leader ==> nodes[k].currentTerm != n'.currentTerm
    ensures HoldersGood(tl', nodes[id := n'])
  {
    forall k | k in nodes && k != id
      ensures HolderGood(tl', nodes[k])
    {
      CoherentGrows(tl, tl', nodes[k].entries);
    }
  }

  /** A leader's append extends its own term's log and nothing else. */
  lemma ProposeKeepsInv(s: Shelf, leaders: Leaders, tl: TermLogs, id: NodeId, e: LogEntry) returns (tl': TermLogs)
    requires LogInv(s, leaders, tl) && LeadersKnown(s.nodes, leaders)
    requires id in s.nodes && s.nodes[id].role == Leader
    requires e.term == s.nodes[id].currentTerm && e.index == |s.nodes[id].entries| + 1
    ensures LogInv(s.(nodes := s.nodes[id := s.nodes[id].(entries := s.nodes[id].entries + [e])]), leaders, tl')
    ensures Grows(tl, tl') && tl' == tl[e.term := s.nodes[id].entries + [e]]
  {
    hide Coherent, NetGood, Grows;
    var n := s.nodes[id];
    var n' := n.(entries := n.entries + [e]);
    assert HolderGood(tl, n);
    tl' := tl[e.term := n'.entries];
    TermLogAppended(leaders, tl, e.term, e);
    HoldersGrow(s.nodes, tl, tl', id, n');
    NetGrows(s.net, s.net, leaders, leaders, tl, tl');
  }

  /** A new leader's log becomes its term's log; no entry of that term existed before. */
  lemma WinKeepsInv(s: Shelf, net': multiset<Message>, leaders: Leaders, tl: TermLogs, id: NodeId)
      returns (tl': TermLogs)
    requires LogInv(s, leaders, tl) && LeadersKnown(s.nodes, leaders)
    requires id in s.nodes && s.nodes[id].currentTerm !in leaders && L.Numbered(s.nodes[id].entries)
    requires net' <= s.net
    ensures LogInv(Shelf(s.nodes[id := s.nodes[id].(role := Leader)], net'), leaders[s.nodes[id].currentTerm := id],
      tl')
    ensures Grows(tl, tl') && tl' == tl[s.nodes[id].currentTerm := s.nodes[id].entries]
  {
    var n := s.nodes[id];
    assert HolderGood(tl, n);
    tl' := tl[n.currentTerm := n.entries];
    TermLogAdded(leaders, tl, n.currentTerm, id, n.entries);
    CoherentGrows(tl, tl', n.entries);
    HoldersGrow(s.nodes, tl, tl', id, n.(role := Leader));
    NetGrows(s.net, net', leaders, leaders[n.currentTerm := id], tl, tl');
  }

  // ---------------------------------------------------------------- AppendEntries at a follower

  lemma SliceEntryApplied(tl: TermLogs, log: seq<LogEntry>, l: GoodLog, j: nat)
    requires Coherent(tl, log) && L.Numbered(log) && Coherent(tl, l.entries) && l.snapshotIndex == 0
    requires j < |log| && j <= |l.entries| && l.entries[..j] == log[..j]
    ensures var r := L.Receive(l, log[j]).entries;
      && (r == l.entries || r == log[..j + 1])
      && j + 1 <= |r| && r[..j + 1] == log[..j + 1]
      && Coherent(tl, r)
  {
    var e := log[j];
    if j < |l.entries| && l.entries[j].term == e.term {
      CoherentAgree(tl, l.entries, log, j + 1);
    } else {
      assert L.Receive(l, e).entries == l.entries[..j] + [e] == log[..j + 1];
      CoherentPrefix(tl, log, j + 1);
    }
  }

  /** The log is left as it was or became the sender's log up to n; either way it holds that much of it. */
  ghost predicate Sliced(log: seq<LogEntry>, before: seq<LogEntry>, after: seq<LogEntry>, n: nat)
  {
    n <= |log| && n <= |after| && after[..n] == log[..n] && (after == before || after == log[..n])
  }

  lemma SlicedMore(log: seq<LogEntry>, before: seq<LogEntry>, mid: seq<LogEntry>, after: seq<LogEntry>, n: nat)
    requires Sliced(log, before, mid, n) && n < |log|
    requires (after == mid || after == log[..n + 1]) && n + 1 <= |after| && after[..n + 1] == log[..n + 1]
    ensures Sliced(log, before, after, n + 1)
  {
  }

  /**
   AppendAfter keeps, skips or truncates so that the log is left as it was or becomes the sender's
   log up to the end of the slice, however stale or overlapping the message is.
   */
  lemma {:induction false} SliceApplied(tl: TermLogs, log: seq<LogEntry>, l: GoodLog, prev: nat, es: seq<LogEntry>)
    requires Coherent(tl, log) && L.Numbered(log) && Coherent(tl, l.entries) && l.snapshotIndex == 0
    requires prev + |es| <= |log| && es == log[prev..prev + |es|]
    requires prev <= |l.entries| && l.entries[..prev] == log[..prev]
    ensures Sliced(log, l.entries, L.AppendAfter(l, es).entries, prev + |es|)
    ensures Coherent(tl, L.AppendAfter(l, es).entries)
    decreases |es|
  {
    hide Coherent, L.Receive, L.Numbered, L.AppendAfter;
    AppendAfterLast(l, es);
    if es != [] {
      var k := |es| - 1;
      LastOfSlice(log, prev, es);
      SliceApplied(tl, log, l, prev, es[..k]);
      var mid := L.AppendAfter(l, es[..k]);
      SliceEntryApplied(tl, log, mid, prev + k);
      SlicedMore(log, l.entries, mid.entries, L.Receive(mid, log[prev + k]).entries, prev + k);
    }
  }

  lemma AppendAfterLast(l: GoodLog, es: seq<LogEntry>)
    ensures es == [] ==> L.AppendAfter(l, es) == l
    ensures es != [] ==> L.AppendAfter(l, es) == L.Receive(L.AppendAfter(l, es[..|es| - 1]), es[|es| - 1])
  {
  }

  lemma LastOfSlice(log: seq<LogEntry>, prev: nat, es: seq<LogEntry>)
    requires es != [] && prev + |es| <= |log| && es == log[prev..prev + |es|]
    ensures es[..|es| - 1] == log[prev..prev + |es| - 1] && es[|es| - 1] == log[prev + |es| - 1]
  {
  }

  lemma MatchedPrefix(tl: TermLogs, log: seq<LogEntry>, l: GoodLog, prev: nat)
    requires Coherent(tl, log) && Coherent(tl, l.entries) && l.snapshotIndex == 0 && prev <= |log|
    requires L.Matches(l, prev, L.PlainTermAt(log, prev))
    ensures prev <= |l.entries| && l.entries[..prev] == log[..prev]
  {
    if prev > 0 {
      CoherentAgree(tl, l.entries, log, prev);
    }
  }

  /** A follower's log after AppendEntries is the old one or what AppendAfter makes of it. */
  lemma HandlerLog(id: NodeId, n: Node, m: Message)
    requires m.AppendEntries?
    ensures var n' := HandleAppendEntries(id, n, m).node;
      && n'.log.snapshotIndex == n.log.snapshotIndex && n'.currentTerm >= n.currentTerm
      && (n'.role == Follower || (n'.role == n.role && n'.currentTerm == n.currentTerm && n'.log == n.log))
      && (|| n'.log.entries == n.log.entries
          || (L.Matches(n.log, m.prevLogIndex, m.prevLogTerm)
            && n'.log.entries == L.AppendAfter(n.log, m.entries).entries))
  {
    hide L.Matches, ApplyCommitted, ApplyEntries, L.AppendAfter;
  }

  lemma AppendHandled(leaders: Leaders, tl: TermLogs, n: Node, m: Message)
    requires TermLogsGood(leaders, tl) && HolderGood(tl, HolderOf(n)) && m.AppendEntries? && MessageGood(leaders, tl, m)
    ensures HolderGood(tl, HolderOf(HandleAppendEntries(m.dst, n, m).node))
  {
    hide HandleAppendEntries;
    HandlerLog(m.dst, n, m);
    if L.Matches(n.log, m.prevLogIndex, m.prevLogTerm) && m.entries != [] {
      var log := tl[m.term];
      MatchedPrefix(tl, log, n.log, m.prevLogIndex);
      SliceApplied(tl, log, n.log, m.prevLogIndex, m.entries);
    }
  }

  // ---------------------------------------------------------------- every step keeps the invariant

  /** Steps that neither count a vote nor touch a log. */
  ghost predicate LogsAlone(s: System, step: Step)
  {
    || step.ElectStep?
    || step.SendAppendStep?
    || (step.DeliverStep? && !step.m.AppendEntries? && !step.m.InstallSnap? && !E.CountsVote(s, step))
  }

  lemma AloneHolder(c: Cluster, s: System, step: Step)
    requires Enabled(c, s, step) && LogsAlone(s, step)
    ensures var n, n' := HolderOf(s.nodes[Actor(step)]), HolderOf(Outcome(c, s, step).node);
      n'.entries == n.entries && n'.snapshotIndex == n.snapshotIndex && NoNewLeader(n, n')
  {
  }

  lemma AloneMessages(c: Cluster, s: System, leaders: Leaders, tl: TermLogs, step: Step)
    requires Enabled(c, s, step) && LogsAlone(s, step) && HoldersGood(tl, View(s).nodes)
      && LeadersKnown(View(s).nodes, leaders)
    ensures forall m :: m in Outcome(c, s, step).out ==> MessageGood(leaders, tl, m)
  {
    if step.SendAppendStep? {
      E.PeerIsOther(c, step.id, step.peer);
      assert View(s).nodes[step.id] == HolderOf(s.nodes[step.id]);
      SendGood(leaders, tl, step.id, s.nodes[step.id], step.peer);
    }
  }

  lemma ViewPut(s: System, id: NodeId, e: Effect, net: multiset<Message>)
    ensures View(Put(s, id, e, net)) == Shelf(View(s).nodes[id := HolderOf(e.node)], net + multiset(e.out))
  {
  }

  lemma AloneKeepsInv(c: Cluster, s: System, leaders: Leaders, tl: TermLogs, step: Step)
    requires LogInv(View(s), leaders, tl) && LeadersKnown(View(s).nodes, leaders)
    requires Enabled(c, s, step) && LogsAlone(s, step)
    ensures LogInv(View(Take(c, s, step)), leaders, tl)
  {
    var id, e := Actor(step), Outcome(c, s, step);
    AloneHolder(c, s, step);
    AloneMessages(c, s, leaders, tl, step);
    NetAfter(leaders, tl, s.net, step, e.out);
    ViewPut(s, id, e, Consumed(s.net, step));
    hide Outcome, LogsAlone, Enabled, NoNewLeader, MessageGood;
    assert View(s).nodes[id] == HolderOf(s.nodes[id]);
    HolderReplaced(View(s), leaders, tl, id, HolderOf(e.node), Consumed(s.net, step) + multiset(e.out));
  }

  lemma AppendKeepsInv(c: Cluster, s: System, leaders: Leaders, tl: TermLogs, m: Message)
    requires LogInv(View(s), leaders, tl) && Enabled(c, s, DeliverStep(m)) && m.AppendEntries?
    ensures LogInv(View(Take(c, s, DeliverStep(m))), leaders, tl)
  {
    hide HandleAppendEntries, MessageGood, HolderGood;
    var n, e := s.nodes[m.dst], HandleAppendEntries(m.dst, s.nodes[m.dst], m);
    assert View(s).nodes[m.dst] == HolderOf(n);
    AppendHandled(leaders, tl, n, m);
    HandlerLog(m.dst, n, m);
    AppendAnswer(m.dst, n, m);
    AckGood(leaders, tl, e.out);
    NetAfter(leaders, tl, s.net, DeliverStep(m), e.out);
    ViewPut(s, m.dst, e, s.net - multiset{m});
    HolderReplaced(View(s), leaders, tl, m.dst, HolderOf(e.node), s.net - multiset{m} + multiset(e.out));
  }

  lemma AppendAnswer(id: NodeId, n: Node, m: Message)
    requires m.AppendEntries?
    ensures forall x :: x in HandleAppendEntries(id, n, m).out ==> x.AppendAck?
  {
  }

  lemma AckGood(leaders: Leaders, tl: TermLogs, out: seq<Message>)
    requires forall x :: x in out ==> x.AppendAck?
    ensures forall x :: x in out ==> MessageGood(leaders, tl, x)
  {
  }

  lemma ProposeStepKeepsInv(c: Cluster, s: System, leaders: Leaders, tl: TermLogs, step: Step) returns (tl': TermLogs)
    requires LogInv(View(s), leaders, tl) && LeadersKnown(View(s).nodes, leaders)
    requires Enabled(c, s, step) && step.ProposeStep?
    ensures LogInv(View(Take(c, s, step)), leaders, tl') && Grows(tl, tl')
    ensures var n := s.nodes[step.id];
      tl' == if n.role == Leader then tl[n.currentTerm := Outcome(c, s, step).node.log.entries] else tl
  {
    var id, n := step.id, s.nodes[step.id];
    var e := Outcome(c, s, step);
    ViewPut(s, id, e, s.net);
    assert View(s).nodes[id] == HolderOf(n);
    assert HolderGood(tl, HolderOf(n));
    if n.role == Leader {
      var entry := LogEntry(n.log.nextIndex, n.currentTerm, step.key, step.value, step.op, step.ts, id, map[]);
      tl' := ProposeKeepsInv(View(s), leaders, tl, id, entry);
    } else {
      tl' := tl;
      assert e.node == n && e.out == [];
      assert View(s).nodes[id := HolderOf(n)] == View(s).nodes;
    }
  }

  lemma CountKeepsInv(c: Cluster, s: System, leaders: Leaders, leaders': Leaders, tl: TermLogs, m: Message)
      returns (tl': TermLogs)
    requires LogInv(View(s), leaders, tl) && LeadersKnown(View(s).nodes, leaders)
    requires Enabled(c, s, DeliverStep(m)) && E.CountsVote(s, DeliverStep(m))
    requires forall t :: t in leaders ==> t in leaders' && leaders'[t] == leaders[t]
    requires leaders' == if Outcome(c, s, DeliverStep(m)).node.role == Leader then leaders[m.term := m.dst] else leaders
    ensures LogInv(View(Take(c, s, DeliverStep(m))), leaders', tl') && Grows(tl, tl')
    ensures tl' == if Outcome(c, s, DeliverStep(m)).node.role == Leader then tl[m.term := s.nodes[m.dst].log.entries]
      else tl
  {
    var id, n := m.dst, s.nodes[m.dst];
    var e := HandleVoteResponse(id, c.peers[id], n, m);
    ViewPut(s, id, e, s.net - multiset{m});
    assert View(s).nodes[id] == HolderOf(n);
    assert HolderGood(tl, HolderOf(n));
    if e.node.role == Leader {
      tl' := WinKeepsInv(View(s), s.net - multiset{m}, leaders, tl, id);
    } else {
      tl' := tl;
      NetAfter(leaders, tl, s.net, DeliverStep(m), []);
      HolderReplaced(View(s), leaders, tl, id, HolderOf(n), s.net - multiset{m});
    }
  }

  /** A win and a leader's append are what changes a term's log. */
  ghost function TermLogsAfter(c: Cluster, s: System, step: Step, tl: TermLogs): TermLogs
    requires Enabled(c, s, step)
  {
    if E.CountsVote(s, step) && Outcome(c, s, step).node.role == Leader then
      tl[step.m.term := s.nodes[step.m.dst].log.entries]
    else if step.ProposeStep? && s.nodes[step.id].role == Leader then
      tl[s.nodes[step.id].currentTerm := Outcome(c, s, step).node.log.entries]
    else tl
  }

  lemma StepKeepsLogInv(c: Cluster, s: System, step: Step, s': System, leaders: Leaders, leaders': Leaders,
      tl: TermLogs)
    returns (tl': TermLogs)
    requires LogInv(View(s), leaders, tl) && LeadersKnown(View(s).nodes, leaders)
    requires Next(c, s, step, s') && !step.CompactStep?
    requires forall t :: t in leaders ==> t in leaders' && leaders'[t] == leaders[t]
    requires leaders' == if E.CountsVote(s, step) && Outcome(c, s, step).node.role == Leader
                         then leaders[step.m.term := step.m.dst] else leaders
    ensures LogInv(View(s'), leaders', tl') && Grows(tl, tl') && tl' == TermLogsAfter(c, s, step, tl)
  {
    hide LogInv, LeadersKnown, Outcome;
    if E.CountsVote(s, step) {
      tl' := CountKeepsInv(c, s, leaders, leaders', tl, step.m);
    } else if step.ProposeStep? {
      tl' := ProposeStepKeepsInv(c, s, leaders, tl, step);
    } else {
      tl' := tl;
      if step.DeliverStep? && step.m.AppendEntries? {
        AppendKeepsInv(c, s, leaders, tl, step.m);
      } else if LogsAlone(s, step) {
        AloneKeepsInv(c, s, leaders, tl, step);
      } else {
        DropKeepsInv(c, s, leaders, tl, step);
      }
    }
  }

  /** A dropped message changes no log; snapshots are not in flight without compaction. */
  lemma DropKeepsInv(c: Cluster, s: System, leaders: Leaders, tl: TermLogs, step: Step)
    requires LogInv(View(s), leaders, tl) && Enabled(c, s, step)
    requires step.DropStep? || (step.DeliverStep? && step.m.InstallSnap?)
    ensures LogInv(View(Take(c, s, step)), leaders, tl)
  {
  }

  // ---------------------------------------------------------------- runs

  ghost predicate AllCoherent(tl: TermLogs, tr: seq<System>)
  {
    forall i, id :: 0 <= i < |tr| && id in tr[i].nodes ==> Coherent(tl, tr[i].nodes[id].log.entries)
  }

  lemma AllCoherentExtends(tl: TermLogs, tl': TermLogs, tr: seq<System>, s': System)
    requires AllCoherent(tl, tr) && Grows(tl, tl') && HoldersGood(tl', View(s').nodes)
    ensures AllCoherent(tl', tr + [s'])
  {
    forall i, id | 0 <= i < |tr| + 1 && id in (tr + [s'])[i].nodes
      ensures Coherent(tl', (tr + [s'])[i].nodes[id].log.entries)
    {
      if i < |tr| {
        CoherentGrows(tl, tl', tr[i].nodes[id].log.entries);
      } else {
        assert HolderGood(tl', View(s').nodes[id]);
      }
    }
  }

  lemma SameLeaders(c: Cluster, s: System, leaders: Leaders)
    requires s.nodes.Keys == c.members && E.LeadersKnown(c.members, E.View(s), leaders)
    ensures LeadersKnown(View(s).nodes, leaders)
  {
  }

  /** The histories explain the last state of the run, and every log the run went through. */
  ghost predicate Explains(c: Cluster, tr: seq<System>, h: E.History, tl: TermLogs)
  {
    && tr != []
    && tr[|tr| - 1].nodes.Keys == c.members
    && E.Inv(c.members, E.View(tr[|tr| - 1]), h)
    && E.LeadersKnown(c.members, E.View(tr[|tr| - 1]), h.leaders)
    && LogInv(View(tr[|tr| - 1]), h.leaders, tl)
    && AllCoherent(tl, tr)
  }

  ghost predicate Explained(c: Cluster, tr: seq<System>)
  {
    exists h, tl :: Explains(c, tr, h, tl)
  }

  lemma InitExplained(c: Cluster)
    ensures Explained(c, [Init(c)])
  {
    assert Explains(c, [Init(c)], E.History(map[], map[], map[]), map[]);
  }

  lemma StepExplained(c: Cluster, tr: seq<System>, step: Step, s': System)
    requires Explained(c, tr) && Next(c, tr[|tr| - 1], step, s') && !step.CompactStep?
    ensures Explained(c, tr + [s'])
  {
    hide E.Inv, E.LeadersKnown, E.Moves, E.Record, E.CountsVote, E.View, View, Next, Outcome, LogInv, LeadersKnown,
      AllCoherent, Grows;
    var h, tl :| Explains(c, tr, h, tl);
    var s := tr[|tr| - 1];
    var v := E.StepKeepsInv(c, s, step, s', h);
    var h' := E.Record(E.View(s), E.View(s'), h, v);
    SameLeaders(c, s, h.leaders);
    E.StepLeaders(c, s, step, s', h, v);
    var tl' := StepKeepsLogInv(c, s, step, s', h.leaders, h'.leaders, tl);
    HoldersFromInv(View(s'), h'.leaders, tl');
    AllCoherentExtends(tl, tl', tr, s');
    assert Explains(c, tr + [s'], h', tl');
  }

  lemma HoldersFromInv(s: Shelf, leaders: Leaders, tl: TermLogs)
    requires LogInv(s, leaders, tl)
    ensures HoldersGood(tl, s.nodes)
  {
  }

  lemma {:induction false} RunExplained(c: Cluster, tr: seq<System>, steps: seq<Step>)
    requires IsRun(c, tr, steps) && forall i :: 0 <= i < |steps| ==> !steps[i].CompactStep?
    ensures Explained(c, tr)
    decreases |steps|
  {
    hide Explained, Next;
    RunLast(c, tr, steps);
    if steps == [] {
      InitExplained(c);
    } else {
      var k := |steps|;
      RunExplained(c, tr[..k], steps[..k - 1]);
      StepExplained(c, tr[..k], steps[k - 1], tr[k]);
      assert tr == tr[..k] + [tr[k]];
    }
  }

  /** Same index and term, at any two nodes and any two moments: the logs agree up to there. */
  lemma LogMatching(c: Cluster, tr: seq<System>, steps: seq<Step>, i: nat, j: nat, a: NodeId, b: NodeId, k: nat)
    requires IsRun(c, tr, steps) && forall x :: 0 <= x < |steps| ==> !steps[x].CompactStep?
    requires i < |tr| && j < |tr| && a in tr[i].nodes && b in tr[j].nodes
    requires 1 <= k <= |tr[i].nodes[a].log.entries| && k <= |tr[j].nodes[b].log.entries|
    requires tr[i].nodes[a].log.entries[k - 1].term == tr[j].nodes[b].log.entries[k - 1].term
    ensures tr[i].nodes[a].log.entries[..k] == tr[j].nodes[b].log.entries[..k]
  {
    RunExplained(c, tr, steps);
    var h, tl :| Explains(c, tr, h, tl);
    CoherentAgree(tl, tr[i].nodes[a].log.entries, tr[j].nodes[b].log.entries, k);
  }
}
