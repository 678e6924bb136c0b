/**
 What Raft commits (internal/node/raft.go). The handlers keep the past that leader completeness speaks
 of, and committed entries never differ, in runs whose acknowledgements are sound, and where the
 membership is of a size at which unsound ones do no harm.
 */
module RaftCommit {
  import opened Storage
  import opened RaftModel
  import opened Quorums
  import opened RaftPast
  import E = RaftElection
  import G = RaftLogMatching
  import L = LogModel

  // ---------------------------------------------------------------- what holds of nodes and messages

  /** What commitment sees of a node. */
  datatype Keeper = Keeper(
    currentTerm: nat, role: Role, entries: seq<LogEntry>, commit: nat, progress: map<NodeId, nat>)

  function KeeperOf(n: Node): Keeper
  {
    Keeper(n.currentTerm, n.role, n.log.entries, n.log.commitIndex, n.matchIndex)
  }

  /** The log up to `commit` is what was committed in a term no later than this one. */
  ghost predicate CommitGood(ms: set<NodeId>, p: Past, log: seq<LogEntry>, commit: nat, term: nat)
  {
    commit == 0 || exists t: nat, n: nat :: CommitFrom(ms, p, log, commit, term, t, n)
  }

  ghost predicate CommitFrom(ms: set<NodeId>, p: Past, log: seq<LogEntry>, commit: nat, term: nat, t: nat, n: nat)
  {
    Committed(ms, p, t, n) && commit <= n && t <= term && Has(log, p.tl, t, commit)
  }

  /** What the node held of a term's log it still has, unless a leader without it came since. */
  ghost predicate KeepsHeld(p: Past, id: NodeId, log: seq<LogEntry>, term: nat)
  {
    && (forall t, k :: (id, t, k) in p.held ==> t <= term)
    && (forall t: nat, n: nat :: HeldTo(p.held, id, t, n) ==> Kept(p.tl, log, t, n, term + 1))
  }

  /** The member held that much of the term's log; or, where followers may overstate, it did not elect the leader. */
  ghost predicate Acked(p: Past, q: NodeId, term: nat, index: nat)
  {
    || index == 0
    || (q, term, index) in p.held
    || (p.trust.over && term in p.electors && q !in p.electors[term])
  }

  /** What a leader believes of the members' progress they have acknowledged to it, unless it believes anything. */
  ghost predicate ProgressGood(ms: set<NodeId>, p: Past, id: NodeId, term: nat, progress: map<NodeId, nat>)
  {
    p.trust.stale || forall r :: r in ms && r != id ==> Acked(p, r, term, Lookup(progress, r))
  }

  /** A voter that helped to elect its term's leader has a log no better than the one that leader stood with. */
  ghost predicate VoterLog(p: Past, id: NodeId, term: nat, log: seq<LogEntry>)
  {
    (id, term) in p.grants && (term in p.leaders ==> term in p.electors && id in p.electors[term]) ==>
      var c := p.grants[(id, term)];
      (c, term) in p.cands && (AtLeast(p.cands[(c, term)], log) || LastTerm(log) == term)
  }

  ghost predicate NodeCore(ms: set<NodeId>, p: Past, id: NodeId, n: Keeper)
  {
    && TermsUpTo(n.entries, n.currentTerm)
    && KeepsHeld(p, id, n.entries, n.currentTerm)
    && (n.role == Candidate ==> (id, n.currentTerm) in p.cands && p.cands[(id, n.currentTerm)] == n.entries)
    && (n.role == Leader ==>
        ProgressGood(ms, p, id, n.currentTerm, n.progress) && (id, n.currentTerm, |n.entries|) in p.held)
    && CommitGood(ms, p, n.entries, n.commit, n.currentTerm)
  }

  ghost predicate NodeGood(ms: set<NodeId>, p: Past, id: NodeId, n: Keeper)
  {
    NodeCore(ms, p, id, n) && VoterLog(p, id, n.currentTerm, n.entries)
  }

  /** A slice of the leader's log, to the end it had when it was sent. */
  ghost predicate SliceGood(p: Past, m: Message)
    requires m.AppendEntries? && m.term in p.tl
  {
    && G.SliceOf(p.tl[m.term], m) && m.leaderCommit <= m.prevLogIndex + |m.entries|
    && m.term in p.leaders && (p.leaders[m.term], m.term) in p.cands
    && |p.cands[(p.leaders[m.term], m.term)]| <= m.prevLogIndex + |m.entries|
  }

  ghost predicate MsgGood(ms: set<NodeId>, p: Past, m: Message)
  {
    match m
    case VoteRequest(src, _, term, lastIndex, lastTerm) =>
      (src, term) in p.cands && lastIndex == |p.cands[(src, term)]| && lastTerm == LastTerm(p.cands[(src, term)])
    case AppendEntries(_, _, term, prev, prevTerm, _, commit) =>
      && term in p.tl && ((prev > 0 && prevTerm == 0) || SliceGood(p, m))
      && CommitGood(ms, p, p.tl[term], commit, term)
    case AppendAck(src, _, term, success, index) => success ==> Acked(p, src, term, index)
    case VoteResponse(_, _, _, _) => true
    case InstallSnap(_, _, _, _, _, _) => true
  }

  lemma CommitGoodGrows(ms: set<NodeId>, p: Past, p': Past, log: seq<LogEntry>, commit: nat, term: nat, term': nat)
    requires Onward(p, p') && CommitGood(ms, p, log, commit, term) && term <= term'
    ensures CommitGood(ms, p', log, commit, term')
  {
    if commit > 0 {
      var t: nat, n: nat :| CommitFrom(ms, p, log, commit, term, t, n);
      CommittedGrows(ms, p, p', t, n);
      HasGrows(log, p.tl, p'.tl, t, commit);
      assert CommitFrom(ms, p', log, commit, term', t, n);
    }
  }

  /** Nothing new was held by the node. */
  ghost predicate SameHeld(p: Past, p': Past, id: NodeId)
  {
    forall t, k :: (id, t, k) in p'.held ==> (id, t, k) in p.held
  }

  lemma KeepsHeldGrows(p: Past, p': Past, id: NodeId, log: seq<LogEntry>, term: nat, term': nat)
    requires TermLogsGood(p.tl) && HeldGood(p) && Onward(p, p') && SameHeld(p, p', id)
    requires KeepsHeld(p, id, log, term) && term <= term'
    ensures KeepsHeld(p', id, log, term')
  {
    hide Kept, TermLogsGood;
    forall t: nat, n: nat | HeldTo(p'.held, id, t, n)
      ensures Kept(p'.tl, log, t, n, term' + 1)
    {
      assert HeldTo(p.held, id, t, n);
      HeldToGood(p, id, t, n);
      KeptGrows(p.tl, p'.tl, log, t, n, term + 1, term' + 1);
    }
  }

  /** The node cast no new vote. */
  ghost predicate SameVotes(p: Past, p': Past, id: NodeId)
  {
    forall u :: (id, u) in p'.grants ==> (id, u) in p.grants
  }

  lemma NodeGrows(ms: set<NodeId>, p: Past, p': Past, id: NodeId, n: Keeper)
    requires PastGood(ms, p) && Onward(p, p') && SameHeld(p, p', id) && SameVotes(p, p', id) && NodeGood(ms, p, id, n)
    ensures NodeGood(ms, p', id, n)
  {
    hide PastGood, NodeCore, AtLeast;
    CoreGrows(ms, p, p', id, n);
    VoterLogGrows(ms, p, p', id, n.currentTerm, n.entries);
  }

  lemma VoterLogGrows(ms: set<NodeId>, p: Past, p': Past, id: NodeId, term: nat, log: seq<LogEntry>)
    requires PastGood(ms, p) && Onward(p, p') && SameVotes(p, p', id) && VoterLog(p, id, term, log)
    ensures VoterLog(p', id, term, log)
  {
    hide TermLogsGood, HeldGood, CandsGood, RollsGood, AtLeast, LogsGrow;
    if term in p.leaders {
      assert term in p.electors.Keys;
    }
  }

  lemma CoreGrows(ms: set<NodeId>, p: Past, p': Past, id: NodeId, n: Keeper)
    requires PastGood(ms, p) && Onward(p, p') && SameHeld(p, p', id) && NodeCore(ms, p, id, n)
    ensures NodeCore(ms, p', id, n)
  {
    hide KeepsHeld, CommitGood, TermLogsGood, HeldGood, CandsGood, RollsGood, ElectorsGood;
    KeepsHeldGrows(p, p', id, n.entries, n.currentTerm, n.currentTerm);
    CommitGoodGrows(ms, p, p', n.entries, n.commit, n.currentTerm, n.currentTerm);
  }

  lemma MsgGrows(ms: set<NodeId>, p: Past, p': Past, m: Message)
    requires Onward(p, p') && MsgGood(ms, p, m)
    ensures MsgGood(ms, p', m)
  {
    hide CommitGood;
    if m.AppendEntries? {
      CommitGoodGrows(ms, p, p', p.tl[m.term], m.leaderCommit, m.term, m.term);
      CommitGoodLonger(ms, p', p.tl[m.term], p'.tl[m.term], m.leaderCommit, m.term);
      if SliceGood(p, m) {
        SliceGrows(p.tl[m.term], p'.tl[m.term], m);
      }
    }
  }

  lemma SliceGrows(log: seq<LogEntry>, log': seq<LogEntry>, m: Message)
    requires m.AppendEntries? && G.SliceOf(log, m) && log <= log'
    ensures G.SliceOf(log', m)
  {
  }

  lemma CommitGoodLonger(ms: set<NodeId>, p: Past, log: seq<LogEntry>, log': seq<LogEntry>, commit: nat, term: nat)
    requires CommitGood(ms, p, log, commit, term) && log <= log'
    ensures CommitGood(ms, p, log', commit, term)
  {
    if commit > 0 {
      var t: nat, n: nat :| CommitFrom(ms, p, log, commit, term, t, n);
      assert CommitFrom(ms, p, log', commit, term, t, n);
    }
  }

  // ---------------------------------------------------------------- one node's step

  /** What the other invariants say of a node: its log is coherent, and a leader's is its term's. */
  ghost predicate Grounded(p: Past, id: NodeId, n: Node)
  {
    && n.log.snapshotIndex == 0 && G.Coherent(p.tl, n.log.entries) && NoLaterVote(p, id, n.currentTerm)
    && (n.role == Leader ==>
        n.currentTerm in p.tl && n.log.entries == p.tl[n.currentTerm] && n.currentTerm in p.leaders)
  }

  /** What a step has to show. */
  ghost predicate StepGood(ms: set<NodeId>, p: Past, p': Past, id: NodeId, e: Effect)
  {
    && PastGood(ms, p') && Onward(p, p') && (forall j :: j != id ==> SameHeld(p, p', j) && SameVotes(p, p', j))
    && NodeGood(ms, p', id, KeeperOf(e.node)) && forall m :: m in e.out ==> MsgGood(ms, p', m)
  }

  /** A follower with the same log, in this term or in a later one in which the node has not voted. */
  lemma LaterTerm(ms: set<NodeId>, p: Past, id: NodeId, n: Keeper, n': Keeper)
    requires PastGood(ms, p) && NodeGood(ms, p, id, n) && NoLaterVote(p, id, n.currentTerm)
    requires n'.entries == n.entries && n'.commit == n.commit && n'.role == Follower && n'.currentTerm >= n.currentTerm
    ensures NodeGood(ms, p, id, n')
  {
    hide NodeCore, PastGood, AtLeast;
    CoreLater(ms, p, id, n, n');
  }

  lemma CoreLater(ms: set<NodeId>, p: Past, id: NodeId, n: Keeper, n': Keeper)
    requires PastGood(ms, p) && NodeCore(ms, p, id, n)
    requires n'.entries == n.entries && n'.commit == n.commit && n'.role == Follower && n'.currentTerm >= n.currentTerm
    ensures NodeCore(ms, p, id, n')
  {
    hide KeepsHeld, CommitGood, TermLogsGood, HeldGood, CandsGood, RollsGood, ElectorsGood;
    SamePast(p);
    KeepsHeldGrows(p, p, id, n.entries, n.currentTerm, n'.currentTerm);
    CommitGoodGrows(ms, p, p, n.entries, n.commit, n.currentTerm, n'.currentTerm);
  }

  lemma SamePast(p: Past)
    ensures Onward(p, p) && forall j :: SameHeld(p, p, j) && SameVotes(p, p, j)
  {
  }

  lemma LastOf(n: Node)
    requires n.log.snapshotIndex == 0
    ensures L.LastIndexTerm(n.log) == (|n.log.entries|, LastTerm(n.log.entries))
  {
  }

  lemma RequestsGood(ms: set<NodeId>, p: Past, id: NodeId, peers: seq<NodeId>, term: nat, log: seq<LogEntry>)
    requires (id, term) in p.cands && p.cands[(id, term)] == log
    ensures forall m :: m in Requests(id, peers, term, (|log|, LastTerm(log))) ==> MsgGood(ms, p, m)
  {
  }

  lemma StandGood(ms: set<NodeId>, p: Past, id: NodeId, peers: seq<NodeId>, n: Node) returns (p': Past)
    requires PastGood(ms, p) && NodeGood(ms, p, id, KeeperOf(n)) && Grounded(p, id, n) && n.role != Leader
    ensures StepGood(ms, p, p', id, Elect(id, peers, n))
    ensures p'.tl == p.tl && p'.leaders == p.leaders && p'.grants == p.grants[(id, n.currentTerm + 1) := id]
  {
    hide KeepsHeld, CommitGood, TermLogsGood, HeldGood, CandsGood, RollsGood, ElectorsGood, Onward, Requests;
    var u, log := n.currentTerm + 1, n.log.entries;
    p' := Voting(Standing(p, id, u, log), id, u, id, log);
    assert VoteGood(p, id, u, log) by { HeldIsKept(p, id, log, n.currentTerm); }
    StandingGood(ms, p, id, u, log);
    KeepsHeldGrows(p, p', id, log, n.currentTerm, u);
    CommitGoodGrows(ms, p, p', log, n.log.commitIndex, n.currentTerm, u);
    LastOf(n);
    RequestsGood(ms, p', id, peers, u, log);
    SameAtLeast(log);
  }

  lemma HeldIsKept(p: Past, id: NodeId, log: seq<LogEntry>, term: nat)
    requires KeepsHeld(p, id, log, term)
    ensures forall t: nat, n: nat :: HeldTo(p.held, id, t, n) ==> Kept(p.tl, log, t, n, term + 1)
  {
  }

  /** A node that votes in a term nobody has won has a log of earlier terms, and lost nothing to that term's leader. */
  lemma BeforeWin(ms: set<NodeId>, p: Past, id: NodeId, log: seq<LogEntry>, term: nat, u: nat)
    requires TermLogsGood(p.tl) && ElectorsGood(ms, p) && G.Coherent(p.tl, log) && TermsUpTo(log, term)
    requires KeepsHeld(p, id, log, term) && term <= u && u > 0
    ensures VoteGood(p, id, u, log)
  {
    if u !in p.leaders {
      assert u !in p.tl.Keys;
      forall i | 0 <= i < |log|
        ensures log[i].term <= u - 1
      {
        assert G.PlacedByLeader(p.tl, log, i);
      }
      forall t: nat, n: nat | t < u && HeldTo(p.held, id, t, n)
        ensures Kept(p.tl, log, t, n, u)
      {
        assert Kept(p.tl, log, t, n, term + 1);
      }
    }
  }

  lemma VoteGoodStep(ms: set<NodeId>, p: Past, n: Node, m: Message) returns (p': Past)
    requires PastGood(ms, p) && NodeGood(ms, p, m.dst, KeeperOf(n)) && Grounded(p, m.dst, n)
    requires m.VoteRequest? && MsgGood(ms, p, m) && E.GrantsVote(n, m) && (m.dst, m.term) !in p.grants
    ensures StepGood(ms, p, p', m.dst, HandleVoteRequest(m.dst, n, m))
    ensures p'.tl == p.tl && p'.leaders == p.leaders && p'.grants == p.grants[(m.dst, m.term) := m.src]
  {
    hide KeepsHeld, CommitGood, TermLogsGood, HeldGood, RollsGood, ElectorsGood, Onward, VoteGood, G.Coherent;
    var log := n.log.entries;
    LastOf(n);
    assert n.currentTerm <= m.term;
    BeforeWin(ms, p, m.dst, log, n.currentTerm, m.term);
    VotingGood(ms, p, m.dst, m.term, m.src, log);
    p' := Voting(p, m.dst, m.term, m.src, log);
    assert forall j :: SameHeld(p, p', j);
    CoreGrows(ms, p, p', m.dst, KeeperOf(n));
    assert AtLeast(p.cands[(m.src, m.term)], log);
    if n.currentTerm < m.term {
      CoreLater(ms, p', m.dst, KeeperOf(n), KeeperOf(HandleVoteRequest(m.dst, n, m).node));
    }
  }

  lemma RefuseGood(ms: set<NodeId>, p: Past, n: Node, m: Message)
    requires PastGood(ms, p) && NodeGood(ms, p, m.dst, KeeperOf(n)) && Grounded(p, m.dst, n)
    requires m.VoteRequest? && !E.GrantsVote(n, m)
    ensures StepGood(ms, p, p, m.dst, HandleVoteRequest(m.dst, n, m))
  {
    hide NodeGood, PastGood;
    SamePast(p);
    if m.term > n.currentTerm {
      LaterTerm(ms, p, m.dst, KeeperOf(n), KeeperOf(HandleVoteRequest(m.dst, n, m).node));
    }
  }

  lemma {:induction false} SetAllLookup(m: map<NodeId, nat>, peers: seq<NodeId>, v: nat, r: NodeId)
    ensures Lookup(SetAll(m, peers, v), r) == if r in peers then v else Lookup(m, r)
  {
    if peers != [] {
      SetAllLookup(m, peers[..|peers| - 1], v, r);
    }
  }

  /** The leader holds its own log. */
  lemma OwnLogHeld(p: Past, id: NodeId, t: nat, log: seq<LogEntry>)
    requires KeepsHeld(p, id, log, t) && t in p.tl && p.tl[t] == log
    ensures KeepsHeld(Holding(p, id, t, |log|), id, log, t)
  {
    var p' := Holding(p, id, t, |log|);
    forall u: nat, n: nat | HeldTo(p'.held, id, u, n)
      ensures Kept(p'.tl, log, u, n, t + 1)
    {
      if !HeldTo(p.held, id, u, n) {
        assert u == t && n <= |log|;
      }
    }
  }

  lemma WinGood(ms: set<NodeId>, p: Past, id: NodeId, peers: seq<NodeId>, n: Node, m: Message) returns (p': Past)
    requires PastGood(ms, p) && NodeGood(ms, p, id, KeeperOf(n)) && Grounded(p, id, n)
    requires m.VoteResponse? && E.IsCounted(n, m) && n.votes + 1 >= Majority(peers) && n.currentTerm !in p.leaders
    requires |E.Supporters(ms, p.grants, n.currentTerm, id)| >= E.MajorityOf(ms)
    requires forall r :: r in ms && r != id ==> r in peers
    ensures StepGood(ms, p, p', id, HandleVoteResponse(id, peers, n, m))
    ensures p'.tl == p.tl[n.currentTerm := n.log.entries] && p'.leaders == p.leaders[n.currentTerm := id]
    ensures p'.grants == p.grants
  {
    hide KeepsHeld, CommitGood, TermLogsGood, HeldGood, CandsGood, RollsGood, ElectorsGood, Onward, SetAll;
    var u, log := n.currentTerm, n.log.entries;
    var p1 := Winning(ms, p, id, u, log);
    WinningGood(ms, p, id, u, log);
    KeepsHeldGrows(p, p1, id, log, u, u);
    p' := Holding(p1, id, u, |log|);
    HoldingGood(ms, p1, id, u, |log|);
    OwnLogHeld(p1, id, u, log);
    OnwardTwice(p, p1, p');
    CommitGoodGrows(ms, p, p', log, n.log.commitIndex, u, u);
    forall r | r in ms && r != id
      ensures Lookup(SetAll(n.matchIndex, peers, 0), r) == 0
    {
      SetAllLookup(n.matchIndex, peers, 0, r);
    }
  }

  lemma OnwardTwice(p: Past, p1: Past, p': Past)
    requires Onward(p, p1) && Onward(p1, p')
    ensures Onward(p, p')
  {
  }

  lemma ProposeGood(ms: set<NodeId>, p: Past, id: NodeId, n: Node, e: LogEntry, n': Node) returns (p': Past)
    requires PastGood(ms, p) && NodeGood(ms, p, id, KeeperOf(n)) && Grounded(p, id, n) && n.role == Leader
    requires e.term == n.currentTerm && n'.log.entries == n.log.entries + [e] && n'.log.commitIndex == n.log.commitIndex
    requires n'.currentTerm == n.currentTerm && n'.role == Leader
    requires forall r :: r != id ==> Lookup(n'.matchIndex, r) == Lookup(n.matchIndex, r)
    ensures StepGood(ms, p, p', id, Effect(n', []))
    ensures p'.tl == p.tl[n.currentTerm := n'.log.entries] && p'.leaders == p.leaders && p'.grants == p.grants
  {
    hide KeepsHeld, CommitGood, TermLogsGood, HeldGood, CandsGood, RollsGood, ElectorsGood, Onward;
    var t, log := n.currentTerm, n'.log.entries;
    var p1 := Growing(p, t, e);
    GrowingGood(ms, p, t, e);
    KeepsHeldGrows(p, p1, id, n.log.entries, t, t);
    KeepsHeldLonger(p1, id, n.log.entries, log, t);
    p' := Holding(p1, id, t, |log|);
    HoldingGood(ms, p1, id, t, |log|);
    OwnLogHeld(p1, id, t, log);
    OnwardTwice(p, p1, p');
    CommitGoodGrows(ms, p, p', n.log.entries, n.log.commitIndex, t, t);
    CommitGoodLonger(ms, p', n.log.entries, log, n.log.commitIndex, t);
    assert p.held <= p'.held;
  }

  lemma KeepsHeldLonger(p: Past, id: NodeId, log: seq<LogEntry>, log': seq<LogEntry>, term: nat)
    requires KeepsHeld(p, id, log, term) && log <= log'
    ensures KeepsHeld(p, id, log', term)
  {
  }

  // ---------------------------------------------------------------- sound acknowledgements

  predicate Accepts(n: Node, m: Message)
    requires m.AppendEntries?
  {
    m.term >= n.currentTerm && L.Matches(n.log, m.prevLogIndex, m.prevLogTerm)
  }

  /** The follower's log goes on behind the message with entries of earlier terms, and it acknowledges them. */
  predicate Overstates(n: Node, m: Message)
    requires m.AppendEntries?
  {
    Accepts(n, m) &&
    var log := L.AppendAfter(n.log, m.entries);
    log.nextIndex - 1 > m.prevLogIndex + |m.entries| && L.TermAt(log, log.nextIndex - 1) != m.term
  }

  /** A leader takes an acknowledgement that was sent to it in an earlier term. */
  predicate Outdated(n: Node, m: Message)
    requires m.AppendAck?
  {
    n.role == Leader && m.success && m.term < n.currentTerm
  }

  /** The message makes no acknowledgement of a kind that is not to be expected. */
  predicate Sound(trust: Trust, n: Node, m: Message)
  {
    (m.AppendEntries? && Overstates(n, m) ==> trust.over) && (m.AppendAck? && Outdated(n, m) ==> trust.stale)
  }

  /** A slice the log agrees with changes nothing. */
  lemma {:induction false} NoConflict(l: GoodLog, es: seq<LogEntry>, log: seq<LogEntry>, prev: nat)
    requires l.snapshotIndex == 0 && L.Numbered(log) && prev + |es| <= |log| && es == log[prev..prev + |es|]
    requires prev + |es| <= |l.entries| && l.entries[..prev + |es|] == log[..prev + |es|]
    ensures L.AppendAfter(l, es) == l
    decreases |es|
  {
    hide L.Receive, L.Numbered;
    if es != [] {
      var k := |es| - 1;
      G.LastOfSlice(log, prev, es);
      SharedPrefix(l.entries, log, prev + |es|, prev + k);
      NoConflict(l, es[..k], log, prev);
      KeptEntry(l, es[k]) by { NumberedAt(log, prev + k); }
    }
  }

  lemma SharedPrefix(a: seq<LogEntry>, b: seq<LogEntry>, n: nat, k: nat)
    requires k < n <= |a| && n <= |b| && a[..n] == b[..n]
    ensures a[..k] == b[..k] && a[k] == b[k]
  {
    assert a[..k] == a[..n][..k] && b[..k] == b[..n][..k];
    assert a[k] == a[..n][k] && b[k] == b[..n][k];
  }

  lemma NumberedAt(log: seq<LogEntry>, i: nat)
    requires L.Numbered(log) && i < |log|
    ensures log[i].index == i + 1
  {
  }

  lemma KeptEntry(l: GoodLog, e: LogEntry)
    requires l.snapshotIndex == 0 && 1 <= e.index <= |l.entries| && l.entries[e.index - 1] == e
    ensures L.Receive(l, e) == l
  {
  }

  /** The log after an accepted message: the leader's as far as the message goes, and all of it unless overstated. */
  lemma AcceptedLog(ms: set<NodeId>, p: Past, n: Node, m: Message)
    requires PastGood(ms, p) && Grounded(p, m.dst, n) && m.AppendEntries? && MsgGood(ms, p, m)
    requires L.Numbered(p.tl[m.term]) && Accepts(n, m)
    ensures var after, end := L.AppendAfter(n.log, m.entries).entries, m.prevLogIndex + |m.entries|;
      && SliceGood(p, m) && G.Sliced(p.tl[m.term], n.log.entries, after, end) && G.Coherent(p.tl, after)
      && (!Overstates(n, m) ==> |after| <= |p.tl[m.term]| && after == p.tl[m.term][..|after|])
      && m.prevLogIndex <= |n.log.entries| && n.log.entries[..m.prevLogIndex] == p.tl[m.term][..m.prevLogIndex]
  {
    hide CandsGood, RollsGood, ElectorsGood, HeldGood, L.AppendAfter, CommitGood, L.Numbered, G.Coherent, TermLogsGood;
    var log := p.tl[m.term];
    assert SliceGood(p, m) by {
      if m.prevLogIndex > 0 {
        PrevTermPositive(p.tl, n, m);
      }
    }
    assert G.Coherent(p.tl, log) by { TermLogCoherent(p.tl, m.term); }
    G.MatchedPrefix(p.tl, log, n.log, m.prevLogIndex);
    G.SliceApplied(p.tl, log, n.log, m.prevLogIndex, m.entries);
    var l := L.AppendAfter(n.log, m.entries);
    var after, end := l.entries, m.prevLogIndex + |m.entries|;
    if |after| > end {
      LogOfLastTerm(p.tl, after);
    } else {
      assert after == after[..end];
    }
  }

  lemma TermLogCoherent(tl: G.TermLogs, t: nat)
    requires TermLogsGood(tl) && t in tl
    ensures G.Coherent(tl, tl[t])
  {
  }

  /** No entry has term zero, so a message without a previous entry's term is refused. */
  lemma PrevTermPositive(tl: G.TermLogs, n: Node, m: Message)
    requires TermLogsGood(tl) && G.Coherent(tl, n.log.entries) && n.log.snapshotIndex == 0
    requires m.AppendEntries? && m.prevLogIndex > 0 && L.Matches(n.log, m.prevLogIndex, m.prevLogTerm)
    ensures m.prevLogTerm > 0
  {
    assert G.PlacedByLeader(tl, n.log.entries, m.prevLogIndex - 1);
  }

  /** What both the follower and the leader had the follower still has. */
  lemma AcceptedKeeps(ms: set<NodeId>, p: Past, n: Node, m: Message, t: nat, k: nat)
    requires PastGood(ms, p) && Grounded(p, m.dst, n) && m.AppendEntries? && MsgGood(ms, p, m)
    requires L.Numbered(p.tl[m.term]) && Accepts(n, m)
    requires Has(n.log.entries, p.tl, t, k) && Has(p.tl[m.term], p.tl, t, k)
    ensures Has(L.AppendAfter(n.log, m.entries).entries, p.tl, t, k)
  {
    hide PastGood, L.AppendAfter, CommitGood, G.Coherent, L.Numbered, L.Matches;
    AcceptedLog(ms, p, n, m);
    var log, end := p.tl[m.term], m.prevLogIndex + |m.entries|;
    var after := L.AppendAfter(n.log, m.entries).entries;
    var pre := p.tl[t][..k];
    if k <= end {
      assert after[..k] == log[..k] == pre;
    } else {
      assert n.log.entries[..k] == pre == log[..k];
      assert n.log.entries[..end] == pre[..end] == log[..end];
      NoConflict(n.log, m.entries, log, m.prevLogIndex);
    }
  }

  /** How much of the leader's log a follower has after a message it accepted. */
  function Gained(n: Node, m: Message): nat
    requires m.AppendEntries?
  {
    if Overstates(n, m) then m.prevLogIndex + |m.entries| else |L.AppendAfter(n.log, m.entries).entries|
  }

  lemma GainedHas(ms: set<NodeId>, p: Past, n: Node, m: Message, k: nat)
    requires PastGood(ms, p) && Grounded(p, m.dst, n) && m.AppendEntries? && MsgGood(ms, p, m)
    requires L.Numbered(p.tl[m.term]) && Accepts(n, m) && k <= Gained(n, m)
    ensures Gained(n, m) <= |p.tl[m.term]| && Has(L.AppendAfter(n.log, m.entries).entries, p.tl, m.term, k)
  {
    hide PastGood, L.AppendAfter, CommitGood, G.Coherent, L.Numbered, L.Matches, MsgGood, Overstates;
    AcceptedLog(ms, p, n, m);
    TermOfMessage(ms, p, m);
    var after, log := L.AppendAfter(n.log, m.entries).entries, p.tl[m.term];
    assert after[..Gained(n, m)] == log[..Gained(n, m)];
    assert log[..k] == log[..Gained(n, m)][..k] == after[..k];
  }

  lemma AcceptedHeld(ms: set<NodeId>, p: Past, n: Node, m: Message, after: seq<LogEntry>)
    requires PastGood(ms, p) && Grounded(p, m.dst, n) && m.AppendEntries? && MsgGood(ms, p, m)
    requires L.Numbered(p.tl[m.term]) && Accepts(n, m) && KeepsHeld(p, m.dst, n.log.entries, n.currentTerm)
    requires after == L.AppendAfter(n.log, m.entries).entries
    ensures KeepsHeld(Holding(p, m.dst, m.term, Gained(n, m)), m.dst, after, m.term)
  {
    hide CandsGood, RollsGood, ElectorsGood, TermLogsGood, L.AppendAfter, CommitGood, G.Coherent, L.Numbered, L.Matches;
    hide Has, Overstates, MsgGood, Gained;
    TermOfMessage(ms, p, m);
    var p' := Holding(p, m.dst, m.term, Gained(n, m));
    forall t: nat, k: nat | HeldTo(p'.held, m.dst, t, k)
      ensures Kept(p'.tl, after, t, k, m.term + 1)
    {
      if HeldTo(p.held, m.dst, t, k) {
        HeldToGood(p, m.dst, t, k);
        assert Kept(p.tl, n.log.entries, t, k, n.currentTerm + 1);
        if Has(n.log.entries, p.tl, t, k) {
          if t == m.term {
            HasOwn(p.tl, t, k);
          }
          if Has(p.tl[m.term], p.tl, t, k) {
            AcceptedKeeps(ms, p, n, m, t, k);
          } else {
            assert Lacks(p.tl, t, k, m.term);
          }
        }
      } else {
        GainedHas(ms, p, n, m, k);
      }
    }
  }

  lemma HasOwn(tl: G.TermLogs, t: nat, k: nat)
    requires t in tl && k <= |tl[t]|
    ensures Has(tl[t], tl, t, k)
  {
  }

  /** A committed prefix survives an accepted message. */
  lemma AcceptedCommit(ms: set<NodeId>, p: Past, n: Node, m: Message, after: seq<LogEntry>)
    requires PastGood(ms, p) && Grounded(p, m.dst, n) && m.AppendEntries? && MsgGood(ms, p, m)
    requires L.Numbered(p.tl[m.term]) && Accepts(n, m)
    requires CommitGood(ms, p, n.log.entries, n.log.commitIndex, n.currentTerm)
    requires after == L.AppendAfter(n.log, m.entries).entries
    ensures CommitGood(ms, p, after, n.log.commitIndex, m.term)
  {
    hide PastGood, L.AppendAfter, G.Coherent, L.Numbered, L.Matches, Overstates, MsgGood, Has, Grounded, Committed;
    var c := n.log.commitIndex;
    if c > 0 {
      var t: nat, k: nat :| CommitFrom(ms, p, n.log.entries, c, n.currentTerm, t, k);
      assert m.term in p.tl by { TermOfMessage(ms, p, m); }
      assert t in p.tl && k <= |p.tl[t]| by { CommittedIn(ms, p, t, k); }
      if t < m.term {
        Complete(ms, p, t, k, m.term);
        HasLess(p.tl[m.term], p.tl, t, k, c);
      } else {
        HasOwn(p.tl, t, c);
      }
      AcceptedKeeps(ms, p, n, m, t, c);
      assert CommitFrom(ms, p, after, c, m.term, t, k);
    }
  }

  lemma TermOfMessage(ms: set<NodeId>, p: Past, m: Message)
    requires m.AppendEntries? && MsgGood(ms, p, m)
    ensures m.term in p.tl && CommitGood(ms, p, p.tl[m.term], m.leaderCommit, m.term)
  {
  }

  lemma CommittedIn(ms: set<NodeId>, p: Past, t: nat, k: nat)
    requires Committed(ms, p, t, k)
    ensures t in p.tl && k <= |p.tl[t]|
  {
  }

  lemma HasLess(log: seq<LogEntry>, tl: G.TermLogs, t: nat, n: nat, k: nat)
    requires Has(log, tl, t, n) && k <= n
    ensures Has(log, tl, t, k)
  {
  }

  /** What the leader announces as committed is committed in as much of its log as the follower has. */
  lemma AnnouncedCommit(ms: set<NodeId>, p: Past, m: Message, after: seq<LogEntry>, commit: nat)
    requires m.AppendEntries? && MsgGood(ms, p, m) && commit <= m.leaderCommit && commit <= |after|
    requires commit <= |p.tl[m.term]| && after[..commit] == p.tl[m.term][..commit]
    ensures CommitGood(ms, p, after, commit, m.term)
  {
    if commit > 0 {
      var log := p.tl[m.term];
      var t: nat, k: nat :| CommitFrom(ms, p, log, m.leaderCommit, m.term, t, k);
      HasLess(log, p.tl, t, m.leaderCommit, commit);
      assert p.tl[t][..commit] == log[..commit] == after[..commit];
      assert CommitFrom(ms, p, after, commit, m.term, t, k);
    }
  }

  /** A node that helped to elect a leader does not overstate to it: such a log would have refused the vote. */
  lemma ElectorsSound(ms: set<NodeId>, p: Past, n: Node, m: Message)
    requires PastGood(ms, p) && Grounded(p, m.dst, n) && VoterLog(p, m.dst, n.currentTerm, n.log.entries)
    requires m.AppendEntries? && MsgGood(ms, p, m) && L.Numbered(p.tl[m.term]) && Accepts(n, m) && Overstates(n, m)
    ensures m.term in p.electors && m.dst !in p.electors[m.term]
  {
    hide HeldGood, RollsGood, L.AppendAfter, CommitGood, L.Numbered, G.Coherent, L.Matches, MsgGood, TermLogsGood;
    AcceptedLog(ms, p, n, m);
    TermOfMessage(ms, p, m);
    assert m.term in p.electors.Keys;
    if m.dst in p.electors[m.term] {
      var a, log := p.cands[(p.leaders[m.term], m.term)], n.log.entries;
      assert E.Granted(p.grants, m.dst, m.term, p.leaders[m.term]);
      assert n.currentTerm == m.term;
      assert Extended(a, p.tl[m.term], m.term);
      LongerBetter(p.tl, a, log, p.tl[m.term], m.prevLogIndex + |m.entries|);
      assert false;
    }
  }

  /** A log that agrees with another past the end of `a`, a prefix of both, is better than `a`. */
  lemma LongerBetter(tl: G.TermLogs, a: seq<LogEntry>, log: seq<LogEntry>, leader: seq<LogEntry>, end: nat)
    requires TermLogsGood(tl) && G.Coherent(tl, log) && a <= leader && |a| <= end < |log|
    requires end <= |leader| && log[..end] == leader[..end]
    ensures !AtLeast(a, log)
  {
    if a == [] {
      LogOfLastTerm(tl, log);
    } else {
      assert log[|a| - 1] == leader[..end][|a| - 1] == a[|a| - 1];
      EndsNoEarlier(tl, log, |a|);
    }
  }

  lemma AcceptedVoter(ms: set<NodeId>, p: Past, n: Node, m: Message, after: seq<LogEntry>)
    requires PastGood(ms, p) && Grounded(p, m.dst, n) && VoterLog(p, m.dst, n.currentTerm, n.log.entries)
    requires m.AppendEntries? && MsgGood(ms, p, m) && L.Numbered(p.tl[m.term]) && Accepts(n, m)
    requires after == L.AppendAfter(n.log, m.entries).entries
    ensures VoterLog(p, m.dst, m.term, after)
  {
    hide HeldGood, RollsGood, L.AppendAfter, CommitGood, L.Numbered, G.Coherent, L.Matches, MsgGood, TermLogsGood,
      Overstates;
    AcceptedLog(ms, p, n, m);
    TermOfMessage(ms, p, m);
    var end := m.prevLogIndex + |m.entries|;
    if after != n.log.entries && m.term in p.electors && m.dst in p.electors[m.term] {
      assert E.Granted(p.grants, m.dst, m.term, p.leaders[m.term]);
      var a := p.cands[(p.leaders[m.term], m.term)];
      assert Extended(a, p.tl[m.term], m.term);
      if end == |a| {
        assert after == a;
        SameAtLeast(a);
      } else {
        assert LastTerm(after) == p.tl[m.term][end - 1].term;
      }
    }
  }

  lemma AcceptGood(ms: set<NodeId>, p: Past, n: Node, m: Message) returns (p': Past)
    requires PastGood(ms, p) && NodeGood(ms, p, m.dst, KeeperOf(n)) && Grounded(p, m.dst, n)
    requires m.AppendEntries? && MsgGood(ms, p, m) && L.Numbered(p.tl[m.term]) && Accepts(n, m)
    requires Overstates(n, m) ==> p.trust.over
    ensures StepGood(ms, p, p', m.dst, HandleAppendEntries(m.dst, n, m))
    ensures p'.tl == p.tl && p'.leaders == p.leaders && p'.grants == p.grants
  {
    hide PastGood, L.AppendAfter, G.Coherent, L.Numbered, L.Matches, Overstates, MsgGood, KeepsHeld, CommitGood, Onward;
    hide HandleAppendEntries, VoterLog, Has;
    var after, end := L.AppendAfter(n.log, m.entries).entries, m.prevLogIndex + |m.entries|;
    AcceptedLog(ms, p, n, m);
    TermOfMessage(ms, p, m);
    GainedHas(ms, p, n, m, 0);
    p' := Holding(p, m.dst, m.term, Gained(n, m));
    HoldingGood(ms, p, m.dst, m.term, Gained(n, m));
    AcceptedHeld(ms, p, n, m, after);
    AcceptedCommit(ms, p, n, m, after);
    var n', out := AcceptEffect(m.dst, n, m);
    if n'.log.commitIndex != n.log.commitIndex {
      assert after[..n'.log.commitIndex] == after[..end][..n'.log.commitIndex];
      AnnouncedCommit(ms, p, m, after, n'.log.commitIndex);
    }
    CommitGoodGrows(ms, p, p', after, n'.log.commitIndex, m.term, m.term);
    AcceptedTerms(ms, p, m.term, n.log.entries, after, end);
    AcceptedVoter(ms, p, n, m, after);
    SameVotesHolding(ms, p, p', m.dst, m.term, after);
    AckIsAcked(ms, p, p', n, m);
  }

  lemma SameVotesHolding(ms: set<NodeId>, p: Past, p': Past, id: NodeId, term: nat, log: seq<LogEntry>)
    requires PastGood(ms, p) && Onward(p, p') && p'.grants == p.grants && VoterLog(p, id, term, log)
    ensures VoterLog(p', id, term, log)
  {
    VoterLogGrows(ms, p, p', id, term, log);
  }

  lemma AcceptedTerms(ms: set<NodeId>, p: Past, t: nat, before: seq<LogEntry>, after: seq<LogEntry>, end: nat)
    requires PastGood(ms, p) && t in p.tl && G.Sliced(p.tl[t], before, after, end)
    requires TermsUpTo(before, t)
    ensures TermsUpTo(after, t)
  {
    assert TermsUpTo(p.tl[t], t);
  }

  lemma AckIsAcked(ms: set<NodeId>, p: Past, p': Past, n: Node, m: Message)
    requires PastGood(ms, p) && NodeGood(ms, p, m.dst, KeeperOf(n)) && Grounded(p, m.dst, n)
    requires m.AppendEntries? && MsgGood(ms, p, m) && L.Numbered(p.tl[m.term]) && Accepts(n, m)
    requires (Overstates(n, m) ==> p.trust.over) && p' == Holding(p, m.dst, m.term, Gained(n, m))
    ensures MsgGood(ms, p', AppendAck(m.dst, m.src, m.term, true, |L.AppendAfter(n.log, m.entries).entries|))
  {
    hide PastGood, L.AppendAfter, G.Coherent, L.Numbered, L.Matches, Overstates, VoterLog, NodeCore;
    if Overstates(n, m) {
      ElectorsSound(ms, p, n, m);
    }
  }

  /** What the handler does with a message it accepts. */
  lemma AcceptEffect(id: NodeId, n: Node, m: Message) returns (n': Node, out: Message)
    requires m.AppendEntries? && Accepts(n, m) && n.log.snapshotIndex == 0
    ensures HandleAppendEntries(id, n, m) == Effect(n', [out])
    ensures var after := L.AppendAfter(n.log, m.entries).entries;
      && n'.log.entries == after && n'.currentTerm == m.term && n'.role == Follower
      && out == AppendAck(id, m.src, m.term, true, |after|)
      && (n'.log.commitIndex == n.log.commitIndex
          || (n'.log.commitIndex <= m.leaderCommit && n'.log.commitIndex <= |after|))
  {
    hide L.AppendAfter, ApplyCommitted, ApplyEntries, L.Matches;
    n' := HandleAppendEntries(id, n, m).node;
    out := HandleAppendEntries(id, n, m).out[0];
  }

  lemma RejectGood(ms: set<NodeId>, p: Past, n: Node, m: Message)
    requires PastGood(ms, p) && NodeGood(ms, p, m.dst, KeeperOf(n)) && Grounded(p, m.dst, n)
    requires m.AppendEntries? && !Accepts(n, m)
    ensures StepGood(ms, p, p, m.dst, HandleAppendEntries(m.dst, n, m))
  {
    hide NodeGood, PastGood, L.Matches, ApplyCommitted, ApplyEntries, L.AppendAfter;
    SamePast(p);
    if m.term >= n.currentTerm {
      LaterTerm(ms, p, m.dst, KeeperOf(n), KeeperOf(HandleAppendEntries(m.dst, n, m).node));
    }
  }

  // ---------------------------------------------------------------- acknowledgements and commits

  /** Of those a leader counts, all held who acknowledged soundly, and at least those who elected it. */
  lemma HoldersHeld(ms: set<NodeId>, p: Past, id: NodeId, peers: seq<NodeId>, term: nat, progress: map<NodeId, nat>,
      N: nat)
    requires ProgressGood(ms, p, id, term, progress) && N > 0 && (set r | r in peers) == ms - {id} && !p.trust.stale
    requires p.trust.over ==> term in p.electors
    ensures id !in Holders(progress, peers, N)
    ensures (if p.trust.over then Holders(progress, peers, N) * p.electors[term] else Holders(progress, peers, N))
         <= HoldersOf(ms, p, term, N)
  {
    forall r | r in Holders(progress, peers, N)
      ensures r != id && ((p.trust.over && r !in p.electors[term]) || r in HoldersOf(ms, p, term, N))
    {
      assert r in (set q | q in peers);
      assert r in ms - {id};
      assert Acked(p, r, term, Lookup(progress, r));
    }
  }

  /** Sound acknowledgements from a majority: a majority held. */
  lemma CountedHeld(ms: set<NodeId>, p: Past, id: NodeId, peers: seq<NodeId>, term: nat, progress: map<NodeId, nat>,
      N: nat)
    requires ProgressGood(ms, p, id, term, progress) && id in ms && HeldTo(p.held, id, term, N) && N > 0
    requires !p.trust.stale && !p.trust.over
    requires (forall i, j :: 0 <= i < j < |peers| ==> peers[i] != peers[j]) && (set r | r in peers) == ms - {id}
    requires Replicated(progress, peers, N) >= Majority(peers)
    ensures |HoldersOf(ms, p, term, N)| >= E.MajorityOf(ms)
  {
    hide ProgressGood, HeldTo, Replicated;
    ReplicatedCounts(progress, peers, N);
    HoldersHeld(ms, p, id, peers, term, progress, N);
    hide Holders;
    var hs := Holders(progress, peers, N);
    SubsetSize(hs + {id}, HoldersOf(ms, p, term, N));
    E.DistinctSize(peers);
    assert |ms - {id}| == |ms| - 1;
  }

  /** Four members: three elected the leader, so of three that it counts two held. */
  lemma CountedOfFour(ms: set<NodeId>, p: Past, id: NodeId, peers: seq<NodeId>, term: nat, progress: map<NodeId, nat>,
      N: nat)
    requires ProgressGood(ms, p, id, term, progress) && id in ms && HeldTo(p.held, id, term, N) && N > 0
    requires !p.trust.stale && p.trust.over && |ms| == 4
    requires term in p.electors && p.electors[term] <= ms && |p.electors[term]| >= E.MajorityOf(ms)
    requires (forall i, j :: 0 <= i < j < |peers| ==> peers[i] != peers[j]) && (set r | r in peers) == ms - {id}
    requires Replicated(progress, peers, N) >= Majority(peers)
    ensures |HoldersOf(ms, p, term, N)| >= 2
  {
    hide ProgressGood, HeldTo, Replicated;
    ReplicatedCounts(progress, peers, N);
    HoldersHeld(ms, p, id, peers, term, progress, N);
    hide Holders;
    var hs, es := Holders(progress, peers, N), p.electors[term];
    E.DistinctSize(peers);
    assert |ms - {id}| == 3;
    assert hs <= ms by { HoldersAreMembers(ms, id, peers, progress, N); }
    SubsetSize(hs + es, ms);
    assert |hs * es| >= 1;
    SubsetSize(hs * es + {id}, HoldersOf(ms, p, term, N));
  }

  lemma HoldersAreMembers(ms: set<NodeId>, id: NodeId, peers: seq<NodeId>, progress: map<NodeId, nat>, N: nat)
    requires (set r | r in peers) == ms - {id}
    ensures Holders(progress, peers, N) <= ms
  {
    forall r | r in Holders(progress, peers, N)
      ensures r in ms
    {
      assert r in (set q | q in peers);
      assert r in ms - {id};
    }
  }

  /** However the acknowledgements are: where the size fits, enough have held. */
  lemma EnoughHeld(ms: set<NodeId>, p: Past, id: NodeId, peers: seq<NodeId>, term: nat, progress: map<NodeId, nat>,
      N: nat)
    requires PastGood(ms, p) && term in p.tl
    requires ProgressGood(ms, p, id, term, progress) && id in ms && HeldTo(p.held, id, term, N) && N > 0
    requires (forall i, j :: 0 <= i < j < |peers| ==> peers[i] != peers[j]) && (set r | r in peers) == ms - {id}
    requires Replicated(progress, peers, N) >= Majority(peers)
    ensures |HoldersOf(ms, p, term, N)| + E.MajorityOf(ms) > |ms|
  {
    hide TermLogsGood, HeldGood, CandsGood, RollsGood, ProgressGood, HeldTo, Replicated;
    assert term in p.electors.Keys;
    if |ms| <= 2 {
      SubsetSize({id}, HoldersOf(ms, p, term, N));
      SubsetSize({id}, ms);
    } else if p.trust.over {
      CountedOfFour(ms, p, id, peers, term, progress, N);
    } else {
      CountedHeld(ms, p, id, peers, term, progress, N);
    }
  }

  lemma CommitsCommitted(ms: set<NodeId>, p: Past, id: NodeId, peers: seq<NodeId>, n: Node, N: nat)
    requires PastGood(ms, p) && Grounded(p, id, n)
    requires n.role == Leader && (id, n.currentTerm, |n.log.entries|) in p.held && id in ms
    requires ProgressGood(ms, p, id, n.currentTerm, n.matchIndex)
    requires (forall i, j :: 0 <= i < j < |peers| ==> peers[i] != peers[j]) && (set r | r in peers) == ms - {id}
    requires Committable(peers, n, N)
    ensures CommitGood(ms, p, n.log.entries, N, n.currentTerm)
  {
    hide HeldGood, CandsGood, RollsGood, ElectorsGood, Replicated, G.Coherent, ProgressGood;
    var t, log := n.currentTerm, n.log.entries;
    assert t > 0;
    assert 1 <= N <= |log| && log[N - 1].term == t;
    EnoughHeld(ms, p, id, peers, t, n.matchIndex, N);
    HasOwn(p.tl, t, N);
    assert CommitFrom(ms, p, log, N, t, t, N);
  }

  lemma AckGood(ms: set<NodeId>, p: Past, peers: seq<NodeId>, n: Node, m: Message)
    requires PastGood(ms, p) && NodeGood(ms, p, m.dst, KeeperOf(n)) && Grounded(p, m.dst, n)
    requires m.AppendAck? && MsgGood(ms, p, m) && (Outdated(n, m) ==> p.trust.stale) && m.dst in ms
    requires (forall i, j :: 0 <= i < j < |peers| ==> peers[i] != peers[j]) && (set r | r in peers) == ms - {m.dst}
    ensures StepGood(ms, p, p, m.dst, HandleAppendAck(peers, n, m))
  {
    hide CandsGood, RollsGood, ElectorsGood, HeldGood, KeepsHeld, CommitGood, G.Coherent, TermLogsGood, Replicated;
    hide ApplyCommitted, ApplyEntries, Committable, CommitCandidate, VoterLog, Acked;
    SamePast(p);
    if m.term > n.currentTerm {
      LaterTerm(ms, p, m.dst, KeeperOf(n), KeeperOf(HandleAppendAck(peers, n, m).node));
    } else if n.role == Leader && m.success {
      var n1 := n.(matchIndex := n.matchIndex[m.src := m.conflictIndex],
                   nextIndex := n.nextIndex[m.src := m.conflictIndex + 1]);
      assert ProgressGood(ms, p, m.dst, n.currentTerm, n1.matchIndex);
      var last := n.log.nextIndex - 1;
      CandidateIsGreatest(peers, n1, last);
      if CommitCandidate(peers, n1, last).Some? {
        CommitsCommitted(ms, p, m.dst, peers, n1, CommitCandidate(peers, n1, last).value);
      }
    }
  }

  lemma SendGood(ms: set<NodeId>, p: Past, id: NodeId, n: Node, peer: NodeId)
    requires PastGood(ms, p) && NodeGood(ms, p, id, KeeperOf(n)) && Grounded(p, id, n)
    ensures StepGood(ms, p, p, id, Effect(n, SendAppend(id, n, peer)))
  {
    hide TermLogsGood, HeldGood, CandsGood, RollsGood, ElectorsGood, NodeGood, MsgGood, Grounded, SendAppend;
    SamePast(p);
    forall m | m in SendAppend(id, n, peer)
      ensures MsgGood(ms, p, m)
    {
      SentGood(ms, p, id, n, peer, m);
    }
  }

  lemma SentGood(ms: set<NodeId>, p: Past, id: NodeId, n: Node, peer: NodeId, m: Message)
    requires CandsGood(p) && NodeGood(ms, p, id, KeeperOf(n)) && Grounded(p, id, n) && m in SendAppend(id, n, peer)
    ensures MsgGood(ms, p, m)
  {
    hide KeepsHeld, CommitGood, G.Coherent, G.SliceOf, TermsUpTo, ProgressGood, VoterLog, SendAppend, NoLaterVote;
    hide Acked, L.TermAt, L.GetFrom;
    CommitWithin(ms, p, n.log.entries, n.log.commitIndex, n.currentTerm);
    var ni := SentIs(id, n, peer, m);
    if ni - 1 <= |n.log.entries| {
      SentSlice(n, ni, m);
    }
  }

  lemma SentIs(id: NodeId, n: Node, peer: NodeId, m: Message) returns (ni: nat)
    requires n.log.snapshotIndex == 0 && m in SendAppend(id, n, peer)
    ensures n.role == Leader && m.AppendEntries? && m.term == n.currentTerm && m.leaderCommit == n.log.commitIndex
    ensures ni >= 1 && m.prevLogIndex == ni - 1 && m.prevLogTerm == L.TermAt(n.log, ni - 1)
    ensures m.entries == L.GetFrom(n.log, ni)
    ensures ni - 1 > |n.log.entries| ==> m.prevLogTerm == 0
  {
    ni := if Lookup(n.nextIndex, peer) == 0 then 1 else Lookup(n.nextIndex, peer);
  }

  lemma CommitWithin(ms: set<NodeId>, p: Past, log: seq<LogEntry>, commit: nat, term: nat)
    requires CommitGood(ms, p, log, commit, term)
    ensures commit <= |log|
  {
  }

  lemma SentSlice(n: Node, ni: nat, m: Message)
    requires n.log.snapshotIndex == 0 && 1 <= ni <= |n.log.entries| + 1 && m.AppendEntries?
    requires m.prevLogIndex == ni - 1 && m.prevLogTerm == L.TermAt(n.log, ni - 1) && m.entries == L.GetFrom(n.log, ni)
    ensures G.SliceOf(n.log.entries, m) && m.prevLogIndex + |m.entries| == |n.log.entries|
  {
  }

  // ---------------------------------------------------------------- every sound step keeps the invariant

  ghost predicate Inv(c: Cluster, s: System, p: Past)
  {
    && s.nodes.Keys == c.members && PastGood(c.members, p)
    && (forall id :: id in c.members ==> NodeGood(c.members, p, id, KeeperOf(s.nodes[id])))
    && (forall m :: m in s.net ==> MsgGood(c.members, p, m))
  }

  lemma PutKeepsInv(c: Cluster, s: System, p: Past, p': Past, id: NodeId, e: Effect, net: multiset<Message>)
    requires Inv(c, s, p) && id in c.members && StepGood(c.members, p, p', id, e) && net <= s.net
    ensures Inv(c, Put(s, id, e, net), p')
  {
    hide PastGood, NodeGood, MsgGood, Onward, SameHeld;
    var s' := Put(s, id, e, net);
    forall j | j in c.members
      ensures NodeGood(c.members, p', j, KeeperOf(s'.nodes[j]))
    {
      if j != id {
        NodeGrows(c.members, p, p', j, KeeperOf(s.nodes[j]));
      }
    }
    forall m | m in s'.net
      ensures MsgGood(c.members, p', m)
    {
      if m in s.net {
        MsgGrows(c.members, p, p', m);
      } else {
        assert m in multiset(e.out);
      }
    }
  }

  /** The history of elections and the term logs are the ones of the other invariants. */
  ghost predicate Consistent(c: Cluster, s: System, h: E.History, p: Past)
  {
    && p.grants == h.grants && p.leaders == h.leaders
    && E.Inv(c.members, E.View(s), h) && E.LeadersKnown(c.members, E.View(s), h.leaders)
    && G.LogInv(G.View(s), h.leaders, p.tl)
  }

  lemma NodeGrounded(c: Cluster, s: System, h: E.History, p: Past, id: NodeId)
    requires s.nodes.Keys == c.members && Consistent(c, s, h, p) && id in c.members
    ensures Grounded(p, id, s.nodes[id])
  {
    assert G.View(s).nodes[id] == G.HolderOf(s.nodes[id]);
    assert G.HolderGood(p.tl, G.View(s).nodes[id]);
    assert E.View(s).nodes[id] == E.ElectorOf(s.nodes[id]);
    assert E.VoteRecorded(E.View(s).nodes[id], h, id);
  }

  lemma TermLogNumbered(c: Cluster, s: System, h: E.History, p: Past, t: nat)
    requires Consistent(c, s, h, p) && t in p.tl
    ensures L.Numbered(p.tl[t])
  {
  }

  lemma PeersAre(c: Cluster, id: NodeId)
    requires id in c.members
    ensures forall i, j :: 0 <= i < j < |c.peers[id]| ==> c.peers[id][i] != c.peers[id][j]
    ensures (set r | r in c.peers[id]) == c.members - {id}
  {
  }

  /** The step's effect on its node is good, and the past moves with elections and term logs. */
  ghost predicate Explains(c: Cluster, s: System, step: Step, v: E.Move, h': E.History, p: Past, p': Past)
    requires Enabled(c, s, step) && !step.DropStep?
  {
    && StepGood(c.members, p, p', Actor(step), Outcome(c, s, step))
    && p'.grants == h'.grants && p'.leaders == h'.leaders && p'.tl == G.TermLogsAfter(c, s, step, p.tl)
  }

  ghost predicate SoundStep(trust: Trust, s: System, step: Step)
  {
    step.DeliverStep? && step.m.dst in s.nodes ==> Sound(trust, s.nodes[step.m.dst], step.m)
  }

  /** Everything a step starts from. */
  ghost predicate Ready(c: Cluster, s: System, step: Step, v: E.Move, h: E.History, h': E.History, p: Past)
  {
    && Inv(c, s, p) && Consistent(c, s, h, p) && Enabled(c, s, step)
    && E.IsMoveOf(s, step, v) && h' == E.Record(E.View(s), E.View(Take(c, s, step)), h, v)
    && E.Inv(c.members, E.View(Take(c, s, step)), h') && E.KeepsLeaders(h, h')
    && E.Moves(c.members, E.View(s), E.View(Take(c, s, step)), v)
  }

  lemma NothingDone(ms: set<NodeId>, p: Past, id: NodeId, n: Node)
    requires PastGood(ms, p) && NodeGood(ms, p, id, KeeperOf(n))
    ensures StepGood(ms, p, p, id, Effect(n, []))
  {
  }

  lemma StandRecorded(c: Cluster, s: System, step: Step, v: E.Move, h: E.History, h': E.History)
    requires Enabled(c, s, step) && step.ElectStep? && s.nodes[step.id].role != Leader
    requires E.IsMoveOf(s, step, v) && h' == E.Record(E.View(s), E.View(Take(c, s, step)), h, v)
    ensures h'.grants == h.grants[(step.id, s.nodes[step.id].currentTerm + 1) := step.id] && h'.leaders == h.leaders
  {
  }

  lemma ElectExplained(c: Cluster, s: System, step: Step, v: E.Move, h: E.History, h': E.History, p: Past)
    returns (p': Past)
    requires Ready(c, s, step, v, h, h', p) && step.ElectStep?
    ensures Explains(c, s, step, v, h', p, p')
  {
    hide PastGood, NodeGood, MsgGood, Onward, E.Inv, G.LogInv, E.Moves, Grounded, E.KeepsLeaders, StepGood,
      E.LeadersKnown;
    hide Elect;
    var id, n := step.id, s.nodes[step.id];
    NodeGrounded(c, s, h, p, id);
    if n.role == Leader {
      p' := p;
      NothingDone(c.members, p, id, n);
      assert Elect(id, c.peers[id], n) == Effect(n, []) by { LeaderStays(id, c.peers[id], n); }
    } else {
      StandRecorded(c, s, step, v, h, h');
      p' := StandGood(c.members, p, id, c.peers[id], n);
    }
  }

  lemma LeaderStays(id: NodeId, peers: seq<NodeId>, n: Node)
    requires n.role == Leader
    ensures Elect(id, peers, n) == Effect(n, [])
  {
  }

  lemma ProposeExplained(c: Cluster, s: System, step: Step, v: E.Move, h: E.History, h': E.History, p: Past)
    returns (p': Past)
    requires Ready(c, s, step, v, h, h', p) && step.ProposeStep?
    ensures Explains(c, s, step, v, h', p, p')
  {
    hide PastGood, NodeGood, MsgGood, Onward, SameHeld, E.Inv, G.LogInv, E.Moves, E.KeepsLeaders, StepGood,
      E.LeadersKnown;
    hide Grounded;
    var id, n := step.id, s.nodes[step.id];
    NodeGrounded(c, s, h, p, id);
    if n.role == Leader {
      var e := LogEntry(n.log.nextIndex, n.currentTerm, step.key, step.value, step.op, step.ts, id, map[]);
      p' := ProposeGood(c.members, p, id, n, e, Outcome(c, s, step).node);
    } else {
      p' := p;
      NothingDone(c.members, p, id, n);
    }
  }

  lemma VoteIsNew(c: Cluster, s: System, step: Step, v: E.Move, h: E.History, h': E.History, p: Past)
    requires Ready(c, s, step, v, h, h', p)
    requires step.DeliverStep? && step.m.VoteRequest? && E.GrantsVote(s.nodes[step.m.dst], step.m)
    ensures (step.m.dst, step.m.term) !in p.grants
  {
    hide PastGood, NodeGood, G.LogInv, E.KeepsLeaders, HandleVoteRequest, E.GrantsVote, MsgGood, E.LeadersKnown;
    E.VoteIsNew(c.members, E.View(s), E.View(Take(c, s, step)), h, step.m);
  }

  lemma RequestExplained(c: Cluster, s: System, step: Step, v: E.Move, h: E.History, h': E.History, p: Past)
    returns (p': Past)
    requires Ready(c, s, step, v, h, h', p) && step.DeliverStep? && step.m.VoteRequest?
    ensures Explains(c, s, step, v, h', p, p')
  {
    hide PastGood, NodeGood, Onward, SameHeld, G.LogInv, Grounded, E.KeepsLeaders, HandleVoteRequest, E.GrantsVote,
      E.Inv, E.Moves, MsgGood, E.LeadersKnown;
    var m := step.m;
    var n := s.nodes[m.dst];
    NodeGrounded(c, s, h, p, m.dst);
    if E.GrantsVote(n, m) {
      VoteIsNew(c, s, step, v, h, h', p);
      p' := VoteGoodStep(c.members, p, n, m);
    } else {
      p' := p;
      RefuseGood(c.members, p, n, m);
    }
  }

  lemma ResponseExplained(c: Cluster, s: System, step: Step, v: E.Move, h: E.History, h': E.History, p: Past)
    returns (p': Past)
    requires Ready(c, s, step, v, h, h', p) && step.DeliverStep? && step.m.VoteResponse?
    ensures Explains(c, s, step, v, h', p, p')
  {
    hide PastGood, NodeGood, Onward, SameHeld, G.LogInv, Grounded, E.Inv, E.Moves, MsgGood, E.LeadersKnown;
    var m := step.m;
    var n := s.nodes[m.dst];
    NodeGrounded(c, s, h, p, m.dst);
    var e := HandleVoteResponse(m.dst, c.peers[m.dst], n, m);
    E.StepLeaders(c, s, step, Take(c, s, step), h, v);
    SamePast(p);
    if E.IsCounted(n, m) && e.node.role == Leader {
      WinFacts(c, s, step, v, h, h', p);
      p' := WinGood(c.members, p, m.dst, c.peers[m.dst], n, m);
    } else {
      p' := p;
      if m.term > n.currentTerm {
        LaterTerm(c.members, p, m.dst, KeeperOf(n), KeeperOf(e.node));
      } else {
        assert KeeperOf(e.node) == KeeperOf(n);
      }
    }
  }

  lemma FirstWin(nodes: map<NodeId, G.Holder>, leaders: G.Leaders, leaders': G.Leaders, id: NodeId)
    requires G.CandidatesNew(nodes, leaders) && id in nodes && nodes[id].role == Candidate
    requires leaders' == leaders[nodes[id].currentTerm := id]
    requires forall t :: t in leaders ==> t in leaders' && leaders'[t] == leaders[t]
    ensures nodes[id].currentTerm !in leaders
  {
  }

  lemma WinnerSupported(ms: set<NodeId>, s: E.Arena, h: E.History, t: nat, id: NodeId)
    requires E.Inv(ms, s, h) && t in h.leaders && h.leaders[t] == id
    ensures |E.Supporters(ms, h.grants, t, id)| >= E.MajorityOf(ms)
  {
  }

  lemma CandidatesAreNew(s: G.Shelf, leaders: G.Leaders, tl: G.TermLogs)
    requires G.LogInv(s, leaders, tl)
    ensures G.CandidatesNew(s.nodes, leaders)
  {
  }

  /** A win is the first in its term, and has the votes of a majority. */
  lemma WinFacts(c: Cluster, s: System, step: Step, v: E.Move, h: E.History, h': E.History, p: Past)
    requires Ready(c, s, step, v, h, h', p) && step.DeliverStep? && E.CountsVote(s, step)
    requires Outcome(c, s, step).node.role == Leader
    ensures s.nodes[step.m.dst].currentTerm !in p.leaders
    ensures |E.Supporters(c.members, p.grants, step.m.term, step.m.dst)| >= E.MajorityOf(c.members)
    ensures forall r :: r in c.members && r != step.m.dst ==> r in c.peers[step.m.dst]
    ensures h'.leaders == h.leaders[step.m.term := step.m.dst]
  {
    hide PastGood, NodeGood, MsgGood, E.Moves, E.Supporters, E.Inv, G.LogInv, E.LeadersKnown, G.CandidatesNew,
      Outcome, E.View;
    var m := step.m;
    E.StepLeaders(c, s, step, Take(c, s, step), h, v);
    assert h'.grants == h.grants;
    assert G.View(s).nodes[m.dst] == G.HolderOf(s.nodes[m.dst]);
    CandidatesAreNew(G.View(s), h.leaders, p.tl);
    FirstWin(G.View(s).nodes, h.leaders, h'.leaders, m.dst);
    WinnerSupported(c.members, E.View(Take(c, s, step)), h', m.term, m.dst);
    forall r | r in c.members && r != m.dst
      ensures r in c.peers[m.dst]
    {
      E.OtherIsPeer(c, m.dst, r);
    }
  }

  lemma AppendExplained(c: Cluster, s: System, step: Step, v: E.Move, h: E.History, h': E.History, p: Past)
    returns (p': Past)
    requires Ready(c, s, step, v, h, h', p) && step.DeliverStep? && step.m.AppendEntries? && SoundStep(p.trust, s, step)
    ensures Explains(c, s, step, v, h', p, p')
  {
    hide PastGood, NodeGood, Onward, SameHeld, G.LogInv, Grounded, E.Inv, E.Moves, E.LeadersKnown, HandleAppendEntries;
    hide Overstates, Accepts;
    var m := step.m;
    NodeGrounded(c, s, h, p, m.dst);
    if Accepts(s.nodes[m.dst], m) {
      TermLogNumbered(c, s, h, p, m.term);
      p' := AcceptGood(c.members, p, s.nodes[m.dst], m);
    } else {
      p' := p;
      RejectGood(c.members, p, s.nodes[m.dst], m);
    }
  }

  lemma AckExplained(c: Cluster, s: System, step: Step, v: E.Move, h: E.History, h': E.History, p: Past)
    requires Ready(c, s, step, v, h, h', p) && step.DeliverStep? && step.m.AppendAck? && SoundStep(p.trust, s, step)
    ensures Explains(c, s, step, v, h', p, p)
  {
    hide PastGood, NodeGood, Onward, SameHeld, G.LogInv, Grounded, E.Inv, E.Moves, E.LeadersKnown, HandleAppendAck,
      Outdated;
    NodeGrounded(c, s, h, p, step.m.dst);
    PeersAre(c, step.m.dst);
    AckGood(c.members, p, c.peers[step.m.dst], s.nodes[step.m.dst], step.m);
  }

  lemma SendExplained(c: Cluster, s: System, step: Step, v: E.Move, h: E.History, h': E.History, p: Past)
    requires Ready(c, s, step, v, h, h', p) && step.SendAppendStep?
    ensures Explains(c, s, step, v, h', p, p)
  {
    hide PastGood, NodeGood, Onward, SameHeld, G.LogInv, Grounded, E.Inv, E.Moves, E.LeadersKnown, SendAppend;
    NodeGrounded(c, s, h, p, step.id);
    SendGood(c.members, p, step.id, s.nodes[step.id], step.peer);
  }

  /** Every sound step without compaction keeps the invariant. */
  lemma StepKeepsInv(c: Cluster, s: System, step: Step, v: E.Move, h: E.History, h': E.History, p: Past)
    returns (p': Past)
    requires Ready(c, s, step, v, h, h', p) && !step.CompactStep? && SoundStep(p.trust, s, step)
    ensures Inv(c, Take(c, s, step), p') && Onward(p, p')
    ensures p'.grants == h'.grants && p'.leaders == h'.leaders && p'.tl == G.TermLogsAfter(c, s, step, p.tl)
  {
    hide PastGood, NodeGood, Onward, SameHeld, G.LogInv, E.Inv, E.Moves, E.LeadersKnown, Outcome, Sound, MsgGood;
    if step.DropStep? {
      p' := p;
      SamePast(p);
      return;
    }
    if step.ElectStep? {
      p' := ElectExplained(c, s, step, v, h, h', p);
    } else if step.ProposeStep? {
      p' := ProposeExplained(c, s, step, v, h, h', p);
    } else if step.SendAppendStep? {
      SendExplained(c, s, step, v, h, h', p);
      p' := p;
    } else if step.m.VoteRequest? {
      p' := RequestExplained(c, s, step, v, h, h', p);
    } else if step.m.VoteResponse? {
      p' := ResponseExplained(c, s, step, v, h, h', p);
    } else if step.m.AppendEntries? {
      p' := AppendExplained(c, s, step, v, h, h', p);
    } else if step.m.AppendAck? {
      AckExplained(c, s, step, v, h, h', p);
      p' := p;
    } else {
      NoSnapshots(c, s, h, p, step.m);
      assert false;
    }
    PutKeepsInv(c, s, p, p', Actor(step), Outcome(c, s, step), Consumed(s.net, step));
  }

  lemma NoSnapshots(c: Cluster, s: System, h: E.History, p: Past, m: Message)
    requires Consistent(c, s, h, p) && m in s.net
    ensures !m.InstallSnap?
  {
  }

  // ---------------------------------------------------------------- runs

  /** Commits are good at all times, and a leader's log goes on from the log it stood with. */
  ghost predicate Chronicle(c: Cluster, tr: seq<System>, p: Past)
  {
    forall i, id :: 0 <= i < |tr| && id in tr[i].nodes ==> NodeChronicled(c.members, p, id, KeeperOf(tr[i].nodes[id]))
  }

  ghost predicate NodeChronicled(ms: set<NodeId>, p: Past, id: NodeId, n: Keeper)
  {
    && CommitGood(ms, p, n.entries, n.commit, n.currentTerm)
    && (n.role == Leader ==>
        && n.currentTerm in p.tl && n.currentTerm in p.leaders && p.leaders[n.currentTerm] == id
        && (id, n.currentTerm) in p.cands && p.cands[(id, n.currentTerm)] <= n.entries)
  }

  lemma ChronicledGrows(ms: set<NodeId>, p: Past, p': Past, id: NodeId, n: Keeper)
    requires NodeChronicled(ms, p, id, n) && Onward(p, p')
    ensures NodeChronicled(ms, p', id, n)
  {
    hide CommitGood;
    CommitGoodGrows(ms, p, p', n.entries, n.commit, n.currentTerm, n.currentTerm);
  }

  lemma NowChronicled(c: Cluster, s: System, h: E.History, p: Past, id: NodeId)
    requires Inv(c, s, p) && Consistent(c, s, h, p) && id in c.members
    ensures NodeChronicled(c.members, p, id, KeeperOf(s.nodes[id]))
  {
    hide PastGood, KeepsHeld, CommitGood, MsgGood, VoterLog, ProgressGood, TermsUpTo, E.Inv, E.LeadersKnown, G.LogInv;
    hide Grounded;
    assert NodeGood(c.members, p, id, KeeperOf(s.nodes[id]));
    NodeGrounded(c, s, h, p, id);
    if s.nodes[id].role == Leader {
      LeaderKnown(c, s, h, p, id);
      LeaderStood(c.members, p, id, s.nodes[id]);
    }
  }

  lemma LeaderKnown(c: Cluster, s: System, h: E.History, p: Past, id: NodeId)
    requires s.nodes.Keys == c.members && Consistent(c, s, h, p) && id in c.members && s.nodes[id].role == Leader
    ensures s.nodes[id].currentTerm in p.leaders && p.leaders[s.nodes[id].currentTerm] == id
  {
    hide E.Inv, G.LogInv;
    assert E.View(s).nodes[id] == E.ElectorOf(s.nodes[id]);
  }

  lemma LeaderStood(ms: set<NodeId>, p: Past, id: NodeId, n: Node)
    requires PastGood(ms, p) && Grounded(p, id, n) && n.role == Leader
    requires n.currentTerm in p.leaders && p.leaders[n.currentTerm] == id
    ensures n.currentTerm in p.tl
    ensures (id, n.currentTerm) in p.cands && p.cands[(id, n.currentTerm)] <= n.log.entries
  {
    hide TermLogsGood, HeldGood, RollsGood, ElectorsGood, G.Coherent;
  }

  ghost predicate Told(c: Cluster, trust: Trust, tr: seq<System>, h: E.History, p: Past)
  {
    tr != [] && p.trust == trust && Inv(c, tr[|tr| - 1], p) && Consistent(c, tr[|tr| - 1], h, p) && Chronicle(c, tr, p)
  }

  ghost predicate Explained(c: Cluster, trust: Trust, tr: seq<System>)
  {
    exists h, p :: Told(c, trust, tr, h, p)
  }

  ghost function NothingYet(trust: Trust): Past
  {
    Past(map[], map[], map[], {}, map[], map[], map[], trust)
  }

  lemma InitInv(c: Cluster, trust: Trust)
    requires Fits(trust, |c.members|)
    ensures Inv(c, Init(c), NothingYet(trust))
  {
  }

  lemma InitExplained(c: Cluster, trust: Trust)
    requires Fits(trust, |c.members|)
    ensures Explained(c, trust, [Init(c)])
  {
    InitInv(c, trust);
    hide Inv;
    assert Told(c, trust, [Init(c)], E.History(map[], map[], map[]), NothingYet(trust));
  }

  lemma StepReady(c: Cluster, s: System, step: Step, h: E.History, p: Past)
    returns (v: E.Move, h': E.History, tl': G.TermLogs)
    requires Inv(c, s, p) && Consistent(c, s, h, p) && Enabled(c, s, step) && !step.CompactStep?
    ensures Ready(c, s, step, v, h, h', p)
    ensures tl' == G.TermLogsAfter(c, s, step, p.tl)
    ensures G.LogInv(G.View(Take(c, s, step)), h'.leaders, tl')
    ensures E.LeadersKnown(c.members, E.View(Take(c, s, step)), h'.leaders)
  {
    hide PastGood, NodeGood, MsgGood, E.Inv, E.Moves, E.Record, E.LeadersKnown, E.View, E.IsMoveOf, G.LogInv,
      G.LeadersKnown;
    hide Take, G.TermLogsAfter, Outcome;
    var s' := Take(c, s, step);
    v := E.StepKeepsInv(c, s, step, s', h);
    h' := E.Record(E.View(s), E.View(s'), h, v);
    G.SameLeaders(c, s, h.leaders);
    E.StepLeaders(c, s, step, s', h, v);
    tl' := G.StepKeepsLogInv(c, s, step, s', h.leaders, h'.leaders, p.tl);
  }

  lemma StepExplained(c: Cluster, trust: Trust, tr: seq<System>, step: Step, s': System)
    requires Explained(c, trust, tr) && Next(c, tr[|tr| - 1], step, s') && !step.CompactStep?
    requires SoundStep(trust, tr[|tr| - 1], step)
    ensures Explained(c, trust, tr + [s'])
  {
    hide Inv, Consistent, Ready, G.LogInv, E.LeadersKnown, E.Inv, Take, SoundStep, Chronicle, NodeChronicled, Enabled;
    var h, p :| Told(c, trust, tr, h, p);
    var s := tr[|tr| - 1];
    var v, h', tl' := StepReady(c, s, step, h, p);
    var p' := StepKeepsInv(c, s, step, v, h, h', p);
    assert Consistent(c, s', h', p') by { ReadyConsistent(c, s, step, v, h, h', p, p'); }
    ChronicleExtends(c, tr, s', h', p, p');
    assert Told(c, trust, tr + [s'], h', p');
  }

  lemma ReadyConsistent(c: Cluster, s: System, step: Step, v: E.Move, h: E.History, h': E.History, p: Past, p': Past)
    requires Ready(c, s, step, v, h, h', p)
    requires p'.grants == h'.grants && p'.leaders == h'.leaders
    requires G.LogInv(G.View(Take(c, s, step)), h'.leaders, p'.tl)
    requires E.LeadersKnown(c.members, E.View(Take(c, s, step)), h'.leaders)
    ensures Consistent(c, Take(c, s, step), h', p')
  {
    hide E.Inv, G.LogInv, E.LeadersKnown, E.View, G.View, E.Moves, E.Record, PastGood, NodeGood, MsgGood;
  }

  lemma ChronicleExtends(c: Cluster, tr: seq<System>, s': System, h': E.History, p: Past, p': Past)
    requires Chronicle(c, tr, p) && Onward(p, p') && Inv(c, s', p') && Consistent(c, s', h', p')
    ensures Chronicle(c, tr + [s'], p')
  {
    hide NodeChronicled, Consistent, Onward;
    forall i, id | 0 <= i < |tr| + 1 && id in (tr + [s'])[i].nodes
      ensures NodeChronicled(c.members, p', id, KeeperOf((tr + [s'])[i].nodes[id]))
    {
      if i < |tr| {
        ChronicledGrows(c.members, p, p', id, KeeperOf(tr[i].nodes[id]));
      } else {
        assert id in s'.nodes.Keys;
        NowChronicled(c, s', h', p', id);
      }
    }
  }

  /** No compaction, and unsound acknowledgements only of kinds that do no harm to this many members. */
  ghost predicate SoundRun(c: Cluster, trust: Trust, tr: seq<System>, steps: seq<Step>)
  {
    && IsRun(c, tr, steps) && Fits(trust, |c.members|)
    && forall i :: 0 <= i < |steps| ==> !steps[i].CompactStep? && SoundStep(trust, tr[i], steps[i])
  }

  lemma {:induction false} RunExplained(c: Cluster, trust: Trust, tr: seq<System>, steps: seq<Step>)
    requires SoundRun(c, trust, tr, steps)
    ensures Explained(c, trust, tr)
    decreases |steps|
  {
    hide Explained, Next, SoundStep;
    RunLast(c, tr, steps);
    if steps == [] {
      InitExplained(c, trust);
    } else {
      var k := |steps|;
      RunExplained(c, trust, tr[..k], steps[..k - 1]);
      StepExplained(c, trust, tr[..k], steps[k - 1], tr[k]);
      assert tr == tr[..k] + [tr[k]];
    }
  }

  /** Two commits agree as far as both go. */
  lemma CommitsAgree(ms: set<NodeId>, p: Past, a: seq<LogEntry>, b: seq<LogEntry>, k: nat, t: nat, n: nat, u: nat,
      m: nat)
    requires PastGood(ms, p) && Committed(ms, p, t, n) && Committed(ms, p, u, m) && k <= n && k <= m && t <= u
    requires Has(a, p.tl, t, k) && Has(b, p.tl, u, k)
    ensures a[..k] == b[..k]
  {
    hide PastGood, Committed;
    if t < u {
      CommittedIn(ms, p, u, m);
      Complete(ms, p, t, n, u);
      HasLess(p.tl[u], p.tl, t, n, k);
    }
  }

  lemma CommitGoodLess(ms: set<NodeId>, p: Past, log: seq<LogEntry>, commit: nat, term: nat, k: nat)
    returns (t: nat, n: nat)
    requires CommitGood(ms, p, log, commit, term) && 1 <= k <= commit
    ensures Committed(ms, p, t, n) && k <= n && t <= term && Has(log, p.tl, t, k)
  {
    t, n :| CommitFrom(ms, p, log, commit, term, t, n);
    HasLess(log, p.tl, t, commit, k);
  }

  /**
   State machine safety: in every such run, what any two nodes have committed, at any two times,
   agrees as far as both go.
   */
  lemma StateMachineSafety(c: Cluster, trust: Trust, tr: seq<System>, steps: seq<Step>, i: nat, j: nat,
      a: NodeId, b: NodeId, k: nat)
    requires SoundRun(c, trust, tr, steps) && i < |tr| && j < |tr| && a in tr[i].nodes && b in tr[j].nodes
    requires k <= tr[i].nodes[a].log.commitIndex && k <= tr[j].nodes[b].log.commitIndex
    ensures k <= |tr[i].nodes[a].log.entries| && k <= |tr[j].nodes[b].log.entries|
    ensures tr[i].nodes[a].log.entries[..k] == tr[j].nodes[b].log.entries[..k]
  {
    hide PastGood, NodeChronicled, SoundStep, Next;
    RunExplained(c, trust, tr, steps);
    var h, p :| Told(c, trust, tr, h, p);
    CommittedAgree(c.members, p, a, KeeperOf(tr[i].nodes[a]), b, KeeperOf(tr[j].nodes[b]), k);
  }

  lemma CommittedAgree(ms: set<NodeId>, p: Past, a: NodeId, na: Keeper, b: NodeId, nb: Keeper, k: nat)
    requires PastGood(ms, p) && NodeChronicled(ms, p, a, na) && NodeChronicled(ms, p, b, nb)
    requires k <= na.commit && k <= nb.commit
    ensures k <= |na.entries| && k <= |nb.entries| && na.entries[..k] == nb.entries[..k]
  {
    hide PastGood, Committed, CommitGood;
    if k > 0 {
      var t, n := CommitGoodLess(ms, p, na.entries, na.commit, na.currentTerm, k);
      var u, m := CommitGoodLess(ms, p, nb.entries, nb.commit, nb.currentTerm, k);
      if t <= u {
        CommitsAgree(ms, p, na.entries, nb.entries, k, t, n, u, m);
      } else {
        CommitsAgree(ms, p, nb.entries, na.entries, k, u, m, t, n);
      }
    }
  }

  lemma LaterLeaderHas(ms: set<NodeId>, p: Past, a: NodeId, na: Keeper, b: NodeId, nb: Keeper)
    requires PastGood(ms, p) && NodeChronicled(ms, p, a, na) && NodeChronicled(ms, p, b, nb)
    requires nb.role == Leader && na.currentTerm < nb.currentTerm
    ensures na.commit <= |na.entries| && na.entries[..na.commit] <= nb.entries
  {
    hide PastGood, Committed, CommitGood;
    var k := na.commit;
    if k > 0 {
      var t, n := CommitGoodLess(ms, p, na.entries, k, na.currentTerm, k);
      Complete(ms, p, t, n, nb.currentTerm);
      HasLess(p.cands[(b, nb.currentTerm)], p.tl, t, n, k);
      assert na.entries[..k] == p.tl[t][..k];
    }
  }

  /** Leader completeness: in every such run, a leader has whatever any node has committed in an earlier term. */
  lemma LeaderCompleteness(c: Cluster, trust: Trust, tr: seq<System>, steps: seq<Step>, i: nat, j: nat,
      a: NodeId, b: NodeId)
    requires SoundRun(c, trust, tr, steps) && i < |tr| && j < |tr| && a in tr[i].nodes && b in tr[j].nodes
    requires tr[j].nodes[b].role == Leader && tr[i].nodes[a].currentTerm < tr[j].nodes[b].currentTerm
    ensures tr[i].nodes[a].log.commitIndex <= |tr[i].nodes[a].log.entries|
    ensures tr[i].nodes[a].log.entries[..tr[i].nodes[a].log.commitIndex] <= tr[j].nodes[b].log.entries
  {
    hide PastGood, NodeChronicled, SoundStep, Next;
    RunExplained(c, trust, tr, steps);
    var h, p :| Told(c, trust, tr, h, p);
    LaterLeaderHas(c.members, p, a, KeeperOf(tr[i].nodes[a]), b, KeeperOf(tr[j].nodes[b]));
  }
}
