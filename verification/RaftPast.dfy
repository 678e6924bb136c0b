/**
 Leader completeness: what has been held of a leader's log, up to an entry of its own term, by so many
 that they meet every majority, is in the log of every later leader.

 It is a fact about the past of a run: what was acknowledged to which leader, and with which logs
 candidates stood and voters voted. Nothing in the protocol reads this history.
 */
module RaftPast {
  import opened Storage
  import opened RaftModel
  import opened Quorums
  import E = RaftElection
  import G = RaftLogMatching

  /** The kinds of acknowledgements a run may contain: overstated ones, outdated ones. */
  datatype Trust = Trust(over: bool, stale: bool)

  /** The size at which those kinds are harmless. */
  predicate Fits(trust: Trust, size: nat)
  {
    (trust.stale ==> size <= 2) && (trust.over ==> size <= 2 || size == 4)
  }

  /** The past of a run. */
  datatype Past = Past(
    grants: E.Ballots,                              // (voter, term) -> candidate
    leaders: G.Leaders,                             // term -> leader
    tl: G.TermLogs,                                 // term -> its leader's log
    held: set<(NodeId, nat, nat)>,                  // (node, term, index): the node had that much of the term's log
    cands: map<(NodeId, nat), seq<LogEntry>>,       // (candidate, term) -> the log it stood with
    rolls: map<(NodeId, nat), seq<LogEntry>>,       // (voter, term) -> the log it voted with, before the term was won
    electors: map<nat, set<NodeId>>,                // term -> who had voted for its leader when it won
    trust: Trust)

  // ---------------------------------------------------------------- having and lacking a prefix

  ghost predicate Has(log: seq<LogEntry>, tl: G.TermLogs, t: nat, n: nat)
  {
    t in tl && n <= |tl[t]| && tl[t][..n] <= log
  }

  /** The leader of u, after t, did not have the first n entries of t's leader. */
  ghost predicate Lacks(tl: G.TermLogs, t: nat, n: nat, u: nat)
  {
    t < u && u in tl && !Has(tl[u], tl, t, n)
  }

  /** The log has them, unless a leader of a term before `end` came that did not. */
  ghost predicate Kept(tl: G.TermLogs, log: seq<LogEntry>, t: nat, n: nat, end: nat)
  {
    Has(log, tl, t, n) || exists u: nat :: u < end && Lacks(tl, t, n, u)
  }

  ghost predicate HeldTo(held: set<(NodeId, nat, nat)>, q: NodeId, t: nat, n: nat)
  {
    exists k :: n <= k && (q, t, k) in held
  }

  // ---------------------------------------------------------------- terms in logs

  ghost predicate SortedTerms(log: seq<LogEntry>)
  {
    forall i, j :: 0 <= i < j < |log| ==> log[i].term <= log[j].term
  }

  ghost predicate TermsUpTo(log: seq<LogEntry>, t: nat)
  {
    forall i :: 0 <= i < |log| ==> log[i].term <= t
  }

  function LastTerm(log: seq<LogEntry>): nat
  {
    if log == [] then 0 else log[|log| - 1].term
  }

  /** The comparison a voter makes. */
  predicate AtLeast(a: seq<LogEntry>, b: seq<LogEntry>)
  {
    LastTerm(a) > LastTerm(b) || (LastTerm(a) == LastTerm(b) && |a| >= |b|)
  }

  // ---------------------------------------------------------------- what holds of the past

  ghost predicate TermLogsGood(tl: G.TermLogs)
  {
    forall t :: t in tl ==> t > 0 && G.Coherent(tl, tl[t]) && SortedTerms(tl[t]) && TermsUpTo(tl[t], t)
  }

  ghost predicate HeldGood(p: Past)
  {
    forall q, t, k :: (q, t, k) in p.held ==> t in p.tl && k <= |p.tl[t]|
  }

  /** A candidate stood with a coherent log of earlier terms, and a leader's log extends it. */
  ghost predicate CandsGood(p: Past)
  {
    && (forall c, u :: (c, u) in p.cands ==>
        u > 0 && (c, u) in p.grants && G.Coherent(p.tl, p.cands[(c, u)]) && TermsUpTo(p.cands[(c, u)], u - 1))
    && (forall u :: u in p.leaders ==>
        (p.leaders[u], u) in p.cands && u in p.tl && Extended(p.cands[(p.leaders[u], u)], p.tl[u], u))
  }

  /** A leader's log goes on from the log it stood with by entries of its term. */
  ghost predicate Extended(log: seq<LogEntry>, log': seq<LogEntry>, u: nat)
  {
    log <= log' && forall i :: |log| <= i < |log'| ==> log'[i].term == u
  }

  ghost predicate RollGood(p: Past, q: NodeId, u: nat)
  {
    && (q, u) in p.rolls && (q, u) in p.grants && u > 0
    && (p.grants[(q, u)], u) in p.cands && AtLeast(p.cands[(p.grants[(q, u)], u)], p.rolls[(q, u)])
    && G.Coherent(p.tl, p.rolls[(q, u)]) && TermsUpTo(p.rolls[(q, u)], u - 1)
    && (forall t: nat, n: nat :: t < u && HeldTo(p.held, q, t, n) ==> Kept(p.tl, p.rolls[(q, u)], t, n, u))
  }

  ghost predicate RollsGood(p: Past)
  {
    && (forall q, u :: (q, u) in p.rolls ==> RollGood(p, q, u))
    && (forall q, u :: (q, u) in p.grants ==> u in p.leaders || (q, u) in p.rolls)
  }

  ghost predicate ElectorsGood(ms: set<NodeId>, p: Past)
  {
    && p.tl.Keys == p.leaders.Keys == p.electors.Keys
    && forall u :: u in p.electors ==>
      && p.electors[u] <= ms && |p.electors[u]| >= E.MajorityOf(ms)
      && forall q :: q in p.electors[u] ==> (q, u) in p.rolls && E.Granted(p.grants, q, u, p.leaders[u])
  }

  ghost predicate PastGood(ms: set<NodeId>, p: Past)
  {
    && TermLogsGood(p.tl) && HeldGood(p) && CandsGood(p) && RollsGood(p) && ElectorsGood(ms, p)
    && Fits(p.trust, |ms|)
  }

  // ---------------------------------------------------------------- leader completeness

  ghost function HoldersOf(ms: set<NodeId>, p: Past, t: nat, n: nat): set<NodeId>
  {
    set q | q in ms && HeldTo(p.held, q, t, n)
  }

  /** Entry n of term t's leader is of that term, and those who have held its log up to it meet every majority. */
  ghost predicate Committed(ms: set<NodeId>, p: Past, t: nat, n: nat)
  {
    && t in p.tl && 1 <= n <= |p.tl[t]| && p.tl[t][n - 1].term == t
    && |HoldersOf(ms, p, t, n)| + E.MajorityOf(ms) > |ms|
  }

  /** A coherent log is its last term's leader's log, as far as it goes. */
  lemma LogOfLastTerm(tl: G.TermLogs, log: seq<LogEntry>)
    requires G.Coherent(tl, log) && log != []
    ensures LastTerm(log) in tl && |log| <= |tl[LastTerm(log)]| && log == tl[LastTerm(log)][..|log|]
  {
    assert G.PlacedByLeader(tl, log, |log| - 1);
    assert log[..|log|] == log;
  }

  /** A log with an entry of term t ends in a term no earlier. */
  lemma EndsNoEarlier(tl: G.TermLogs, log: seq<LogEntry>, n: nat)
    requires TermLogsGood(tl) && G.Coherent(tl, log) && 1 <= n <= |log|
    ensures LastTerm(log) >= log[n - 1].term
  {
    LogOfLastTerm(tl, log);
    var w := LastTerm(log);
    assert SortedTerms(tl[w]);
    assert log[n - 1] == tl[w][n - 1] && log[|log| - 1] == tl[w][|log| - 1];
  }

  /** A log that ends as late as one that has the prefix, where every leader between had it, has it too. */
  lemma UpToDateHas(tl: G.TermLogs, a: seq<LogEntry>, b: seq<LogEntry>, t: nat, n: nat, u: nat)
    requires TermLogsGood(tl) && G.Coherent(tl, a) && G.Coherent(tl, b) && AtLeast(a, b)
    requires Has(b, tl, t, n) && n >= 1 && tl[t][n - 1].term == t && TermsUpTo(a, u) && u >= t
    requires forall v :: t < v <= u && v in tl ==> Has(tl[v], tl, t, n)
    ensures Has(a, tl, t, n)
  {
    hide TermLogsGood, G.Coherent;
    assert b[n - 1] == tl[t][n - 1];
    EndsNoEarlier(tl, b, n);
    assert t > 0 by { assert TermLogsGood(tl); PositiveTerm(tl, t); }
    LogOfLastTerm(tl, a);
    var w := LastTerm(a);
    assert w >= t && w <= u;
    if w == t {
      assert LastTerm(b) == t && |a| >= |b| >= n;
      assert a[..n] == tl[t][..n];
    } else {
      assert Has(tl[w], tl, t, n);
      assert |a| >= n by {
        if |a| < n {
          EarlyTerm(tl, t, n, w, |a|);
        }
      }
      assert a[..n] == tl[w][..n] == tl[t][..n];
    }
  }

  lemma PositiveTerm(tl: G.TermLogs, t: nat)
    requires TermLogsGood(tl) && t in tl
    ensures t > 0
  {
  }

  /** Inside a prefix of t's log a later leader has nothing of its own. */
  lemma EarlyTerm(tl: G.TermLogs, t: nat, n: nat, w: nat, i: nat)
    requires TermLogsGood(tl) && w in tl && t < w && Has(tl[w], tl, t, n) && 1 <= i <= n
    ensures tl[w][i - 1].term != w
  {
    assert TermsUpTo(tl[t], t);
    assert tl[w][i - 1] == tl[t][..n][i - 1] == tl[t][i - 1];
  }

  /** Leader completeness: what is committed in a term is in the log every later leader stood with. */
  lemma {:induction false} Complete(ms: set<NodeId>, p: Past, t: nat, n: nat, u: nat)
    requires PastGood(ms, p) && Committed(ms, p, t, n) && u in p.tl && u > t
    ensures u in p.leaders && (p.leaders[u], u) in p.cands && Has(p.cands[(p.leaders[u], u)], p.tl, t, n)
    ensures Has(p.tl[u], p.tl, t, n)
    decreases u
  {
    hide TermLogsGood, HeldGood, CandsGood, RollsGood, ElectorsGood, Has;
    forall v | t < v < u && v in p.tl
      ensures Has(p.tl[v], p.tl, t, n)
    {
      Complete(ms, p, t, n, v);
    }
    var q := Witness(ms, p, t, n, u);
    WitnessHas(ms, p, t, n, u, q);
  }

  /** Somebody who held the entry voted for the later leader before it won. */
  lemma Witness(ms: set<NodeId>, p: Past, t: nat, n: nat, u: nat) returns (q: NodeId)
    requires ElectorsGood(ms, p) && Committed(ms, p, t, n) && u in p.tl
    ensures u in p.electors && q in p.electors[u] && HeldTo(p.held, q, t, n)
  {
    assert u in p.electors.Keys;
    q := CommonMember(ms, HoldersOf(ms, p, t, n), p.electors[u]);
  }

  lemma WitnessHas(ms: set<NodeId>, p: Past, t: nat, n: nat, u: nat, q: NodeId)
    requires PastGood(ms, p) && Committed(ms, p, t, n) && u in p.tl && u > t
    requires u in p.electors && q in p.electors[u] && HeldTo(p.held, q, t, n)
    requires forall v :: t < v < u && v in p.tl ==> Has(p.tl[v], p.tl, t, n)
    ensures u in p.leaders && (p.leaders[u], u) in p.cands && Has(p.cands[(p.leaders[u], u)], p.tl, t, n)
    ensures Has(p.tl[u], p.tl, t, n)
  {
    hide TermLogsGood, HeldGood, G.Coherent, AtLeast, HeldTo, Has;
    assert RollGood(p, q, u);
    assert u in p.leaders.Keys && E.Granted(p.grants, q, u, p.leaders[u]);
    var a, b := p.cands[(p.leaders[u], u)], p.rolls[(q, u)];
    assert Kept(p.tl, b, t, n, u);
    assert Has(b, p.tl, t, n);
    UpToDateHas(p.tl, a, b, t, n, u - 1);
    HasMore(p.tl, a, p.tl[u], t, n);
  }

  lemma HasMore(tl: G.TermLogs, a: seq<LogEntry>, b: seq<LogEntry>, t: nat, n: nat)
    requires Has(a, tl, t, n) && a <= b
    ensures Has(b, tl, t, n)
  {
  }

  // ---------------------------------------------------------------- the past only grows

  /** Term logs grow by entries of their own term. */
  ghost predicate LogsGrow(tl: G.TermLogs, tl': G.TermLogs)
  {
    forall t :: t in tl ==>
      t in tl' && tl[t] <= tl'[t] && forall i :: |tl[t]| <= i < |tl'[t]| ==> tl'[t][i].term == t
  }

  ghost predicate Extends<K, V>(a: map<K, V>, b: map<K, V>)
  {
    forall k :: k in a ==> k in b && b[k] == a[k]
  }

  ghost predicate Onward(p: Past, p': Past)
  {
    && Extends(p.grants, p'.grants) && Extends(p.leaders, p'.leaders) && Extends(p.cands, p'.cands)
    && Extends(p.rolls, p'.rolls) && Extends(p.electors, p'.electors)
    && LogsGrow(p.tl, p'.tl) && p.held <= p'.held && p'.trust == p.trust
  }

  lemma HasGrows(log: seq<LogEntry>, tl: G.TermLogs, tl': G.TermLogs, t: nat, n: nat)
    requires LogsGrow(tl, tl') && t in tl && n <= |tl[t]|
    ensures Has(log, tl, t, n) <==> Has(log, tl', t, n)
  {
    assert tl'[t][..n] == tl[t][..n];
  }

  /** What a leader lacked when it won it never has: it only appends entries of its own term. */
  lemma LacksGrows(tl: G.TermLogs, tl': G.TermLogs, t: nat, n: nat, u: nat)
    requires LogsGrow(tl, tl') && TermLogsGood(tl) && t in tl && n <= |tl[t]| && Lacks(tl, t, n, u)
    ensures Lacks(tl', t, n, u)
  {
    assert tl'[t][..n] == tl[t][..n];
    assert TermsUpTo(tl[t], t);
    if tl[t][..n] <= tl'[u] {
      PrefixBefore(tl[t][..n], tl[u], tl'[u], t);
    }
  }

  /** A prefix without late terms ends before they begin. */
  lemma PrefixBefore(pre: seq<LogEntry>, log: seq<LogEntry>, log': seq<LogEntry>, t: nat)
    requires log <= log' && pre <= log' && TermsUpTo(pre, t)
    requires forall i :: |log| <= i < |log'| ==> log'[i].term > t
    ensures pre <= log
  {
    var k: nat := |log|;
    if |pre| > k {
      PrefixAt(pre, log', k);
      assert false;
    }
  }

  lemma PrefixAt(pre: seq<LogEntry>, log: seq<LogEntry>, i: nat)
    requires pre <= log && i < |pre|
    ensures pre[i] == log[i]
  {
  }

  lemma KeptGrows(tl: G.TermLogs, tl': G.TermLogs, log: seq<LogEntry>, t: nat, n: nat, end: nat, end': nat)
    requires LogsGrow(tl, tl') && TermLogsGood(tl) && t in tl && n <= |tl[t]| && Kept(tl, log, t, n, end) && end <= end'
    ensures Kept(tl', log, t, n, end')
  {
    if Has(log, tl, t, n) {
      HasGrows(log, tl, tl', t, n);
    } else {
      var u: nat :| u < end && Lacks(tl, t, n, u);
      LacksGrows(tl, tl', t, n, u);
    }
  }

  lemma HoldersGrow(ms: set<NodeId>, p: Past, p': Past, t: nat, n: nat)
    requires p.held <= p'.held
    ensures |HoldersOf(ms, p, t, n)| <= |HoldersOf(ms, p', t, n)|
  {
    SubsetSize(HoldersOf(ms, p, t, n), HoldersOf(ms, p', t, n));
  }

  lemma CommittedGrows(ms: set<NodeId>, p: Past, p': Past, t: nat, n: nat)
    requires Onward(p, p') && Committed(ms, p, t, n)
    ensures Committed(ms, p', t, n)
  {
    HoldersGrow(ms, p, p', t, n);
  }

  lemma HeldToGood(p: Past, q: NodeId, t: nat, n: nat)
    requires HeldGood(p) && HeldTo(p.held, q, t, n)
    ensures t in p.tl && n <= |p.tl[t]|
  {
  }

  // ---------------------------------------------------------------- events

  /** The node has voted in no term after this one. */
  ghost predicate NoLaterVote(p: Past, id: NodeId, term: nat)
  {
    forall u :: (id, u) in p.grants ==> u <= term
  }

  /** A vote as it was cast, when what the node held since belongs to later terms. */
  lemma RollGrows(p: Past, p': Past, q: NodeId, u: nat)
    requires TermLogsGood(p.tl) && HeldGood(p) && Onward(p, p') && RollGood(p, q, u)
    requires forall t, k :: (q, t, k) in p'.held && t < u ==> (q, t, k) in p.held
    ensures RollGood(p', q, u)
  {
    hide Kept, TermLogsGood, HeldGood, AtLeast;
    CoherentOnward(p.tl, p'.tl, p.rolls[(q, u)]);
    forall t: nat, n: nat | t < u && HeldTo(p'.held, q, t, n)
      ensures Kept(p'.tl, p'.rolls[(q, u)], t, n, u)
    {
      assert HeldTo(p.held, q, t, n);
      HeldToGood(p, q, t, n);
      KeptGrows(p.tl, p'.tl, p.rolls[(q, u)], t, n, u, u);
    }
  }

  lemma CoherentOnward(tl: G.TermLogs, tl': G.TermLogs, log: seq<LogEntry>)
    requires LogsGrow(tl, tl') && G.Coherent(tl, log)
    ensures G.Coherent(tl', log)
  {
    G.CoherentGrows(tl, tl', log);
  }

  ghost function Holding(p: Past, q: NodeId, t: nat, k: nat): Past
  {
    p.(held := p.held + {(q, t, k)})
  }

  lemma HoldingOnward(p: Past, q: NodeId, t: nat, k: nat)
    ensures Onward(p, Holding(p, q, t, k))
  {
  }

  /** A node holds more of the log of its current term's leader. */
  lemma HoldingGood(ms: set<NodeId>, p: Past, q: NodeId, t: nat, k: nat)
    requires PastGood(ms, p) && t in p.tl && k <= |p.tl[t]| && NoLaterVote(p, q, t)
    ensures PastGood(ms, Holding(p, q, t, k)) && Onward(p, Holding(p, q, t, k))
  {
    hide RollGood, TermLogsGood, Onward;
    var p' := Holding(p, q, t, k);
    HoldingOnward(p, q, t, k);
    forall r, u | (r, u) in p'.rolls
      ensures RollGood(p', r, u)
    {
      assert RollGood(p, r, u);
      assert (r, u) in p.grants by { RollGranted(p, r, u); }
      RollGrows(p, p', r, u);
    }
  }

  lemma RollGranted(p: Past, q: NodeId, u: nat)
    requires RollGood(p, q, u)
    ensures (q, u) in p.grants && u > 0
  {
  }

  /** A vote is cast, and remembered with its log while nobody has won the term. */
  ghost function Voting(p: Past, q: NodeId, u: nat, c: NodeId, log: seq<LogEntry>): Past
  {
    p.(grants := p.grants[(q, u) := c], rolls := if u in p.leaders then p.rolls else p.rolls[(q, u) := log])
  }

  ghost function Standing(p: Past, id: NodeId, u: nat, log: seq<LogEntry>): Past
  {
    p.(cands := p.cands[(id, u) := log], grants := p.grants[(id, u) := id])
  }

  /** What makes a new vote good. */
  ghost predicate VoteGood(p: Past, q: NodeId, u: nat, log: seq<LogEntry>)
  {
    && u > 0 && G.Coherent(p.tl, log)
    && (u !in p.leaders ==> TermsUpTo(log, u - 1))
    && (u !in p.leaders ==> forall t: nat, n: nat :: t < u && HeldTo(p.held, q, t, n) ==> Kept(p.tl, log, t, n, u))
  }

  lemma NoRollYet(p: Past, q: NodeId, u: nat)
    requires RollsGood(p) && (q, u) !in p.grants
    ensures (q, u) !in p.rolls
  {
    if (q, u) in p.rolls {
      RollGranted(p, q, u);
    }
  }

  /** Candidates, grants and rolls may be added; nothing else changes. */
  ghost predicate Ballot(p: Past, p': Past)
  {
    && p'.tl == p.tl && p'.held == p.held && p'.leaders == p.leaders && p'.electors == p.electors
    && p'.trust == p.trust && Extends(p.grants, p'.grants) && Extends(p.cands, p'.cands) && Extends(p.rolls, p'.rolls)
  }

  lemma BallotOnward(p: Past, p': Past)
    requires Ballot(p, p')
    ensures Onward(p, p')
  {
  }

  lemma BallotElectors(ms: set<NodeId>, p: Past, p': Past)
    requires Ballot(p, p') && ElectorsGood(ms, p)
    ensures ElectorsGood(ms, p')
  {
  }

  /** The rolls so far stay good. */
  lemma BallotRolls(p: Past, p': Past, q: NodeId, u: nat)
    requires Ballot(p, p') && TermLogsGood(p.tl) && HeldGood(p) && RollsGood(p)
    requires forall r, v :: (r, v) in p'.rolls ==> (r, v) in p.rolls || (r, v) == (q, u)
    requires forall r, v :: (r, v) in p'.grants ==> (r, v) in p.grants || (r, v) == (q, u)
    requires u in p.leaders || RollGood(p', q, u)
    requires (q, u) in p'.rolls ==> (q, u) in p.rolls || u !in p.leaders
    ensures RollsGood(p')
  {
    hide RollGood, TermLogsGood, HeldGood, Onward;
    BallotOnward(p, p');
    forall r, v | (r, v) in p'.rolls
      ensures RollGood(p', r, v)
    {
      if (r, v) in p.rolls {
        RollGrows(p, p', r, v);
      }
    }
    assert u in p.leaders || (q, u) in p'.rolls by {
      if u !in p.leaders {
        RollIsRolled(p', q, u);
      }
    }
  }

  lemma RollIsRolled(p: Past, q: NodeId, u: nat)
    requires RollGood(p, q, u)
    ensures (q, u) in p.rolls
  {
  }

  lemma VotingGood(ms: set<NodeId>, p: Past, q: NodeId, u: nat, c: NodeId, log: seq<LogEntry>)
    requires PastGood(ms, p) && (q, u) !in p.grants && (c, u) in p.cands && AtLeast(p.cands[(c, u)], log)
    requires VoteGood(p, q, u, log)
    ensures PastGood(ms, Voting(p, q, u, c, log)) && Onward(p, Voting(p, q, u, c, log))
  {
    hide TermLogsGood, AtLeast, Kept, TermsUpTo, G.Coherent, RollsGood, ElectorsGood, HeldTo;
    var p' := Voting(p, q, u, c, log);
    NoRollYet(p, q, u);
    BallotOnward(p, p');
    BallotElectors(ms, p, p');
    BallotRolls(p, p', q, u);
  }

  /** A candidacy, with its vote for itself. */
  lemma StandingGood(ms: set<NodeId>, p: Past, id: NodeId, u: nat, log: seq<LogEntry>)
    requires PastGood(ms, p) && (id, u) !in p.grants && VoteGood(p, id, u, log) && TermsUpTo(log, u - 1)
    ensures var p' := Voting(Standing(p, id, u, log), id, u, id, log); PastGood(ms, p') && Onward(p, p')
  {
    hide TermLogsGood, AtLeast, Kept, TermsUpTo, G.Coherent, RollsGood, ElectorsGood, HeldTo;
    var p' := Voting(Standing(p, id, u, log), id, u, id, log);
    assert (id, u) !in p.cands;
    NoRollYet(p, id, u);
    SameAtLeast(log);
    BallotOnward(p, p');
    BallotElectors(ms, p, p');
    BallotRolls(p, p', id, u);
  }

  lemma SameAtLeast(log: seq<LogEntry>)
    ensures AtLeast(log, log)
  {
  }

  /** The candidate wins the term with its log and the votes it has by now. */
  ghost function Winning(ms: set<NodeId>, p: Past, id: NodeId, u: nat, log: seq<LogEntry>): Past
  {
    p.(leaders := p.leaders[u := id], tl := p.tl[u := log],
       electors := p.electors[u := E.Supporters(ms, p.grants, u, id)])
  }

  lemma WinningTermLogs(p: Past, u: nat, log: seq<LogEntry>)
    requires TermLogsGood(p.tl) && u !in p.tl && u > 0 && G.Coherent(p.tl, log) && TermsUpTo(log, u)
    ensures TermLogsGood(p.tl[u := log]) && LogsGrow(p.tl, p.tl[u := log])
  {
    var tl' := p.tl[u := log];
    assert LogsGrow(p.tl, tl');
    if log != [] {
      LogOfLastTerm(p.tl, log);
      assert SortedTerms(p.tl[LastTerm(log)]);
    }
    forall t | t in tl'
      ensures t > 0 && G.Coherent(tl', tl'[t]) && SortedTerms(tl'[t]) && TermsUpTo(tl'[t], t)
    {
      CoherentOnward(p.tl, tl', tl'[t]);
    }
  }

  lemma CandsGrow(p: Past, p': Past)
    requires CandsGood(p) && LogsGrow(p.tl, p'.tl) && p'.cands == p.cands && p'.grants == p.grants
    requires forall u :: u in p'.leaders ==>
      (p'.leaders[u], u) in p'.cands && u in p'.tl && Extended(p'.cands[(p'.leaders[u], u)], p'.tl[u], u)
    ensures CandsGood(p')
  {
    forall c, u | (c, u) in p'.cands
      ensures G.Coherent(p'.tl, p'.cands[(c, u)])
    {
      CoherentOnward(p.tl, p'.tl, p.cands[(c, u)]);
    }
  }

  lemma RollsGrow(p: Past, p': Past)
    requires TermLogsGood(p.tl) && HeldGood(p) && RollsGood(p) && Onward(p, p')
    requires p'.rolls == p.rolls && p'.grants == p.grants && p'.held == p.held
    ensures RollsGood(p')
  {
    hide RollGood, TermLogsGood, HeldGood;
    forall q, u | (q, u) in p'.rolls
      ensures RollGood(p', q, u)
    {
      assert RollGood(p, q, u);
      RollGrows(p, p', q, u);
    }
  }

  lemma WinningElectors(ms: set<NodeId>, p: Past, id: NodeId, u: nat, log: seq<LogEntry>)
    requires ElectorsGood(ms, p) && RollsGood(p) && u !in p.leaders
    requires |E.Supporters(ms, p.grants, u, id)| >= E.MajorityOf(ms)
    ensures ElectorsGood(ms, Winning(ms, p, id, u, log)) && u !in p.tl && u !in p.electors
  {
    hide RollsGood;
    assert u !in p.tl.Keys && u !in p.electors.Keys;
    var p' := Winning(ms, p, id, u, log);
    forall q | q in p'.electors[u]
      ensures (q, u) in p'.rolls
    {
      EarlyVote(p, q, u);
    }
  }

  lemma WinningGood(ms: set<NodeId>, p: Past, id: NodeId, u: nat, log: seq<LogEntry>)
    requires PastGood(ms, p) && u !in p.leaders && (id, u) in p.cands && p.cands[(id, u)] == log
    requires |E.Supporters(ms, p.grants, u, id)| >= E.MajorityOf(ms)
    ensures PastGood(ms, Winning(ms, p, id, u, log)) && Onward(p, Winning(ms, p, id, u, log))
  {
    hide TermLogsGood, RollsGood, ElectorsGood, G.Coherent;
    var p' := Winning(ms, p, id, u, log);
    WinningElectors(ms, p, id, u, log);
    assert TermsUpTo(log, u);
    WinningTermLogs(p, u, log);
    CandsGrow(p, p');
    RollsGrow(p, p');
  }

  lemma EarlyVote(p: Past, q: NodeId, u: nat)
    requires RollsGood(p) && (q, u) in p.grants && u !in p.leaders
    ensures (q, u) in p.rolls
  {
  }

  /** The leader appends to its term's log. */
  ghost function Growing(p: Past, t: nat, e: LogEntry): Past
    requires t in p.tl
  {
    p.(tl := p.tl[t := p.tl[t] + [e]])
  }

  lemma GrowingTermLogs(p: Past, t: nat, e: LogEntry)
    requires TermLogsGood(p.tl) && t in p.tl && e.term == t
    ensures TermLogsGood(p.tl[t := p.tl[t] + [e]]) && LogsGrow(p.tl, p.tl[t := p.tl[t] + [e]])
  {
    var log := p.tl[t] + [e];
    var tl' := p.tl[t := log];
    assert LogsGrow(p.tl, tl');
    forall u | u in tl'
      ensures G.Coherent(tl', tl'[u])
    {
      CoherentOnward(p.tl, tl', p.tl[u]);
      if u == t {
        CoherentAppended(tl', p.tl[t], e);
      }
    }
    assert SortedTerms(p.tl[t]) && TermsUpTo(p.tl[t], t);
  }

  lemma CoherentAppended(tl: G.TermLogs, log: seq<LogEntry>, e: LogEntry)
    requires G.Coherent(tl, log) && e.term in tl && tl[e.term] == log + [e]
    ensures G.Coherent(tl, log + [e])
  {
    forall i | 0 <= i < |log| + 1
      ensures G.PlacedByLeader(tl, log + [e], i)
    {
      if i < |log| {
        assert G.PlacedByLeader(tl, log, i);
        assert (log + [e])[..i + 1] == log[..i + 1];
      }
    }
  }

  lemma GrowingGood(ms: set<NodeId>, p: Past, t: nat, e: LogEntry)
    requires PastGood(ms, p) && t in p.tl && e.term == t
    ensures PastGood(ms, Growing(p, t, e)) && Onward(p, Growing(p, t, e))
  {
    hide TermLogsGood, RollsGood;
    var p' := Growing(p, t, e);
    GrowingTermLogs(p, t, e);
    CandsGrow(p, p');
    RollsGrow(p, p');
  }
}
