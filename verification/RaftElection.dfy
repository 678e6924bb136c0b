/**
 Election Safety: at most one node ever leads a term, although a candidate keeps its votes as a
 bare counter.

 The proof follows a run with a history of who voted for whom, which votes a candidate counted,
 and who led which term. Nothing in the protocol reads it.
 */
module RaftElection {
  import opened Storage
  import opened RaftModel
  import opened Quorums
  import L = LogModel

  datatype History = History(
    grants: Ballots,                          // (voter, term) -> candidate
    tally: map<(NodeId, nat), set<NodeId>>,   // (candidate, term) -> voters counted
    leaders: map<nat, NodeId>)                // term -> leader

  type Ballots = map<(NodeId, nat), NodeId>

  ghost predicate Granted(b: Ballots, voter: NodeId, term: nat, candidate: NodeId)
  {
    (voter, term) in b && b[(voter, term)] == candidate
  }

  ghost predicate Counted(h: History, candidate: NodeId, term: nat, voter: NodeId)
  {
    (candidate, term) in h.tally && voter in h.tally[(candidate, term)]
  }

  function MajorityOf(ms: set<NodeId>): nat
  {
    |ms| / 2 + 1
  }

  ghost function Supporters(ms: set<NodeId>, b: Ballots, term: nat, candidate: NodeId): set<NodeId>
  {
    set v | v in ms && Granted(b, v, term, candidate)
  }

  /** What elections see of a node, and the messages in flight. */
  datatype Elector = Elector(currentTerm: nat, votedFor: NodeId, role: Role, votes: nat)

  datatype Arena = Arena(nodes: map<NodeId, Elector>, net: multiset<Message>)

  function ElectorOf(n: Node): Elector
  {
    Elector(n.currentTerm, n.votedFor, n.role, n.votes)
  }

  function View(s: System): Arena
  {
    Arena(map id | id in s.nodes :: ElectorOf(s.nodes[id]), s.net)
  }

  // ---------------------------------------------------------------- the invariant

  /** A node's votedFor is its vote of this term, and it has cast none in later terms. */
  ghost predicate VotesRecorded(ms: set<NodeId>, s: Arena, h: History)
  {
    forall id :: id in ms ==> id in s.nodes && VoteRecorded(s.nodes[id], h, id)
  }

  ghost predicate VoteRecorded(n: Elector, h: History, id: NodeId)
  {
    && (if n.votedFor == NOBODY then (id, n.currentTerm) !in h.grants
        else Granted(h.grants, id, n.currentTerm, n.votedFor))
    && (forall t :: t > n.currentTerm ==> (id, t) !in h.grants)
  }

  /** Votes are cast by members, for members that have reached the term. */
  ghost predicate GrantsSane(ms: set<NodeId>, s: Arena, h: History)
  {
    forall v, t :: (v, t) in h.grants ==>
      v in ms && h.grants[(v, t)] in ms && h.grants[(v, t)] in s.nodes
      && t <= s.nodes[h.grants[(v, t)]].currentTerm
  }

  /** Requests of one candidacy to one peer. */
  predicate SameRequest(m: Message, m': Message)
  {
    m.VoteRequest? && m'.VoteRequest? && m.src == m'.src && m.dst == m'.dst && m.term == m'.term
  }

  /** The messages a vote travels in. */
  predicate CarriesVote(m: Message)
  {
    m.VoteRequest? || (m.VoteResponse? && m.voteGranted)
  }

  /** One undelivered request per peer and candidacy, and none once the peer has voted for it. */
  ghost predicate RequestsFresh(ms: set<NodeId>, s: Arena, h: History)
  {
    && (forall m :: m in s.net && m.VoteRequest? ==>
        && m.src in ms && m.dst in ms && m.src != m.dst && m.src in s.nodes
        && m.term <= s.nodes[m.src].currentTerm
        && s.net[m] == 1
        && !Granted(h.grants, m.dst, m.term, m.src))
    && (forall m, m' :: m in s.net && m' in s.net && SameRequest(m, m') ==> m == m')
  }

  /** A granted response is in flight at most once, backed by a vote, and not yet counted. */
  ghost predicate ResponsesFresh(ms: set<NodeId>, s: Arena, h: History)
  {
    forall m :: m in s.net && m.VoteResponse? && m.voteGranted ==>
      && Granted(h.grants, m.src, m.term, m.dst)
      && s.net[m] == 1
      && !Counted(h, m.dst, m.term, m.src)
  }

  /** The counter is the number of distinct voters counted. */
  ghost predicate TallyExact(ms: set<NodeId>, s: Arena, h: History)
  {
    && (forall k, v :: k in h.tally && v in h.tally[k] ==> Granted(h.grants, v, k.1, k.0))
    && (forall id :: id in ms && id in s.nodes && s.nodes[id].role == Candidate ==>
        && (id, s.nodes[id].currentTerm) in h.tally
        && s.nodes[id].votes == |h.tally[(id, s.nodes[id].currentTerm)]|)
  }

  ghost predicate LeadersElected(ms: set<NodeId>, s: Arena, h: History)
  {
    && (forall t :: t in h.leaders ==> |Supporters(ms, h.grants, t, h.leaders[t])| >= MajorityOf(ms))
    && LeadersKnown(ms, s, h.leaders)
  }

  ghost predicate LeadersKnown(ms: set<NodeId>, s: Arena, leaders: map<nat, NodeId>)
  {
    forall id :: id in ms && id in s.nodes && s.nodes[id].role == Leader ==>
      s.nodes[id].currentTerm in leaders && leaders[s.nodes[id].currentTerm] == id
  }

  ghost predicate Inv(ms: set<NodeId>, s: Arena, h: History)
  {
    && s.nodes.Keys == ms
    && VotesRecorded(ms, s, h)
    && GrantsSane(ms, s, h)
    && RequestsFresh(ms, s, h)
    && ResponsesFresh(ms, s, h)
    && TallyExact(ms, s, h)
    && LeadersElected(ms, s, h)
  }

  // ---------------------------------------------------------------- what steps do to votes

  /** Only node id changed. */
  ghost predicate OnlyNode(ms: set<NodeId>, s: Arena, s': Arena, id: NodeId)
  {
    && id in ms
    && s.nodes.Keys == ms && s'.nodes.Keys == ms
    && s'.nodes == s.nodes[id := s'.nodes[id]]
  }

  /** The step casts and counts no vote: the node keeps its vote, or enters a later term without one. */
  ghost predicate Quiet(ms: set<NodeId>, s: Arena, s': Arena, id: NodeId)
  {
    && OnlyNode(ms, s, s', id)
    && QuietNode(s.nodes[id], s'.nodes[id])
    && (forall m :: CarriesVote(m) ==> s'.net[m] <= s.net[m])
  }

  ghost predicate QuietNode(n: Elector, n': Elector)
  {
    || (n'.currentTerm > n.currentTerm && n'.votedFor == NOBODY && n'.role == Follower)
    || (n'.currentTerm == n.currentTerm && n'.votedFor == n.votedFor && n'.votes == n.votes
        && (n'.role == n.role || n'.role == Follower))
  }

  predicate Asks(m: Message, id: NodeId, members: set<NodeId>, term: nat, last: (nat, nat))
  {
    && m.VoteRequest? && m.src == id && m.dst in members && m.dst != id && m.term == term
    && m.lastLogIndex == last.0 && m.lastLogTerm == last.1
  }

  /** Node id stands for the next term, votes for itself and asks each peer once. */
  ghost predicate Stands(ms: set<NodeId>, s: Arena, s': Arena, id: NodeId, last: (nat, nat))
  {
    && OnlyNode(ms, s, s', id)
    && var n, n' := s.nodes[id], s'.nodes[id];
    && id != NOBODY
    && n'.currentTerm == n.currentTerm + 1 && n'.votedFor == id && n'.role == Candidate && n'.votes == 1
    && (forall m :: CarriesVote(m) ==>
        s'.net[m] == s.net[m] + if Asks(m, id, ms, n'.currentTerm, last) then 1 else 0)
  }

  /** The target of request m votes for its sender. */
  ghost predicate Votes(ms: set<NodeId>, s: Arena, s': Arena, m: Message)
  {
    && m.VoteRequest? && m in s.net
    && OnlyNode(ms, s, s', m.dst)
    && var n, n' := s.nodes[m.dst], s'.nodes[m.dst];
    && n'.currentTerm == m.term && n'.votedFor == m.src && n'.votes == n.votes
    && (if n.currentTerm == m.term then (n.votedFor == NOBODY || n.votedFor == m.src) && n'.role == n.role
        else n.currentTerm < m.term && n'.role == Follower)
    && (forall x :: CarriesVote(x) ==>
        s'.net[x] == s.net[x] - (if x == m then 1 else 0)
                     + if x == VoteResponse(m.dst, m.src, m.term, true) then 1 else 0)
  }

  /** The target of response m, a candidate, counts the vote and may win the term. */
  ghost predicate Counts(ms: set<NodeId>, s: Arena, s': Arena, m: Message)
  {
    && m.VoteResponse? && m.voteGranted && m in s.net
    && OnlyNode(ms, s, s', m.dst)
    && var n, n' := s.nodes[m.dst], s'.nodes[m.dst];
    && n.role == Candidate && m.term == n.currentTerm
    && n'.currentTerm == n.currentTerm && n'.votedFor == n.votedFor && n'.votes == n.votes + 1
    && n'.role == (if n'.votes >= MajorityOf(ms) then Leader else Candidate)
    && (forall x :: CarriesVote(x) ==> s'.net[x] == s.net[x] - if x == m then 1 else 0)
  }

  datatype Move =
    | QuietMove(id: NodeId)
    | StandMove(id: NodeId, last: (nat, nat))
    | VoteMove(m: Message)
    | CountMove(m: Message)

  ghost predicate Moves(ms: set<NodeId>, s: Arena, s': Arena, v: Move)
  {
    match v
    case QuietMove(id) => Quiet(ms, s, s', id)
    case StandMove(id, last) => Stands(ms, s, s', id, last)
    case VoteMove(m) => Votes(ms, s, s', m)
    case CountMove(m) => Counts(ms, s, s', m)
  }

  ghost function Record(s: Arena, s': Arena, h: History, v: Move): History
  {
    match v
    case QuietMove(_) => h
    case StandMove(id, _) =>
      var t := if id in s'.nodes then s'.nodes[id].currentTerm else 0;
      h.(grants := h.grants[(id, t) := id], tally := h.tally[(id, t) := {id}])
    case VoteMove(m) => h.(grants := h.grants[(m.dst, m.term) := m.src])
    case CountMove(m) =>
      var k := (m.dst, m.term);
      h.(tally := h.tally[k := (if k in h.tally then h.tally[k] else {}) + {m.src}],
         leaders := if m.dst in s'.nodes && s'.nodes[m.dst].role == Leader then h.leaders[m.term := m.dst]
                    else h.leaders)
  }

  /** Leadership, once recorded, is never rewritten. */
  ghost predicate KeepsLeaders(h: History, h': History)
  {
    forall t :: t in h.leaders ==> t in h'.leaders && h'.leaders[t] == h.leaders[t]
  }

  // ---------------------------------------------------------------- quiet moves

  lemma QuietKeepsVotes(ms: set<NodeId>, s: Arena, s': Arena, h: History, id: NodeId)
    requires Quiet(ms, s, s', id) && VotesRecorded(ms, s, h) && GrantsSane(ms, s, h)
    ensures VotesRecorded(ms, s', h) && GrantsSane(ms, s', h)
  {
  }

  lemma QuietKeepsMessages(ms: set<NodeId>, s: Arena, s': Arena, h: History, id: NodeId)
    requires Quiet(ms, s, s', id) && RequestsFresh(ms, s, h) && ResponsesFresh(ms, s, h)
    ensures RequestsFresh(ms, s', h) && ResponsesFresh(ms, s', h)
  {
    assert forall m :: m in s'.net && m.VoteRequest? ==> CarriesVote(m) && m in s.net;
  }

  lemma QuietKeepsCounts(ms: set<NodeId>, s: Arena, s': Arena, h: History, id: NodeId)
    requires Quiet(ms, s, s', id) && TallyExact(ms, s, h) && LeadersElected(ms, s, h)
    ensures TallyExact(ms, s', h) && LeadersElected(ms, s', h)
  {
  }

  // ---------------------------------------------------------------- candidacies

  lemma StandKeepsVotes(ms: set<NodeId>, s: Arena, s': Arena, h: History, id: NodeId, last: (nat, nat))
    requires Stands(ms, s, s', id, last) && VotesRecorded(ms, s, h)
    ensures VotesRecorded(ms, s', Record(s, s', h, StandMove(id, last)))
    ensures (id, s'.nodes[id].currentTerm) !in h.grants
  {
  }

  lemma StandKeepsGrants(ms: set<NodeId>, s: Arena, s': Arena, h: History, id: NodeId, last: (nat, nat))
    requires Stands(ms, s, s', id, last) && GrantsSane(ms, s, h)
    ensures GrantsSane(ms, s', Record(s, s', h, StandMove(id, last)))
  {
  }

  lemma StandKeepsMessages(ms: set<NodeId>, s: Arena, s': Arena, h: History, id: NodeId, last: (nat, nat))
    requires Stands(ms, s, s', id, last) && GrantsSane(ms, s, h)
    requires RequestsFresh(ms, s, h) && ResponsesFresh(ms, s, h)
    requires (id, s'.nodes[id].currentTerm) !in h.grants
    ensures var h' := Record(s, s', h, StandMove(id, last)); RequestsFresh(ms, s', h') && ResponsesFresh(ms, s', h')
  {
    var h' := Record(s, s', h, StandMove(id, last));
    var t := s'.nodes[id].currentTerm;
    forall m | m in s'.net && m.VoteRequest?
      ensures m.src in ms && m.dst in ms && m.src != m.dst && m.term <= s'.nodes[m.src].currentTerm
      ensures s'.net[m] == 1 && !Granted(h'.grants, m.dst, m.term, m.src)
    {
      assert CarriesVote(m);
    }
    forall m, m' | m in s'.net && m' in s'.net && SameRequest(m, m')
      ensures m == m'
    {
      assert CarriesVote(m) && CarriesVote(m');
    }
    forall m | m in s'.net && m.VoteResponse? && m.voteGranted
      ensures Granted(h'.grants, m.src, m.term, m.dst) && s'.net[m] == 1 && !Counted(h', m.dst, m.term, m.src)
    {
      assert CarriesVote(m) && m in s.net;
    }
  }

  lemma StandKeepsTally(ms: set<NodeId>, s: Arena, s': Arena, h: History, id: NodeId, last: (nat, nat))
    requires Stands(ms, s, s', id, last) && TallyExact(ms, s, h)
    requires (id, s'.nodes[id].currentTerm) !in h.grants
    ensures TallyExact(ms, s', Record(s, s', h, StandMove(id, last)))
  {
  }

  lemma StandKeepsLeaders(ms: set<NodeId>, s: Arena, s': Arena, h: History, id: NodeId, last: (nat, nat))
    requires Stands(ms, s, s', id, last) && LeadersElected(ms, s, h)
    requires (id, s'.nodes[id].currentTerm) !in h.grants
    ensures LeadersElected(ms, s', Record(s, s', h, StandMove(id, last)))
  {
    var h' := Record(s, s', h, StandMove(id, last));
    forall t | t in h.leaders
      ensures |Supporters(ms, h'.grants, t, h.leaders[t])| >= MajorityOf(ms)
    {
      SupportersGrow(ms, h.grants, h'.grants, t, h.leaders[t]);
    }
  }

  lemma SupportersGrow(ms: set<NodeId>, b: Ballots, b': Ballots, term: nat, candidate: NodeId)
    requires forall k :: k in b ==> k in b' && b'[k] == b[k]
    ensures |Supporters(ms, b, term, candidate)| <= |Supporters(ms, b', term, candidate)|
  {
    SubsetSize(Supporters(ms, b, term, candidate), Supporters(ms, b', term, candidate));
  }

  // ---------------------------------------------------------------- votes

  /** Had the node voted for m.src in this term already, m would not be in flight. */
  lemma VoteIsNew(ms: set<NodeId>, s: Arena, s': Arena, h: History, m: Message)
    requires Votes(ms, s, s', m) && VotesRecorded(ms, s, h) && RequestsFresh(ms, s, h)
    ensures (m.dst, m.term) !in h.grants
    ensures m.src in ms && m.term <= s.nodes[m.src].currentTerm && m.src != m.dst
  {
    assert VoteRecorded(s.nodes[m.dst], h, m.dst);
  }

  lemma VoteKeepsVotes(ms: set<NodeId>, s: Arena, s': Arena, h: History, m: Message)
    requires Votes(ms, s, s', m) && VotesRecorded(ms, s, h)
    requires (m.dst, m.term) !in h.grants && m.src != NOBODY
    ensures VotesRecorded(ms, s', Record(s, s', h, VoteMove(m)))
  {
  }

  lemma VoteKeepsGrants(ms: set<NodeId>, s: Arena, s': Arena, h: History, m: Message)
    requires Votes(ms, s, s', m) && GrantsSane(ms, s, h)
    requires m.src in ms && m.term <= s.nodes[m.src].currentTerm && m.src != m.dst
    ensures GrantsSane(ms, s', Record(s, s', h, VoteMove(m)))
  {
  }

  lemma VoteKeepsMessages(ms: set<NodeId>, s: Arena, s': Arena, h: History, m: Message)
    requires Votes(ms, s, s', m) && TallyExact(ms, s, h)
    requires RequestsFresh(ms, s, h) && ResponsesFresh(ms, s, h) && (m.dst, m.term) !in h.grants
    ensures var h' := Record(s, s', h, VoteMove(m)); RequestsFresh(ms, s', h') && ResponsesFresh(ms, s', h')
  {
    var h' := Record(s, s', h, VoteMove(m));
    var reply := VoteResponse(m.dst, m.src, m.term, true);
    assert reply !in s.net;
    forall x | x in s'.net && x.VoteRequest?
      ensures x.src in ms && x.dst in ms && x.src != x.dst && x.term <= s'.nodes[x.src].currentTerm
      ensures x in s.net && s'.net[x] == 1 && !Granted(h'.grants, x.dst, x.term, x.src)
    {
      assert CarriesVote(x);
      assert !SameRequest(x, m);
    }
    forall x | x in s'.net && x.VoteResponse? && x.voteGranted
      ensures Granted(h'.grants, x.src, x.term, x.dst) && s'.net[x] == 1 && !Counted(h', x.dst, x.term, x.src)
    {
      assert CarriesVote(x);
    }
  }

  lemma VoteKeepsTally(ms: set<NodeId>, s: Arena, s': Arena, h: History, m: Message)
    requires Votes(ms, s, s', m) && TallyExact(ms, s, h) && (m.dst, m.term) !in h.grants
    ensures TallyExact(ms, s', Record(s, s', h, VoteMove(m)))
  {
  }

  lemma VoteKeepsLeaders(ms: set<NodeId>, s: Arena, s': Arena, h: History, m: Message)
    requires Votes(ms, s, s', m) && LeadersElected(ms, s, h) && (m.dst, m.term) !in h.grants
    ensures LeadersElected(ms, s', Record(s, s', h, VoteMove(m)))
  {
    var h' := Record(s, s', h, VoteMove(m));
    forall t | t in h.leaders
      ensures |Supporters(ms, h'.grants, t, h.leaders[t])| >= MajorityOf(ms)
    {
      SupportersGrow(ms, h.grants, h'.grants, t, h.leaders[t]);
    }
  }

  // ---------------------------------------------------------------- counted votes

  lemma CountKeepsVotes(ms: set<NodeId>, s: Arena, s': Arena, h: History, m: Message)
    requires Counts(ms, s, s', m) && VotesRecorded(ms, s, h)
    ensures VotesRecorded(ms, s', Record(s, s', h, CountMove(m)))
  {
  }

  lemma CountKeepsGrants(ms: set<NodeId>, s: Arena, s': Arena, h: History, m: Message)
    requires Counts(ms, s, s', m) && GrantsSane(ms, s, h)
    ensures GrantsSane(ms, s', Record(s, s', h, CountMove(m)))
  {
  }

  lemma CountKeepsMessages(ms: set<NodeId>, s: Arena, s': Arena, h: History, m: Message)
    requires Counts(ms, s, s', m) && RequestsFresh(ms, s, h) && ResponsesFresh(ms, s, h)
    ensures var h' := Record(s, s', h, CountMove(m)); RequestsFresh(ms, s', h') && ResponsesFresh(ms, s', h')
  {
    var h' := Record(s, s', h, CountMove(m));
    forall x | x in s'.net && CarriesVote(x)
      ensures x in s.net && x != m && s'.net[x] == 1
    {
    }
    forall x | x in s'.net && x.VoteResponse? && x.voteGranted
      ensures Granted(h'.grants, x.src, x.term, x.dst) && s'.net[x] == 1 && !Counted(h', x.dst, x.term, x.src)
    {
      assert CarriesVote(x);
    }
    assert forall x :: x in s'.net && x.VoteRequest? ==> CarriesVote(x);
  }

  lemma CountKeepsTally(ms: set<NodeId>, s: Arena, s': Arena, h: History, m: Message)
    requires Counts(ms, s, s', m) && TallyExact(ms, s, h) && ResponsesFresh(ms, s, h)
    ensures TallyExact(ms, s', Record(s, s', h, CountMove(m)))
    ensures |Record(s, s', h, CountMove(m)).tally[(m.dst, m.term)]| == s'.nodes[m.dst].votes
  {
  }

  lemma CountedSupport(ms: set<NodeId>, s: Arena, h: History, id: NodeId, term: nat)
    requires TallyExact(ms, s, h) && GrantsSane(ms, s, h) && (id, term) in h.tally
    ensures |h.tally[(id, term)]| <= |Supporters(ms, h.grants, term, id)|
  {
    var counted := h.tally[(id, term)];
    forall v | v in counted
      ensures v in Supporters(ms, h.grants, term, id)
    {
      assert Granted(h.grants, v, (id, term).1, (id, term).0);
    }
    SubsetSize(counted, Supporters(ms, h.grants, term, id));
  }

  lemma CountKeepsLeaders(ms: set<NodeId>, s: Arena, s': Arena, h: History, m: Message)
    requires Counts(ms, s, s', m) && LeadersElected(ms, s, h)
    requires s'.nodes[m.dst].votes <= |Supporters(ms, h.grants, m.term, m.dst)|
    ensures LeadersElected(ms, s', Record(s, s', h, CountMove(m))) && KeepsLeaders(h, Record(s, s', h, CountMove(m)))
  {
    if s'.nodes[m.dst].role == Leader && m.term in h.leaders {
      SameLeader(ms, h.grants, m.term, m.dst, h.leaders[m.term]);
    }
  }

  /** Two majorities of one term share a voter, and a voter votes once. */
  lemma SameLeader(ms: set<NodeId>, ballots: Ballots, term: nat, a: NodeId, b: NodeId)
    requires |Supporters(ms, ballots, term, a)| >= MajorityOf(ms)
    requires |Supporters(ms, ballots, term, b)| >= MajorityOf(ms)
    ensures a == b
  {
    var v := CommonMember(ms, Supporters(ms, ballots, term, a), Supporters(ms, ballots, term, b));
  }

  // ---------------------------------------------------------------- every move keeps the invariant

  lemma MoveKeepsInv(ms: set<NodeId>, s: Arena, s': Arena, h: History, v: Move)
    requires NOBODY !in ms && Inv(ms, s, h) && Moves(ms, s, s', v)
    ensures Inv(ms, s', Record(s, s', h, v)) && KeepsLeaders(h, Record(s, s', h, v))
  {
    match v {
      case QuietMove(id) =>
        QuietKeepsVotes(ms, s, s', h, id);
        QuietKeepsMessages(ms, s, s', h, id);
        QuietKeepsCounts(ms, s, s', h, id);
      case StandMove(id, last) =>
        StandKeepsVotes(ms, s, s', h, id, last);
        StandKeepsGrants(ms, s, s', h, id, last);
        StandKeepsMessages(ms, s, s', h, id, last);
        StandKeepsTally(ms, s, s', h, id, last);
        StandKeepsLeaders(ms, s, s', h, id, last);
      case VoteMove(m) =>
        VoteIsNew(ms, s, s', h, m);
        VoteKeepsVotes(ms, s, s', h, m);
        VoteKeepsGrants(ms, s, s', h, m);
        VoteKeepsMessages(ms, s, s', h, m);
        VoteKeepsTally(ms, s, s', h, m);
        VoteKeepsLeaders(ms, s, s', h, m);
      case CountMove(m) =>
        CountKeepsVotes(ms, s, s', h, m);
        CountKeepsGrants(ms, s, s', h, m);
        CountKeepsMessages(ms, s, s', h, m);
        CountKeepsTally(ms, s, s', h, m);
        CountedSupport(ms, s', Record(s, s', h, v), m.dst, m.term);
        CountKeepsLeaders(ms, s, s', h, m);
    }
  }

  // ---------------------------------------------------------------- every step is a move

  lemma PeerIsOther(c: Cluster, id: NodeId, p: NodeId)
    requires id in c.members && p in c.peers[id]
    ensures p in c.members && p != id
  {
    assert c.PeersOf(id, c.peers[id]);
    assert (set q | q in c.peers[id]) == c.members - {id};
    assert p in c.members - {id};
  }

  lemma OtherIsPeer(c: Cluster, id: NodeId, p: NodeId)
    requires id in c.members && p in c.members && p != id
    ensures p in c.peers[id]
  {
    assert c.PeersOf(id, c.peers[id]);
    assert (set q | q in c.peers[id]) == c.members - {id};
    assert p in c.members - {id};
    assert p in (set q | q in c.peers[id]);
  }

  lemma NoVoteMessages(out: seq<Message>, net: multiset<Message>)
    requires forall i :: 0 <= i < |out| ==> !CarriesVote(out[i])
    ensures forall m :: CarriesVote(m) ==> (net + multiset(out))[m] == net[m]
  {
  }

  lemma {:induction false} DistinctCount<T>(s: seq<T>, x: T)
    requires forall i, j :: 0 <= i < j < |s| ==> s[i] != s[j]
    ensures multiset(s)[x] <= 1
  {
    if s != [] {
      var init := s[..|s| - 1];
      assert s == init + [s[|s| - 1]];
      DistinctCount(init, x);
      if x == s[|s| - 1] {
        assert x !in init;
      }
    }
  }

  lemma RequestsCount(c: Cluster, id: NodeId, term: nat, last: (nat, nat), m: Message)
    requires id in c.members
    ensures multiset(Requests(id, c.peers[id], term, last))[m] == if Asks(m, id, c.members, term, last) then 1 else 0
  {
    var peers := c.peers[id];
    assert c.PeersOf(id, peers);
    var out := Requests(id, peers, term, last);
    assert m in multiset(out) <==> m in out;
    if m in out {
      PeerIsOther(c, id, m.dst);
    }
    if Asks(m, id, c.members, term, last) {
      OtherIsPeer(c, id, m.dst);
      var i :| 0 <= i < |peers| && peers[i] == m.dst;
      assert out[i] == m;
    }
    DistinctCount(out, m);
  }

  lemma {:induction false} DistinctSize<T>(s: seq<T>)
    requires forall i, j :: 0 <= i < j < |s| ==> s[i] != s[j]
    ensures |set x | x in s| == |s|
  {
    if s != [] {
      var init, last := s[..|s| - 1], s[|s| - 1];
      DistinctSize(init);
      assert (set x | x in s) == (set x | x in init) + {last};
      assert last !in init;
    }
  }

  /** A node's majority, computed from its peer list, is the cluster's. */
  lemma MajorityAgrees(c: Cluster, id: NodeId)
    requires id in c.members
    ensures Majority(c.peers[id]) == MajorityOf(c.members)
  {
    assert c.PeersOf(id, c.peers[id]);
    DistinctSize(c.peers[id]);
  }

  lemma ViewPut(s: System, id: NodeId, e: Effect, net: multiset<Message>)
    ensures View(Put(s, id, e, net)) == Arena(View(s).nodes[id := ElectorOf(e.node)], net + multiset(e.out))
  {
  }

  lemma QuietEffect(c: Cluster, s: System, id: NodeId, e: Effect, net: multiset<Message>)
    requires id in c.members && s.nodes.Keys == c.members && net <= s.net
    requires QuietNode(ElectorOf(s.nodes[id]), ElectorOf(e.node))
    requires forall i :: 0 <= i < |e.out| ==> !CarriesVote(e.out[i])
    ensures Quiet(c.members, View(s), View(Put(s, id, e, net)), id)
  {
    ViewPut(s, id, e, net);
    NoVoteMessages(e.out, net);
  }

  lemma ElectIsMove(c: Cluster, s: System, id: NodeId) returns (v: Move)
    requires s.nodes.Keys == c.members && id in c.members
    ensures Moves(c.members, View(s), View(Put(s, id, Elect(id, c.peers[id], s.nodes[id]), s.net)), v)
    ensures v == if s.nodes[id].role == Leader then QuietMove(id) else StandMove(id, L.LastIndexTerm(s.nodes[id].log))
  {
    var n := s.nodes[id];
    ViewPut(s, id, Elect(id, c.peers[id], n), s.net);
    if n.role == Leader {
      v := QuietMove(id);
      QuietEffect(c, s, id, Elect(id, c.peers[id], n), s.net);
    } else {
      var last := L.LastIndexTerm(n.log);
      v := StandMove(id, last);
      forall m | CarriesVote(m)
        ensures multiset(Requests(id, c.peers[id], n.currentTerm + 1, last))[m]
                == if Asks(m, id, c.members, n.currentTerm + 1, last) then 1 else 0
      {
        RequestsCount(c, id, n.currentTerm + 1, last, m);
      }
    }
  }

  /** The request gets the vote of its target. */
  predicate GrantsVote(n: Node, m: Message)
    requires m.VoteRequest?
  {
    HandleVoteRequest(m.dst, n, m).out[0].voteGranted
  }

  lemma RequestIsMove(c: Cluster, s: System, m: Message) returns (v: Move)
    requires s.nodes.Keys == c.members && m.dst in c.members && m in s.net && m.VoteRequest?
    ensures Moves(c.members, View(s),
      View(Put(s, m.dst, HandleVoteRequest(m.dst, s.nodes[m.dst], m), s.net - multiset{m})), v)
    ensures v == if GrantsVote(s.nodes[m.dst], m) then VoteMove(m) else QuietMove(m.dst)
  {
    var e := HandleVoteRequest(m.dst, s.nodes[m.dst], m);
    ViewPut(s, m.dst, e, s.net - multiset{m});
    if e.out[0].voteGranted {
      v := VoteMove(m);
      assert e.out == [VoteResponse(m.dst, m.src, m.term, true)];
    } else {
      v := QuietMove(m.dst);
      QuietEffect(c, s, m.dst, e, s.net - multiset{m});
    }
  }

  /** The response is a vote its target, still a candidate of that term, will count. */
  predicate IsCounted(n: Node, m: Message)
  {
    m.VoteResponse? && m.voteGranted && m.term == n.currentTerm && n.role == Candidate
  }

  predicate CountsVote(s: System, step: Step)
  {
    step.DeliverStep? && step.m.dst in s.nodes && IsCounted(s.nodes[step.m.dst], step.m)
  }

  lemma ResponseIsMove(c: Cluster, s: System, m: Message) returns (v: Move)
    requires s.nodes.Keys == c.members && m.dst in c.members && m in s.net && m.VoteResponse?
    ensures Moves(c.members, View(s),
      View(Put(s, m.dst, HandleVoteResponse(m.dst, c.peers[m.dst], s.nodes[m.dst], m), s.net - multiset{m})), v)
    ensures v == if IsCounted(s.nodes[m.dst], m) then CountMove(m) else QuietMove(m.dst)
  {
    var n := s.nodes[m.dst];
    MajorityAgrees(c, m.dst);
    if IsCounted(n, m) {
      ViewPut(s, m.dst, HandleVoteResponse(m.dst, c.peers[m.dst], n, m), s.net - multiset{m});
      v := CountMove(m);
    } else {
      v := QuietMove(m.dst);
      QuietEffect(c, s, m.dst, HandleVoteResponse(m.dst, c.peers[m.dst], n, m), s.net - multiset{m});
    }
  }

  /** Steps other than candidacies and vote messages touch no vote. */
  lemma OtherIsQuiet(c: Cluster, s: System, step: Step)
    requires Enabled(c, s, step) && !step.DropStep? && !step.ElectStep?
    requires step.DeliverStep? ==> !step.m.VoteRequest? && !step.m.VoteResponse?
    ensures var e := Outcome(c, s, step);
      QuietNode(ElectorOf(s.nodes[Actor(step)]), ElectorOf(e.node)) && forall i :: 0 <= i < |e.out| ==>
        !CarriesVote(e.out[i])
  {
  }

  lemma DropIsMove(c: Cluster, s: System, m: Message) returns (v: Move)
    requires s.nodes.Keys == c.members
    ensures Moves(c.members, View(s), View(s.(net := s.net - multiset{m})), v) && v.QuietMove?
  {
    var id :| id in c.members;
    v := QuietMove(id);
    assert View(s).nodes == View(s).nodes[id := View(s).nodes[id]];
  }

  /** Candidacies, granted votes and counted votes are what moves the election on. */
  predicate IsMoveOf(s: System, step: Step, v: Move)
  {
    if step.ElectStep? && step.id in s.nodes && s.nodes[step.id].role != Leader then
      v == StandMove(step.id, L.LastIndexTerm(s.nodes[step.id].log))
    else if step.DeliverStep? && step.m.dst in s.nodes && step.m.VoteRequest? && GrantsVote(s.nodes[step.m.dst], step.m)
    then v == VoteMove(step.m)
    else if CountsVote(s, step) then v == CountMove(step.m)
    else v.QuietMove?
  }

  lemma StepIsMove(c: Cluster, s: System, step: Step) returns (v: Move)
    requires Enabled(c, s, step)
    ensures Moves(c.members, View(s), View(Take(c, s, step)), v)
    ensures IsMoveOf(s, step, v)
  {
    hide View, QuietNode, Elect, HandleVoteRequest, HandleVoteResponse, GrantsVote;
    if step.ElectStep? {
      v := ElectIsMove(c, s, step.id);
    } else if step.DropStep? {
      v := DropIsMove(c, s, step.m);
    } else if step.DeliverStep? && step.m.VoteRequest? {
      v := RequestIsMove(c, s, step.m);
    } else if step.DeliverStep? && step.m.VoteResponse? {
      v := ResponseIsMove(c, s, step.m);
    } else {
      v := QuietMove(Actor(step));
      OtherIsQuiet(c, s, step);
      QuietEffect(c, s, Actor(step), Outcome(c, s, step), Consumed(s.net, step));
    }
  }

  // ---------------------------------------------------------------- runs

  ghost predicate Leads(s: System, id: NodeId, term: nat)
  {
    id in s.nodes && s.nodes[id].role == Leader && s.nodes[id].currentTerm == term
  }

  /** Every step is a move that keeps the invariant. */
  lemma StepKeepsInv(c: Cluster, s: System, step: Step, s': System, h: History) returns (v: Move)
    requires Inv(c.members, View(s), h) && Next(c, s, step, s')
    ensures Moves(c.members, View(s), View(s'), v)
    ensures Inv(c.members, View(s'), Record(View(s), View(s'), h, v))
      && KeepsLeaders(h, Record(View(s), View(s'), h, v))
    ensures s'.nodes.Keys == c.members && LeadersKnown(c.members, View(s'), Record(View(s), View(s'), h, v).leaders)
    ensures IsMoveOf(s, step, v)
  {
    v := StepIsMove(c, s, step);
    assert s'.nodes.Keys == View(s').nodes.Keys;
    MoveKeepsInv(c.members, View(s), View(s'), h, v);
  }

  /** Only a counted vote that completes a majority makes a leader. */
  lemma StepLeaders(c: Cluster, s: System, step: Step, s': System, h: History, v: Move)
    requires Next(c, s, step, s') && IsMoveOf(s, step, v)
    ensures Record(View(s), View(s'), h, v).leaders ==
      if CountsVote(s, step) && Outcome(c, s, step).node.role == Leader then h.leaders[step.m.term := step.m.dst]
        else h.leaders
  {
  }

  /** The history explains the last state of the run, and knows the leader of every state before. */
  ghost predicate Explains(c: Cluster, tr: seq<System>, h: History)
  {
    && tr != []
    && Inv(c.members, View(tr[|tr| - 1]), h)
    && Chronicle(h.leaders, tr)
  }

  ghost predicate Chronicle(leaders: map<nat, NodeId>, tr: seq<System>)
  {
    forall i, id, t :: 0 <= i < |tr| && Leads(tr[i], id, t) ==> t in leaders && leaders[t] == id
  }

  ghost predicate Explained(c: Cluster, tr: seq<System>)
  {
    exists h :: Explains(c, tr, h)
  }

  lemma InitExplained(c: Cluster)
    ensures Explained(c, [Init(c)])
  {
    assert Explains(c, [Init(c)], History(map[], map[], map[]));
  }

  lemma ChronicleExtends(c: Cluster, h: History, h': History, tr: seq<System>, s': System)
    requires Chronicle(h.leaders, tr) && KeepsLeaders(h, h')
    requires s'.nodes.Keys == c.members && LeadersKnown(c.members, View(s'), h'.leaders)
    ensures Chronicle(h'.leaders, tr + [s'])
  {
  }

  lemma StepExplained(c: Cluster, tr: seq<System>, step: Step, s': System)
    requires Explained(c, tr) && Next(c, tr[|tr| - 1], step, s')
    ensures Explained(c, tr + [s'])
  {
    hide Inv, Next, Moves, Record;
    var h :| Explains(c, tr, h);
    var s := tr[|tr| - 1];
    var v := StepKeepsInv(c, s, step, s', h);
    var h' := Record(View(s), View(s'), h, v);
    ChronicleExtends(c, h, h', tr, s');
    assert Explains(c, tr + [s'], h');
  }

  lemma {:induction false} RunExplained(c: Cluster, tr: seq<System>, steps: seq<Step>)
    requires IsRun(c, tr, steps)
    ensures Explained(c, tr)
    decreases |steps|
  {
    hide Explained, Next;
    RunLast(c, tr, steps);
    if steps == [] {
      InitExplained(c);
    } else {
      var k := |steps|;
      RunExplained(c, tr[..k], steps[..k - 1]);
      StepExplained(c, tr[..k], steps[k - 1], tr[k]);
      assert tr == tr[..k] + [tr[k]];
    }
  }

  /** In every run no two nodes ever lead the same term, at the same time or at different times. */
  lemma ElectionSafety(c: Cluster, tr: seq<System>, steps: seq<Step>, i: nat, j: nat, a: NodeId, b: NodeId, term: nat)
    requires IsRun(c, tr, steps) && i < |tr| && j < |tr|
    requires Leads(tr[i], a, term) && Leads(tr[j], b, term)
    ensures a == b
  {
    RunExplained(c, tr, steps);
    var h :| Explains(c, tr, h);
  }
}
