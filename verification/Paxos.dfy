/**
 Single-decree Paxos (internal/paxos/paxos.go), with any number of proposers whose Prepare and
 Accept calls interleave call by call and may be lost on the way out or on the way back.

 Proposal numbers are not assumed distinct: two attempts may mint the same number.
 */
module PaxosModel {
  import opened Storage

  /** An interface{} value; `None` is nil. */
  type Choice = Option<string>

  datatype Acceptor = Acceptor(promisedN: nat, acceptedN: nat, acceptedV: Choice)

  const NEW_ACCEPTOR := Acceptor(0, 0, None)

  /** The acceptor after Prepare(n); it promised iff n > promisedN, and reports what it had accepted. */
  function Prepared(a: Acceptor, n: nat): Acceptor
  {
    if n > a.promisedN then a.(promisedN := n) else a
  }

  /** The acceptor after Accept(n, v); it accepted iff n >= promisedN. */
  function Accepted(a: Acceptor, n: nat, v: Choice): Acceptor
  {
    if n >= a.promisedN then Acceptor(n, n, v) else a
  }

  function Majority(n: nat): nat
  {
    n / 2 + 1
  }

  // ---------------------------------------------------------------- proposers

  datatype Phase = Preparing | Accepting | Done(ok: bool)

  /** The local variables of one Propose call; `next` is the acceptor its current loop has reached. */
  datatype Attempt = Attempt(
    n: nat, phase: Phase, next: nat, promises: nat, highest: nat, chosenV: Choice, accepts: nat)

  function NewAttempt(n: nat, v: Choice): Attempt
  {
    Attempt(n, Preparing, 0, 0, 0, v, 0)
  }

  /** Phase 1 hears that acceptor `a`, as it was before the call, promised. */
  function Hear(p: Attempt, a: Acceptor): Attempt
  {
    var p1 := p.(promises := p.promises + 1);
    if a.acceptedV != None && a.acceptedN > p.highest then p1.(highest := a.acceptedN, chosenV := a.acceptedV) else p1
  }

  datatype System = System(acceptors: seq<Acceptor>, attempts: seq<Attempt>)

  datatype Fate = Delivered | RequestLost | ReplyLost

  datatype Step =
    | Start(n: nat, v: Choice)
    | PrepareCall(i: nat, fate: Fate)
    | EndPrepare(i: nat)
    | AcceptCall(i: nat, fate: Fate)
    | EndAccept(i: nat)

  function Init(size: nat): System
  {
    System(seq(size, _ => NEW_ACCEPTOR), [])
  }

  ghost predicate Enabled(s: System, step: Step)
  {
    match step
    case Start(_, _) => true
    case PrepareCall(i, _) => i < |s.attempts| && s.attempts[i].phase == Preparing && s.attempts[i].next < |s.acceptors|
    case EndPrepare(i) => i < |s.attempts| && s.attempts[i].phase == Preparing && s.attempts[i].next == |s.acceptors|
    case AcceptCall(i, _) => i < |s.attempts| && s.attempts[i].phase == Accepting && s.attempts[i].next < |s.acceptors|
    case EndAccept(i) => i < |s.attempts| && s.attempts[i].phase == Accepting && s.attempts[i].next == |s.acceptors|
  }

  function Take(s: System, step: Step): System
    requires Enabled(s, step)
  {
    match step
    case Start(n, v) => s.(attempts := s.attempts + [NewAttempt(n, v)])
    case PrepareCall(i, fate) =>
      var p := s.attempts[i];
      var a := s.acceptors[p.next];
      var p1 := if fate == Delivered && p.n > a.promisedN then Hear(p, a) else p;
      System(if fate == RequestLost then s.acceptors else s.acceptors[p.next := Prepared(a, p.n)],
             s.attempts[i := p1.(next := p.next + 1)])
    case EndPrepare(i) =>
      var p := s.attempts[i];
      s.(attempts := s.attempts[i := if p.promises < Majority(|s.acceptors|) then p.(phase := Done(false))
                                     else p.(phase := Accepting, next := 0)])
    case AcceptCall(i, fate) =>
      var p := s.attempts[i];
      var a := s.acceptors[p.next];
      var p1 := if fate == Delivered && p.n >= a.promisedN then p.(accepts := p.accepts + 1) else p;
      System(if fate == RequestLost then s.acceptors else s.acceptors[p.next := Accepted(a, p.n, p.chosenV)],
             s.attempts[i := p1.(next := p.next + 1)])
    case EndAccept(i) =>
      var p := s.attempts[i];
      s.(attempts := s.attempts[i := p.(phase := Done(p.accepts >= Majority(|s.acceptors|)))])
  }

  // ---------------------------------------------------------------- runs

  ghost predicate Next(s: System, step: Step, s': System)
  {
    Enabled(s, step) && s' == Take(s, step)
  }

  datatype Run = Run(states: seq<System>, steps: seq<Step>) {
    ghost predicate Valid(size: nat)
    {
      && |states| == |steps| + 1
      && states[0] == Init(size)
      && forall i :: 0 <= i < |steps| ==> Next(states[i], steps[i], states[i + 1])
    }

    function Last(): System
      requires states != []
    {
      states[|states| - 1]
    }

    function Extend(step: Step, s': System): Run
    {
      Run(states + [s'], steps + [step])
    }
  }

  /** Every value the run proposes is allowed. */
  ghost predicate Proposes(run: Run, allowed: Choice -> bool)
  {
    forall i :: 0 <= i < |run.steps| && run.steps[i].Start? ==> allowed(run.steps[i].v)
  }

  /** The values the run proposes. */
  ghost function Offered(run: Run): set<Choice>
  {
    set i | 0 <= i < |run.steps| && run.steps[i].Start? :: run.steps[i].v
  }

  predicate NotNil(v: Choice)
  {
    v != None
  }

  /** At some time acceptor k held (n, v) as its accepted proposal. */
  ghost predicate AcceptedIn(run: Run, k: nat, n: nat, v: Choice)
  {
    exists i :: 0 <= i < |run.states| && Holds(run.states[i], k, n, v)
  }

  predicate Holds(s: System, k: nat, n: nat, v: Choice)
  {
    k < |s.acceptors| && n > 0 && s.acceptors[k].acceptedN == n && s.acceptors[k].acceptedV == v
  }

  /** A majority of acceptors accepted v under one proposal number. */
  ghost predicate Chosen(run: Run, size: nat, n: nat, v: Choice)
  {
    exists q: set<nat> :: IsMajority(q, size) && AllAccepted(run, q, n, v)
  }

  ghost predicate AllAccepted(run: Run, q: set<nat>, n: nat, v: Choice)
  {
    forall k :: k in q ==> AcceptedIn(run, k, n, v)
  }

  ghost predicate IsMajority(q: set<nat>, size: nat)
  {
    |q| >= Majority(size) && forall k :: k in q ==> k < size
  }
}

/** Agreement: no two values are ever chosen in one run. */
module PaxosSafety {
  import opened Storage
  import opened PaxosModel
  import opened Quorums

  type Votes = set<(nat, nat, Choice)>   // acceptor, number, value
  type Proposals = map<nat, Choice>      // number -> the value its phase 2 carries
  type Grants = map<(nat, nat), nat>     // (acceptor, number) -> the attempt promised

  datatype History = History(
    votes: Votes,
    proposals: Proposals,
    owner: map<nat, nat>,            // number -> the attempt whose phase 2 it is
    grants: Grants,
    promisers: seq<set<nat>>,        // per attempt: the acceptors it heard promise
    accepters: seq<set<nat>>)        // per attempt: the acceptors it heard accept

  ghost predicate NoVote(votes: Votes, k: nat, n: nat)
  {
    forall v :: (k, n, v) !in votes
  }

  // ---------------------------------------------------------------- the invariant

  ghost predicate AcceptorGood(a: Acceptor, votes: Votes, grants: Grants, k: nat)
  {
    && a.acceptedN <= a.promisedN
    && (forall n, v :: (k, n, v) in votes ==> n <= a.acceptedN && a.acceptedV != None)
    && (if a.acceptedV == None then a.acceptedN == 0 else (k, a.acceptedN, a.acceptedV) in votes)
    && (forall n :: (k, n) in grants ==> 0 < n <= a.promisedN)
  }

  ghost predicate VotesGood(votes: Votes, proposals: Proposals, size: nat)
  {
    && (forall k, n, v :: (k, n, v) in votes ==> k < size && n in proposals && proposals[n] == v)
    && (forall n :: n in proposals ==> n > 0 && proposals[n] != None)
  }

  /** What an attempt has heard: promises of its own, and the highest vote below its number. */
  ghost predicate Heard(p: Attempt, promisers: set<nat>, grants: Grants, votes: Votes, proposals: Proposals,
      size: nat, i: nat)
  {
    && p.chosenV != None
    && p.promises == |promisers|
    && (forall k :: k in promisers ==> k < size && (k, p.n) in grants && grants[(k, p.n)] == i)
    && (p.phase == Preparing ==>
        && (forall k :: k in promisers ==> k < p.next)
        && (forall k, m, v :: k in promisers && (k, m, v) in votes && m < p.n ==> m <= p.highest)
        && (p.highest > 0 ==> p.highest < p.n && p.highest in proposals && proposals[p.highest] == p.chosenV))
  }

  /** What phase 2 stands on, and which acceptors answered it. */
  ghost predicate Answered(p: Attempt, support: nat, accepters: set<nat>, votes: Votes, proposals: Proposals, size: nat)
  {
    && p.accepts == |accepters|
    && (p.phase == Preparing ==> accepters == {})
    && (p.phase == Accepting ==> forall k :: k in accepters ==> k < p.next)
    && (p.phase == Accepting || p.phase == Done(true) ==>
        support >= Majority(size) && p.n in proposals && proposals[p.n] == p.chosenV)
    && (forall k :: k in accepters ==> (k, p.n, p.chosenV) in votes)
    && (p.phase == Done(true) ==> p.accepts >= Majority(size))
  }

  ghost predicate AttemptGood(s: System, h: History, i: nat)
    requires i < |s.attempts| && i < |h.promisers| && i < |h.accepters|
  {
    && Heard(s.attempts[i], h.promisers[i], h.grants, h.votes, h.proposals, |s.acceptors|, i)
    && Answered(s.attempts[i], |h.promisers[i]|, h.accepters[i], h.votes, h.proposals, |s.acceptors|)
  }

  /** Each proposal comes from one attempt that a majority promised. */
  ghost predicate OwnersGood(attempts: seq<Attempt>, promisers: seq<set<nat>>, owner: map<nat, nat>,
      proposals: Proposals, size: nat)
  {
    && owner.Keys == proposals.Keys
    && forall n :: n in owner ==>
      && owner[n] < |attempts| && owner[n] < |promisers|
      && attempts[owner[n]].n == n && attempts[owner[n]].phase != Preparing
      && |promisers[owner[n]]| >= Majority(size)
  }

  /** A majority has promised past number m without voting at m, so m can choose nothing. */
  ghost predicate Blocked(acceptors: seq<Acceptor>, votes: Votes, m: nat)
  {
    exists q: set<nat> :: BlockedBy(acceptors, votes, m, q)
  }

  ghost predicate BlockedBy(acceptors: seq<Acceptor>, votes: Votes, m: nat, q: set<nat>)
  {
    && IsMajority(q, |acceptors|)
    && forall k :: k in q ==> k < |acceptors| && acceptors[k].promisedN > m && NoVote(votes, k, m)
  }

  /** A proposal contradicting a later one is blocked. */
  ghost predicate Safe(acceptors: seq<Acceptor>, votes: Votes, proposals: Proposals)
  {
    forall m, n :: m in proposals && n in proposals && m < n && proposals[m] != proposals[n] ==>
      Blocked(acceptors, votes, m)
  }

  ghost predicate Inv(s: System, h: History)
  {
    && |h.promisers| == |s.attempts| == |h.accepters|
    && (forall k :: 0 <= k < |s.acceptors| ==> AcceptorGood(s.acceptors[k], h.votes, h.grants, k))
    && VotesGood(h.votes, h.proposals, |s.acceptors|)
    && (forall i :: 0 <= i < |s.attempts| ==> AttemptGood(s, h, i))
    && OwnersGood(s.attempts, h.promisers, h.owner, h.proposals, |s.acceptors|)
    && Safe(s.acceptors, h.votes, h.proposals)
  }

  // ---------------------------------------------------------------- starting an attempt

  lemma StartKeepsInv(s: System, h: History, n: nat, v: Choice)
    requires Inv(s, h) && v != None
    ensures Inv(Take(s, Start(n, v)), h.(promisers := h.promisers + [{}], accepters := h.accepters + [{}]))
  {
    var s', h' := Take(s, Start(n, v)), h.(promisers := h.promisers + [{}], accepters := h.accepters + [{}]);
    forall i | 0 <= i < |s'.attempts|
      ensures AttemptGood(s', h', i)
    {
      if i < |s.attempts| {
        assert AttemptGood(s, h, i);
      }
    }
    assert Safe(s'.acceptors, h'.votes, h'.proposals);
  }

  // ---------------------------------------------------------------- acceptors move on

  /** Promises only rise, and new votes respect them. */
  ghost predicate Onward(acceptors: seq<Acceptor>, acceptors': seq<Acceptor>, votes: Votes, votes': Votes)
  {
    && |acceptors'| == |acceptors|
    && (forall k :: 0 <= k < |acceptors| ==> acceptors'[k].promisedN >= acceptors[k].promisedN)
    && votes <= votes'
    && (forall k, n, v :: (k, n, v) in votes' && (k, n, v) !in votes ==>
        k < |acceptors| && n >= acceptors[k].promisedN)
  }

  lemma BlockedStays(acceptors: seq<Acceptor>, acceptors': seq<Acceptor>, votes: Votes, votes': Votes, m: nat)
    requires Onward(acceptors, acceptors', votes, votes') && Blocked(acceptors, votes, m)
    ensures Blocked(acceptors', votes', m)
  {
    var q :| BlockedBy(acceptors, votes, m, q);
    assert BlockedBy(acceptors', votes', m, q);
  }

  lemma SafeStays(acceptors: seq<Acceptor>, acceptors': seq<Acceptor>, h: History, h': History)
    requires Onward(acceptors, acceptors', h.votes, h'.votes) && h'.proposals == h.proposals
      && Safe(acceptors, h.votes, h.proposals)
    ensures Safe(acceptors', h'.votes, h'.proposals)
  {
    forall m, n | m in h.proposals && n in h.proposals && m < n && h.proposals[m] != h.proposals[n]
      ensures Blocked(acceptors', h'.votes, m)
    {
      BlockedStays(acceptors, acceptors', h.votes, h'.votes, m);
    }
  }

  // ---------------------------------------------------------------- one call of phase 1

  /** The history after a Prepare call: a promise is recorded, and counted if the reply arrives. */
  ghost function AfterPrepare(s: System, h: History, i: nat, fate: Fate): History
    requires Enabled(s, PrepareCall(i, fate)) && i < |h.promisers|
  {
    var p := s.attempts[i];
    if fate == RequestLost || p.n <= s.acceptors[p.next].promisedN then h
    else
      h.(grants := h.grants[(p.next, p.n) := i],
         promisers := if fate == Delivered then h.promisers[i := h.promisers[i] + {p.next}] else h.promisers)
  }

  lemma PrepareAcceptors(s: System, h: History, i: nat, fate: Fate)
    requires Inv(s, h) && Enabled(s, PrepareCall(i, fate))
    ensures var s', h' := Take(s, PrepareCall(i, fate)), AfterPrepare(s, h, i, fate);
      forall k :: 0 <= k < |s'.acceptors| ==> AcceptorGood(s'.acceptors[k], h'.votes, h'.grants, k)
  {
  }

  /** A promise adds the acceptor's last vote to what the attempt knows. */
  lemma PromiseHeard(p: Attempt, a: Acceptor, promisers: set<nat>, h: History, size: nat, i: nat)
    requires Heard(p, promisers, h.grants, h.votes, h.proposals, size, i) && VotesGood(h.votes, h.proposals, size)
      && AcceptorGood(a, h.votes, h.grants, p.next)
    requires p.phase == Preparing && p.next < size && p.n > a.promisedN
    ensures Heard(Hear(p, a).(next := p.next + 1), promisers + {p.next}, h.grants[(p.next, p.n) := i], h.votes,
      h.proposals, size, i)
  {
    assert p.next !in promisers;
  }

  /** A new promise takes nothing from what other attempts have heard. */
  lemma GrantUnheard(p: Attempt, promisers: set<nat>, h: History, size: nat, j: nat, key: (nat, nat), i: nat)
    requires Heard(p, promisers, h.grants, h.votes, h.proposals, size, j) && key !in h.grants
    ensures Heard(p, promisers, h.grants[key := i], h.votes, h.proposals, size, j)
  {
  }

  lemma PrepareOther(s: System, h: History, i: nat, fate: Fate, j: nat)
    requires Inv(s, h) && Enabled(s, PrepareCall(i, fate)) && j < |s.attempts| && j != i
    ensures AttemptGood(Take(s, PrepareCall(i, fate)), AfterPrepare(s, h, i, fate), j)
  {
    hide OwnersGood, Safe, VotesGood, Heard, Answered;
    var p := s.attempts[i];
    assert AcceptorGood(s.acceptors[p.next], h.votes, h.grants, p.next) && AttemptGood(s, h, j);
    if fate != RequestLost && p.n > s.acceptors[p.next].promisedN {
      GrantUnheard(s.attempts[j], h.promisers[j], h, |s.acceptors|, j, (p.next, p.n), i);
    }
  }

  lemma PrepareOwn(s: System, h: History, i: nat, fate: Fate)
    requires Inv(s, h) && Enabled(s, PrepareCall(i, fate))
    ensures AttemptGood(Take(s, PrepareCall(i, fate)), AfterPrepare(s, h, i, fate), i)
  {
    hide OwnersGood, Safe, VotesGood, AcceptorGood, Heard, Answered;
    var p, size := s.attempts[i], |s.acceptors|;
    var a := s.acceptors[p.next];
    assert AcceptorGood(a, h.votes, h.grants, p.next) && AttemptGood(s, h, i);
    StillPreparing(p, a, h.promisers[i], h.promisers[i] + {p.next}, h.accepters[i], h, size);
    if fate == RequestLost || p.n <= a.promisedN {
      NothingHeard(p, h.promisers[i], h, size, i);
    } else if fate == Delivered {
      PromiseHeard(p, a, h.promisers[i], h, size, i);
    } else {
      NothingHeard(p, h.promisers[i], h, size, i);
      NotYetGranted(a, h, p.next, p.n);
      GrantUnheard(p.(next := p.next + 1), h.promisers[i], h, size, i, (p.next, p.n), i);
    }
  }

  lemma NotYetGranted(a: Acceptor, h: History, k: nat, n: nat)
    requires AcceptorGood(a, h.votes, h.grants, k) && n > a.promisedN
    ensures (k, n) !in h.grants
  {
  }

  lemma NothingHeard(p: Attempt, promisers: set<nat>, h: History, size: nat, i: nat)
    requires Heard(p, promisers, h.grants, h.votes, h.proposals, size, i)
    ensures Heard(p.(next := p.next + 1), promisers, h.grants, h.votes, h.proposals, size, i)
  {
  }

  /** Phase 2 has not begun, whatever phase 1 hears. */
  lemma StillPreparing(p: Attempt, a: Acceptor, promisers: set<nat>, promisers': set<nat>, accepters: set<nat>,
      h: History, size: nat)
    requires Answered(p, |promisers|, accepters, h.votes, h.proposals, size) && p.phase == Preparing
    ensures Answered(p.(next := p.next + 1), |promisers|, accepters, h.votes, h.proposals, size)
    ensures Answered(Hear(p, a).(next := p.next + 1), |promisers'|, accepters, h.votes, h.proposals, size)
  {
  }

  lemma PrepareKeepsInv(s: System, h: History, i: nat, fate: Fate)
    requires Inv(s, h) && Enabled(s, PrepareCall(i, fate))
    ensures Inv(Take(s, PrepareCall(i, fate)), AfterPrepare(s, h, i, fate))
  {
    var s', h' := Take(s, PrepareCall(i, fate)), AfterPrepare(s, h, i, fate);
    hide AcceptorGood, AttemptGood, OwnersGood, Safe, VotesGood;
    PrepareAcceptors(s, h, i, fate);
    forall j | 0 <= j < |s'.attempts|
      ensures AttemptGood(s', h', j)
    {
      if j == i {
        PrepareOwn(s, h, i, fate);
      } else {
        PrepareOther(s, h, i, fate, j);
      }
    }
    SafeStays(s.acceptors, s'.acceptors, h, h');
    PrepareOwners(s, h, i, fate);
  }

  lemma PrepareOwners(s: System, h: History, i: nat, fate: Fate)
    requires Inv(s, h) && Enabled(s, PrepareCall(i, fate))
    ensures OwnersGood(Take(s, PrepareCall(i, fate)).attempts, AfterPrepare(s, h, i, fate).promisers,
      AfterPrepare(s, h, i, fate).owner, AfterPrepare(s, h, i, fate).proposals,
        |Take(s, PrepareCall(i, fate)).acceptors|)
  {
    hide AcceptorGood, AttemptGood, Safe, VotesGood;
  }

  // ---------------------------------------------------------------- the end of phase 1

  /** Two attempts with the same number cannot both have a majority: an acceptor promises a number once. */
  lemma NumberIsNew(s: System, h: History, i: nat)
    requires Inv(s, h) && i < |s.attempts| && s.attempts[i].phase == Preparing
    requires s.attempts[i].promises >= Majority(|s.acceptors|)
    ensures s.attempts[i].n !in h.proposals && s.attempts[i].n > 0
  {
    var p := s.attempts[i];
    assert AttemptGood(s, h, i);
    var k :| k in h.promisers[i];
    assert AcceptorGood(s.acceptors[k], h.votes, h.grants, k);
    if p.n in h.proposals {
      var j := h.owner[p.n];
      assert AttemptGood(s, h, j);
      var shared := CommonMember(Indices(|s.acceptors|), h.promisers[i], h.promisers[j]);
      assert false;
    }
  }

  function Indices(n: nat): (r: set<nat>)
    ensures |r| == n && forall k: nat :: k in r <==> k < n
  {
    if n == 0 then {} else Indices(n - 1) + {n - 1}
  }

  /** Every earlier proposal of another value is blocked when phase 2 of this attempt begins. */
  lemma EarlierBlocked(s: System, h: History, i: nat, m: nat)
    requires Inv(s, h) && i < |s.attempts| && s.attempts[i].phase == Preparing
    requires s.attempts[i].promises >= Majority(|s.acceptors|)
    requires m in h.proposals && m < s.attempts[i].n && h.proposals[m] != s.attempts[i].chosenV
    ensures Blocked(s.acceptors, h.votes, m)
  {
    var p := s.attempts[i];
    assert AttemptGood(s, h, i);
    if m <= p.highest {
      assert m < p.highest;  // at p.highest itself the adopted value was proposed
    } else {
      var q := h.promisers[i];
      forall k | k in q
        ensures k < |s.acceptors| && s.acceptors[k].promisedN > m && NoVote(h.votes, k, m)
      {
        assert AcceptorGood(s.acceptors[k], h.votes, h.grants, k);
      }
      assert BlockedBy(s.acceptors, h.votes, m, q);
    }
  }

  /** A later proposal blocks this number before it has any vote. */
  lemma SelfBlocked(s: System, h: History, n: nat, later: nat)
    requires Inv(s, h) && n !in h.proposals && later in h.proposals && n < later
    ensures Blocked(s.acceptors, h.votes, n)
  {
    var j := h.owner[later];
    assert AttemptGood(s, h, j);
    var q := h.promisers[j];
    forall k | k in q
      ensures k < |s.acceptors| && s.acceptors[k].promisedN > n && NoVote(h.votes, k, n)
    {
      assert AcceptorGood(s.acceptors[k], h.votes, h.grants, k);
    }
    assert BlockedBy(s.acceptors, h.votes, n, q);
  }

  ghost function AfterPhase1(s: System, h: History, i: nat): History
    requires Enabled(s, EndPrepare(i))
  {
    var p := s.attempts[i];
    if p.promises < Majority(|s.acceptors|) then h
    else h.(proposals := h.proposals[p.n := p.chosenV], owner := h.owner[p.n := i])
  }

  lemma Phase1Safe(s: System, h: History, i: nat)
    requires Inv(s, h) && Enabled(s, EndPrepare(i)) && s.attempts[i].promises >= Majority(|s.acceptors|)
    ensures Safe(s.acceptors, h.votes, AfterPhase1(s, h, i).proposals)
  {
    var p, h' := s.attempts[i], AfterPhase1(s, h, i);
    NumberIsNew(s, h, i);
    forall m, n | m in h'.proposals && n in h'.proposals && m < n && h'.proposals[m] != h'.proposals[n]
      ensures Blocked(s.acceptors, h'.votes, m)
    {
      if n == p.n {
        EarlierBlocked(s, h, i, m);
      } else if m == p.n {
        SelfBlocked(s, h, m, n);
      }
    }
  }

  lemma Phase1Attempts(s: System, h: History, i: nat)
    requires Inv(s, h) && Enabled(s, EndPrepare(i))
    requires s.attempts[i].promises >= Majority(|s.acceptors|) ==> s.attempts[i].n !in h.proposals
    ensures forall j :: 0 <= j < |s.attempts| ==> AttemptGood(Take(s, EndPrepare(i)), AfterPhase1(s, h, i), j)
  {
    hide OwnersGood, Safe;
    forall j | 0 <= j < |s.attempts|
      ensures AttemptGood(Take(s, EndPrepare(i)), AfterPhase1(s, h, i), j)
    {
      assert AttemptGood(s, h, j);
    }
  }

  lemma Phase1KeepsInv(s: System, h: History, i: nat)
    requires Inv(s, h) && Enabled(s, EndPrepare(i))
    ensures Inv(Take(s, EndPrepare(i)), AfterPhase1(s, h, i))
  {
    var s', h' := Take(s, EndPrepare(i)), AfterPhase1(s, h, i);
    assert AttemptGood(s, h, i);
    if s.attempts[i].promises >= Majority(|s.acceptors|) {
      NumberIsNew(s, h, i);
      Phase1Safe(s, h, i);
    }
    Phase1Attempts(s, h, i);
    forall k | 0 <= k < |s.acceptors|
      ensures AcceptorGood(s.acceptors[k], h'.votes, h'.grants, k)
    {
      assert AcceptorGood(s.acceptors[k], h.votes, h.grants, k);
    }
  }

  // ---------------------------------------------------------------- phase 2

  ghost function AfterAccept(s: System, h: History, i: nat, fate: Fate): History
    requires Enabled(s, AcceptCall(i, fate)) && i < |h.accepters|
  {
    var p := s.attempts[i];
    if fate == RequestLost || p.n < s.acceptors[p.next].promisedN then h
    else
      h.(votes := h.votes + {(p.next, p.n, p.chosenV)},
         accepters := if fate == Delivered then h.accepters[i := h.accepters[i] + {p.next}] else h.accepters)
  }

  lemma AcceptAcceptors(s: System, h: History, i: nat, fate: Fate)
    requires Inv(s, h) && Enabled(s, AcceptCall(i, fate))
    ensures var s', h' := Take(s, AcceptCall(i, fate)), AfterAccept(s, h, i, fate);
      forall k :: 0 <= k < |s'.acceptors| ==> AcceptorGood(s'.acceptors[k], h'.votes, h'.grants, k)
  {
    hide OwnersGood, Safe;
    var s', h' := Take(s, AcceptCall(i, fate)), AfterAccept(s, h, i, fate);
    assert AttemptGood(s, h, i);
    forall k | 0 <= k < |s'.acceptors|
      ensures AcceptorGood(s'.acceptors[k], h'.votes, h'.grants, k)
    {
      assert AcceptorGood(s.acceptors[k], h.votes, h.grants, k);
    }
  }

  /** A new vote is not below a number its acceptor has promised, so nobody's knowledge is outdated. */
  lemma VoteUnheard(p: Attempt, promisers: set<nat>, h: History, size: nat, i: nat, k: nat, a: Acceptor, n: nat,
      v: Choice)
    requires Heard(p, promisers, h.grants, h.votes, h.proposals, size, i) && AcceptorGood(a, h.votes, h.grants, k)
      && n >= a.promisedN
    ensures Heard(p, promisers, h.grants, h.votes + {(k, n, v)}, h.proposals, size, i)
  {
  }

  lemma AcceptAttempt(s: System, h: History, i: nat, fate: Fate, j: nat)
    requires Inv(s, h) && Enabled(s, AcceptCall(i, fate)) && j < |s.attempts|
    ensures AttemptGood(Take(s, AcceptCall(i, fate)), AfterAccept(s, h, i, fate), j)
  {
    hide OwnersGood, Safe;
    var p := s.attempts[i];
    var a := s.acceptors[p.next];
    assert AcceptorGood(a, h.votes, h.grants, p.next) && AttemptGood(s, h, j);
    if p.n >= a.promisedN {
      VoteUnheard(s.attempts[j], h.promisers[j], h, |s.acceptors|, j, p.next, a, p.n, p.chosenV);
    }
    if j == i {
      assert p.next !in h.accepters[i];
      assert |h.accepters[i] + {p.next}| == |h.accepters[i]| + 1;
    }
  }

  lemma AcceptKeepsInv(s: System, h: History, i: nat, fate: Fate)
    requires Inv(s, h) && Enabled(s, AcceptCall(i, fate))
    ensures Inv(Take(s, AcceptCall(i, fate)), AfterAccept(s, h, i, fate))
  {
    var s', h' := Take(s, AcceptCall(i, fate)), AfterAccept(s, h, i, fate);
    hide AcceptorGood, Safe, Heard, Answered, VotesGood, OwnersGood;
    AcceptAcceptors(s, h, i, fate);
    forall j | 0 <= j < |s'.attempts|
      ensures AttemptGood(s', h', j)
    {
      AcceptAttempt(s, h, i, fate, j);
    }
    SafeStays(s.acceptors, s'.acceptors, h, h');
    AcceptVotes(s, h, i, fate);
    AcceptOwners(s, h, i, fate);
  }

  lemma AcceptVotes(s: System, h: History, i: nat, fate: Fate)
    requires Inv(s, h) && Enabled(s, AcceptCall(i, fate))
    ensures VotesGood(AfterAccept(s, h, i, fate).votes, AfterAccept(s, h, i, fate).proposals,
      |Take(s, AcceptCall(i, fate)).acceptors|)
  {
    hide AcceptorGood, Safe, Heard, OwnersGood;
    assert AttemptGood(s, h, i);
  }

  lemma AcceptOwners(s: System, h: History, i: nat, fate: Fate)
    requires Inv(s, h) && Enabled(s, AcceptCall(i, fate))
    ensures OwnersGood(Take(s, AcceptCall(i, fate)).attempts, AfterAccept(s, h, i, fate).promisers,
      AfterAccept(s, h, i, fate).owner, AfterAccept(s, h, i, fate).proposals, |Take(s, AcceptCall(i, fate)).acceptors|)
  {
    hide AcceptorGood, Safe, AttemptGood, VotesGood;
  }

  lemma EndAcceptKeepsInv(s: System, h: History, i: nat)
    requires Inv(s, h) && Enabled(s, EndAccept(i))
    ensures Inv(Take(s, EndAccept(i)), h)
  {
    var s' := Take(s, EndAccept(i));
    forall j | 0 <= j < |s'.attempts|
      ensures AttemptGood(s', h, j)
    {
      assert AttemptGood(s, h, j);
    }
    assert OwnersGood(s'.attempts, h.promisers, h.owner, h.proposals, |s'.acceptors|);
  }

  // ---------------------------------------------------------------- runs

  /** The history explains the last state, and its votes are exactly the acceptances the run shows. */
  ghost predicate Explains(run: Run, size: nat, h: History)
  {
    && run.states != [] && |run.Last().acceptors| == size
    && Inv(run.Last(), h)
    && (forall k, n, v :: (k, n, v) in h.votes ==> AcceptedIn(run, k, n, v))
    && (forall k: nat, n: nat, v :: AcceptedIn(run, k, n, v) ==> (k, n, v) in h.votes)
  }

  ghost predicate Explained(run: Run, size: nat)
  {
    exists h :: Explains(run, size, h)
  }

  lemma StepKeepsInv(s: System, step: Step, s': System, h: History) returns (h': History)
    requires Inv(s, h) && Next(s, step, s') && (step.Start? ==> step.v != None)
    ensures Inv(s', h') && h.votes <= h'.votes && |s'.acceptors| == |s.acceptors|
    ensures forall k, n, v :: (k, n, v) in h'.votes && (k, n, v) !in h.votes ==> Holds(s', k, n, v)
  {
    match step {
      case Start(n, v) =>
        h' := h.(promisers := h.promisers + [{}], accepters := h.accepters + [{}]);
        StartKeepsInv(s, h, n, v);
      case PrepareCall(i, fate) =>
        h' := AfterPrepare(s, h, i, fate);
        PrepareKeepsInv(s, h, i, fate);
      case EndPrepare(i) =>
        h' := AfterPhase1(s, h, i);
        Phase1KeepsInv(s, h, i);
      case AcceptCall(i, fate) =>
        h' := AfterAccept(s, h, i, fate);
        AcceptKeepsInv(s, h, i, fate);
        assert AttemptGood(s, h, i);
      case EndAccept(i) =>
        h' := h;
        EndAcceptKeepsInv(s, h, i);
    }
  }

  lemma HeldIsVote(s: System, h: History, k: nat, n: nat, v: Choice)
    requires Inv(s, h) && Holds(s, k, n, v)
    ensures (k, n, v) in h.votes
  {
    assert AcceptorGood(s.acceptors[k], h.votes, h.grants, k);
  }

  lemma InitExplained(size: nat)
    ensures Explained(Run([Init(size)], []), size)
  {
    var h := History({}, map[], map[], map[], [], []);
    assert Explains(Run([Init(size)], []), size, h);
  }

  lemma AcceptedExtends(run: Run, step: Step, s': System, k: nat, n: nat, v: Choice)
    ensures AcceptedIn(run.Extend(step, s'), k, n, v) <==> AcceptedIn(run, k, n, v) || Holds(s', k, n, v)
  {
    var run' := run.Extend(step, s');
    if AcceptedIn(run, k, n, v) {
      var i :| 0 <= i < |run.states| && Holds(run.states[i], k, n, v);
      assert Holds(run'.states[i], k, n, v);
    }
    if Holds(s', k, n, v) {
      assert Holds(run'.states[|run.states|], k, n, v);
    }
    if AcceptedIn(run', k, n, v) {
      var i :| 0 <= i < |run'.states| && Holds(run'.states[i], k, n, v);
      if i < |run.states| {
        assert Holds(run.states[i], k, n, v);
      }
    }
  }

  lemma StepExplained(run: Run, size: nat, step: Step, s': System)
    requires Explained(run, size) && Next(run.Last(), step, s') && (step.Start? ==> step.v != None)
    ensures Explained(run.Extend(step, s'), size)
  {
    hide Inv, Next, Holds, AcceptedIn;
    var h :| Explains(run, size, h);
    var h' := StepKeepsInv(run.Last(), step, s', h);
    var run' := run.Extend(step, s');
    forall k: nat, n: nat, v
      ensures AcceptedIn(run', k, n, v) <==> (k, n, v) in h'.votes
    {
      AcceptedExtends(run, step, s', k, n, v);
      if Holds(s', k, n, v) {
        HeldIsVote(s', h', k, n, v);
      }
    }
    assert run'.Last() == s';
    assert Explains(run', size, h');
  }

  lemma {:induction false} RunExplained(run: Run, size: nat)
    requires run.Valid(size) && Proposes(run, NotNil)
    ensures Explained(run, size)
    decreases |run.steps|
  {
    hide Explained, Next;
    if run.steps == [] {
      assert run == Run([Init(size)], []);
      InitExplained(size);
    } else {
      var k := |run.steps| - 1;
      var before := Run(run.states[..k + 1], run.steps[..k]);
      RunExplained(before, size);
      assert Next(before.Last(), run.steps[k], run.states[k + 1]);
      StepExplained(before, size, run.steps[k], run.states[k + 1]);
      assert run == before.Extend(run.steps[k], run.states[k + 1]);
    }
  }

  // ---------------------------------------------------------------- agreement

  lemma ChosenTwice(run: Run, size: nat, h: History, n1: nat, v1: Choice, n2: nat, v2: Choice)
    requires Explains(run, size, h) && Chosen(run, size, n1, v1) && Chosen(run, size, n2, v2) && n1 <= n2
    ensures v1 == v2
  {
    hide AcceptorGood, AttemptGood, OwnersGood;
    var q1 :| IsMajority(q1, size) && AllAccepted(run, q1, n1, v1);
    var q2 :| IsMajority(q2, size) && AllAccepted(run, q2, n2, v2);
    var k1 :| k1 in q1;
    var k2 :| k2 in q2;
    assert (k1, n1, v1) in h.votes && (k2, n2, v2) in h.votes;
    if v1 != v2 {
      var q :| BlockedBy(run.Last().acceptors, h.votes, n1, q);
      var k := CommonMember(Indices(size), q, q1);
      assert false;
    }
  }

  /** With values other than nil, no two values are ever accepted by majorities in one run. */
  lemma Agreement(run: Run, size: nat, n1: nat, v1: Choice, n2: nat, v2: Choice)
    requires run.Valid(size) && Proposes(run, NotNil)
    requires Chosen(run, size, n1, v1) && Chosen(run, size, n2, v2)
    ensures v1 == v2
  {
    RunExplained(run, size);
    var h :| Explains(run, size, h);
    if n1 <= n2 {
      ChosenTwice(run, size, h, n1, v1, n2, v2);
    } else {
      ChosenTwice(run, size, h, n2, v2, n1, v1);
    }
  }

  /** An attempt that reports success reports a chosen value. */
  lemma SuccessIsChosen(run: Run, size: nat, i: nat)
    requires run.Valid(size) && Proposes(run, NotNil)
    requires i < |run.Last().attempts| && run.Last().attempts[i].phase == Done(true)
    ensures Chosen(run, size, run.Last().attempts[i].n, run.Last().attempts[i].chosenV)
  {
    RunExplained(run, size);
    var h :| Explains(run, size, h);
    assert AttemptGood(run.Last(), h, i);
    var p := run.Last().attempts[i];
    forall k | k in h.accepters[i]
      ensures k < size && AcceptedIn(run, k, p.n, p.chosenV)
    {
      assert (k, p.n, p.chosenV) in h.votes;
    }
    assert IsMajority(h.accepters[i], size) && AllAccepted(run, h.accepters[i], p.n, p.chosenV);
  }
}
