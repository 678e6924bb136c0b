/** Acceptors, proposers and the Multi-Paxos log as the objects they are. */
module PaxosObjects {
  import opened Storage
  import M = PaxosModel
  import Q = PaxosSequential
  import S = PaxosSafety

  class Acceptor {
    var promisedN: nat
    var acceptedN: nat
    var acceptedV: M.Choice

    constructor ()
      ensures State() == M.NEW_ACCEPTOR
    {
      promisedN, acceptedN, acceptedV := 0, 0, None;
    }

    function State(): M.Acceptor
      reads this
    {
      M.Acceptor(promisedN, acceptedN, acceptedV)
    }

    method Prepare(n: nat) returns (promised: bool, accN: nat, accV: M.Choice)
      modifies this
      ensures State() == M.Prepared(old(State()), n)
      ensures promised == (n > old(promisedN)) && accN == old(acceptedN) && accV == old(acceptedV)
    {
      promised, accN, accV := false, acceptedN, acceptedV;
      if n > promisedN {
        promisedN := n;
        promised := true;
      }
    }

    method Accept(n: nat, v: M.Choice) returns (accepted: bool)
      modifies this
      ensures State() == M.Accepted(old(State()), n, v)
      ensures accepted == (n >= old(promisedN))
    {
      if n >= promisedN {
        promisedN, acceptedN, acceptedV := n, n, v;
        return true;
      }
      return false;
    }
  }

  ghost function States(acceptors: seq<Acceptor>): (r: seq<M.Acceptor>)
    reads acceptors
    ensures |r| == |acceptors| && forall i :: 0 <= i < |acceptors| ==> r[i] == acceptors[i].State()
  {
    if acceptors == [] then [] else States(acceptors[..|acceptors| - 1]) + [acceptors[|acceptors| - 1].State()]
  }

  ghost predicate Distinct(acceptors: seq<Acceptor>)
  {
    forall i, j :: 0 <= i < j < |acceptors| ==> acceptors[i] != acceptors[j]
  }

  const ID_BITS := 0x1_0000

  /** round<<16 | id&0xFFFF. */
  function ProposalNumber(round: nat, id: nat): nat
  {
    round * ID_BITS + id % ID_BITS
  }

  /** A later round outranks every earlier one, and distinct 16-bit ids never mint the same number. */
  lemma NumbersUnique(r1: nat, id1: nat, r2: nat, id2: nat)
    requires id1 < ID_BITS && id2 < ID_BITS
    ensures r1 < r2 ==> ProposalNumber(r1, id1) < ProposalNumber(r2, id2)
    ensures ProposalNumber(r1, id1) == ProposalNumber(r2, id2) <==> r1 == r2 && id1 == id2
  {
  }

  class Proposer {
    const id: nat
    var round: nat

    constructor (id: nat)
      ensures this.id == id && round == 0
    {
      this.id := id;
      round := 0;
    }

    method NextProposalNumber() returns (n: nat)
      modifies this
      ensures round == old(round) + 1 && n == ProposalNumber(round, id)
    {
      round := round + 1;
      n := round * ID_BITS + id % ID_BITS;
    }

    /** Phase 1: Prepare at every acceptor in turn, adopting the highest accepted value heard. */
    static method Canvass(acceptors: seq<Acceptor>, n: nat, v: M.Choice) returns (promises: nat, chosenV: M.Choice)
      requires Distinct(acceptors)
      modifies acceptors
      ensures States(acceptors) == Q.PreparedUpTo(old(States(acceptors)), n, |acceptors|)
      ensures var p := Q.Phase1(old(States(acceptors)), M.NewAttempt(n, v), |acceptors|);
        promises == p.promises && chosenV == p.chosenV
    {
      hide States;
      ghost var before := States(acceptors);
      var highest := 0;
      promises, chosenV := 0, v;
      for k := 0 to |acceptors|
        invariant forall i :: 0 <= i < k ==> acceptors[i].State() == M.Prepared(before[i], n)
        invariant forall i :: k <= i < |acceptors| ==> acceptors[i].State() == before[i]
        invariant var p := Q.Phase1(before, M.NewAttempt(n, v), k);
          promises == p.promises && chosenV == p.chosenV && highest == p.highest
      {
        var promised, accN, accV := acceptors[k].Prepare(n);
        if promised {
          promises := promises + 1;
          if accV != None && accN > highest {
            highest := accN;
            chosenV := accV;
          }
        }
      }
    }

    /** Phase 2: Accept at every acceptor in turn. */
    static method Collect(acceptors: seq<Acceptor>, n: nat, v: M.Choice, ghost p: M.Attempt) returns (accepts: nat)
      requires Distinct(acceptors) && p.n == n && p.chosenV == v && p.accepts == 0
      modifies acceptors
      ensures States(acceptors) == Q.AcceptedUpTo(old(States(acceptors)), n, v, |acceptors|)
      ensures accepts == Q.Phase2(old(States(acceptors)), p, |acceptors|).accepts
    {
      hide States;
      ghost var before := States(acceptors);
      accepts := 0;
      for k := 0 to |acceptors|
        invariant forall i :: 0 <= i < k ==> acceptors[i].State() == M.Accepted(before[i], n, v)
        invariant forall i :: k <= i < |acceptors| ==> acceptors[i].State() == before[i]
        invariant accepts == Q.Phase2(before, p, k).accepts
      {
        var accepted := acceptors[k].Accept(n, v);
        if accepted {
          accepts := accepts + 1;
        }
      }
    }

    method Propose(acceptors: seq<Acceptor>, v: M.Choice) returns (chosen: M.Choice, ok: bool)
      requires Distinct(acceptors)
      modifies this, acceptors
      ensures round == old(round) + if acceptors == [] then 0 else 1
      ensures var r := Q.Propose(old(States(acceptors)), ProposalNumber(round, id), v);
        States(acceptors) == r.acceptors && ok == r.ok && chosen == if ok then r.chosen else None
    {
      if |acceptors| == 0 {
        return None, false;
      }
      ghost var before := States(acceptors);
      var need := M.Majority(|acceptors|);
      var n := NextProposalNumber();
      var promises, chosenV := Canvass(acceptors, n, v);
      if promises < need {
        return None, false;
      }
      Q.PromisesCounted(before, M.NewAttempt(n, v), |acceptors|);
      ghost var p := Q.Phase1(before, M.NewAttempt(n, v), |acceptors|);
      var accepts := Collect(acceptors, n, chosenV, p.(phase := M.Accepting, next := 0));
      if accepts < need {
        return None, false;
      }
      return chosenV, true;
    }
  }

  /** One single-decree instance per slot of a log. */
  class MultiPaxos {
    const numAcceptors: nat
    var slots: seq<seq<Acceptor>>
    var log: seq<M.Choice>
    ghost var runs: seq<M.Run>       // what has happened in each slot
    ghost var pool: set<Acceptor>    // every acceptor of every slot

    ghost predicate Valid()
      reads this, pool
    {
      && numAcceptors > 0
      && |log| == |slots| == |runs|
      && (forall s :: 0 <= s < |slots| ==> Owned(slots[s]) && SlotValid(s))
      && (forall s, t :: 0 <= s < t < |slots| ==> Apart(slots[s], slots[t]))
    }

    ghost predicate Owned(a: seq<Acceptor>)
      reads this
    {
      forall x :: x in a ==> x in pool
    }

    static ghost predicate Apart(a: seq<Acceptor>, b: seq<Acceptor>)
    {
      forall x :: x in a ==> x !in b
    }

    /** The slot's acceptors are where its run left them; a logged value was chosen in that run. */
    ghost predicate SlotValid(s: nat)
      requires s < |slots| && |log| == |slots| == |runs| && Owned(slots[s])
      reads this, pool
    {
      Settled(numAcceptors, slots[s], States(slots[s]), runs[s], log[s])
    }

    static ghost predicate Settled(size: nat, slot: seq<Acceptor>, states: seq<M.Acceptor>, run: M.Run, value: M.Choice)
    {
      && |slot| == size && Distinct(slot)
      && run.Valid(size)
      && run.Last().acceptors == states
      && (value != None && None !in M.Offered(run) ==> Decided(run, size, value))
    }

    static ghost predicate Decided(run: M.Run, size: nat, v: M.Choice)
    {
      exists n :: M.Chosen(run, size, n, v)
    }

    /** The values slot s has been asked to decide, since the log was made. */
    ghost function Offered(s: nat): set<M.Choice>
      reads this
    {
      if s < |runs| then M.Offered(runs[s]) else {}
    }

    constructor (numAcceptors: int)
      ensures Valid() && slots == [] && log == [] && pool == {}
      ensures forall s :: Offered(s) == {}
      ensures this.numAcceptors == if numAcceptors <= 0 then 1 else numAcceptors
    {
      this.numAcceptors := if numAcceptors <= 0 then 1 else numAcceptors;
      slots, log, runs, pool := [], [], [], {};
    }

    ghost function NewRun(): M.Run
    {
      M.Run([M.Init(numAcceptors)], [])
    }

    method NewSlot() returns (slot: seq<Acceptor>)
      ensures |slot| == numAcceptors && Distinct(slot) && fresh(slot)
      ensures States(slot) == M.Init(numAcceptors).acceptors
    {
      slot := [];
      while |slot| < numAcceptors
        invariant |slot| <= numAcceptors && Distinct(slot) && fresh(slot)
        invariant forall i :: 0 <= i < |slot| ==> slot[i].State() == M.NEW_ACCEPTOR
      {
        var a := new Acceptor();
        slot := slot + [a];
      }
    }

    method GrowTo(slot: nat)
      requires Valid()
      modifies this
      ensures Valid() && |slots| == if old(|slots|) <= slot then slot + 1 else old(|slots|)
      ensures old(slots) <= slots && old(log) <= log && old(runs) <= runs
      ensures old(pool) <= pool && fresh(pool - old(pool))
      ensures forall s :: old(|slots|) <= s < |slots| ==> log[s] == None && runs[s] == NewRun()
      ensures forall s :: Offered(s) == old(Offered(s))
    {
      while |slots| <= slot
        invariant Valid() && |slots| <= if old(|slots|) <= slot then slot + 1 else old(|slots|)
        invariant old(slots) <= slots && old(log) <= log && old(runs) <= runs
        invariant old(pool) <= pool && fresh(pool - old(pool))
        invariant forall s :: old(|slots|) <= s < |slots| ==> log[s] == None && runs[s] == NewRun()
        invariant forall s :: Offered(s) == old(Offered(s))
      {
        AddSlot();
      }
    }

    method AddSlot()
      requires Valid()
      modifies this
      ensures Valid() && |slots| == old(|slots|) + 1
      ensures old(slots) <= slots && log == old(log) + [None] && runs == old(runs) + [NewRun()]
      ensures old(pool) <= pool && fresh(pool - old(pool))
      ensures forall s :: Offered(s) == old(Offered(s))
    {
      hide Settled, States;
      var slot := NewSlot();
      NewSlotSettled(numAcceptors, slot);
      slots, log := slots + [slot], log + [None];
      runs := runs + [NewRun()];
      pool := pool + set x | x in slot;
      forall s | 0 <= s < |slots|
        ensures Owned(slots[s]) && SlotValid(s)
      {
        if s < |slots| - 1 {
          assert old(Owned(slots[s]) && SlotValid(s));
          assert States(slots[s]) == old(States(slots[s]));
        }
      }
    }

    /** Runs a new proposer against an existing slot and logs what it reports chosen. */
    method RunProposer(slot: nat, proposerId: nat, v: M.Choice) returns (chosen: M.Choice, ok: bool)
      requires numAcceptors > 0
      requires slot < |slots| && |log| == |slots| == |runs| && Owned(slots[slot]) && SlotValid(slot)
      modifies this`log, this`runs, slots[slot]
      ensures |log| == |slots| == |runs| && SlotValid(slot)
      ensures log == if ok then old(log)[slot := chosen] else old(log)
      ensures runs == old(runs)[slot := runs[slot]]
      ensures M.Offered(runs[slot]) == old(M.Offered(runs[slot])) + {v}
      ensures ok ==> chosen in M.Offered(runs[slot])
      ensures ok && old(log)[slot] != None && None !in M.Offered(runs[slot]) ==> chosen == old(log)[slot]
      ensures ok <==> Enough(old(States(slots[slot])), proposerId)
    {
      hide Settled, Q.Propose, Q.Willing, M.Offered, M.Majority, ProposalNumber, States, Decided;
      SettledShape(numAcceptors, slots[slot], States(slots[slot]), runs[slot], log[slot]);
      var p := new Proposer(proposerId);
      ghost var before, run := States(slots[slot]), runs[slot];
      chosen, ok := p.Propose(slots[slot], v);
      ghost var run' := SlotRun(numAcceptors, slots[slot], before, run, log[slot], ProposalNumber(1, proposerId), v);
      if ok {
        log := log[slot := chosen];
      }
      runs := runs[slot := run'];
    }

    /** A majority of the acceptors has promised less than the proposer's first number. */
    ghost predicate Enough(acceptors: seq<M.Acceptor>, proposerId: nat)
      requires |acceptors| == numAcceptors
    {
      Q.Willing(acceptors, ProposalNumber(1, proposerId), numAcceptors) >= M.Majority(numAcceptors)
    }

    lemma NewSlotEnough(slot: nat, proposerId: nat)
      requires numAcceptors > 0 && slot < |slots| && |log| == |slots| == |runs|
      requires Owned(slots[slot]) && SlotValid(slot) && runs[slot] == NewRun()
      ensures |slots[slot]| == numAcceptors && Enough(States(slots[slot]), proposerId)
    {
      Q.AllWilling(States(slots[slot]), ProposalNumber(1, proposerId), numAcceptors);
    }

    /**
     Decides the slot: it keeps what it decided before unless nil was ever offered to it, and
     decides only what it was offered. Other slots keep their values and what they were offered.
     */
    method Decide(slot: nat, proposerId: nat, v: M.Choice) returns (chosen: M.Choice, ok: bool)
      requires Valid()
      modifies this, pool
      ensures Valid() && old(pool) <= pool && fresh(pool - old(pool))
      ensures slot < |log| && old(|log|) <= |log|
      ensures forall s :: 0 <= s < |log| && s != slot ==> log[s] == if s < old(|log|) then old(log)[s] else None
      ensures log[slot] == if ok then chosen else if slot < old(|log|) then old(log)[slot] else None
      ensures forall s :: Offered(s) == old(Offered(s)) + if s == slot then {v} else {}
      ensures ok ==> chosen in Offered(slot)
      ensures ok && slot < old(|log|) && old(log)[slot] != None && None !in Offered(slot) ==> chosen == old(log)[slot]
      ensures ok <==> (slot < old(|slots|) ==> Enough(old(States(slots[slot])), proposerId))
    {
      hide SlotValid, Q.Willing, M.Offered, ProposalNumber, Apart;
      GrowTo(slot);
      label grown:
      assert Owned(slots[slot]) && SlotValid(slot);
      if slot >= old(|slots|) {
        NewSlotEnough(slot, proposerId);
      }
      chosen, ok := RunProposer(slot, proposerId, v);
      OthersKept@grown(slot);
    }

    twostate lemma OthersKept(slot: nat)
      requires slot < |slots| && old(Valid())
      requires slots == old(slots) && pool == old(pool)
      requires |log| == |slots| == |runs|
      requires forall s :: 0 <= s < |slots| && s != slot ==> log[s] == old(log)[s] && runs[s] == old(runs)[s]
      requires forall x :: x in pool && x !in slots[slot] ==> x.State() == old(x.State())
      requires Owned(slots[slot]) && SlotValid(slot)
      ensures Valid()
    {
      hide Settled;
      forall s | 0 <= s < |slots|
        ensures Owned(slots[s]) && SlotValid(s)
      {
        if s != slot {
          assert old(Owned(slots[s]) && SlotValid(s));
          assert Apart(slots[if s < slot then s else slot], slots[if s < slot then slot else s]);
          assert States(slots[s]) == old(States(slots[s]));
        }
      }
    }
  }

  lemma ChosenStays(run: M.Run, run': M.Run, size: nat, n: nat, v: M.Choice)
    requires M.Chosen(run, size, n, v) && run.states <= run'.states
    ensures M.Chosen(run', size, n, v)
  {
  }

  lemma NewSlotSettled(size: nat, slot: seq<Acceptor>)
    requires |slot| == size && Distinct(slot)
    ensures MultiPaxos.Settled(size, slot, M.Init(size).acceptors, M.Run([M.Init(size)], []), None)
  {
  }

  lemma SettledShape(size: nat, slot: seq<Acceptor>, states: seq<M.Acceptor>, run: M.Run, value: M.Choice)
    requires MultiPaxos.Settled(size, slot, states, run, value)
    ensures |slot| == size && Distinct(slot)
  {
  }

  /** One more proposer in a slot: what was decided stays decided, and a success reports it. */
  lemma SlotRun(
    size: nat, slot: seq<Acceptor>, states: seq<M.Acceptor>, run: M.Run, value: M.Choice, n: nat, v: M.Choice)
    returns (run': M.Run)
    requires MultiPaxos.Settled(size, slot, states, run, value) && |states| == size
    ensures M.Offered(run') == M.Offered(run) + {v}
    ensures var r := Q.Propose(states, n, v);
      && MultiPaxos.Settled(size, slot, r.acceptors, run', if r.ok then r.chosen else value)
      && (r.ok ==> r.chosen in M.Offered(run'))
      && (None !in M.Offered(run') && r.ok && value != None ==> r.chosen == value)
      && (r.ok <==> Q.Willing(states, n, size) >= M.Majority(size))
  {
    hide Q.Propose;
    Q.SucceedsIffWilling(states, n, v);
    var r := Q.Propose(states, n, v);
    run' := Q.ProposeIsRun(run, size, n, v);
    Q.OfferedGrows(run, run', n, v);
    Q.OnlyOffered(run', size, |run'.states| - 1);
    if None !in M.Offered(run') {
      SlotKept(size, slot, states, run, value, run', |run.Last().attempts|, r.ok, r.chosen);
    }
  }

  /** While nil is not offered, a later success reports the value decided before. */
  lemma SlotKept(
    size: nat, slot: seq<Acceptor>, states: seq<M.Acceptor>, run: M.Run, value: M.Choice,
    run': M.Run, i: nat, ok: bool, chosen: M.Choice)
    requires MultiPaxos.Settled(size, slot, states, run, value) && Q.Continues(run, run', size)
    requires None !in M.Offered(run) && None !in M.Offered(run')
    requires i < |run'.Last().attempts| && run'.Last().attempts[i].phase == M.Done(ok)
    requires ok ==> run'.Last().attempts[i].chosenV == chosen
    ensures value != None ==> MultiPaxos.Decided(run', size, value)
    ensures ok ==> MultiPaxos.Decided(run', size, chosen)
    ensures ok && value != None ==> chosen == value
  {
    Q.OfferedNotNil(run');
    if ok {
      S.SuccessIsChosen(run', size, i);
    }
    if value != None {
      var n0 :| M.Chosen(run, size, n0, value);
      ChosenStays(run, run', size, n0, value);
      if ok {
        S.Agreement(run', size, run'.Last().attempts[i].n, chosen, n0, value);
      }
    }
  }

  /**
   A client that asks one slot of a new log again and again, each time with some proposer and some
   value: all the answers it gets are one and the same value, which it offered itself.
   */
  method DecideRepeatedly(numAcceptors: int, slot: nat, calls: seq<(nat, M.Choice)>)
    returns (answers: seq<Option<M.Choice>>)
    requires forall i :: 0 <= i < |calls| ==> calls[i].1 != None
    ensures |answers| == |calls| && (calls != [] ==> answers[0] == Some(calls[0].1))
    ensures forall i :: 0 <= i < |calls| && answers[i] != None ==> answers[i] == answers[0]
  {
    var log := new MultiPaxos(numAcceptors);
    answers := [];
    while |answers| < |calls|
      invariant log.Valid() && fresh(log) && fresh(log.pool)
      invariant |answers| <= |calls| && None !in log.Offered(slot)
      invariant if answers == [] then slot >= |log.log| && log.Offered(slot) == {}
                else slot < |log.log| && log.log[slot] == calls[0].1
      invariant answers != [] ==> answers[0] == Some(calls[0].1)
      invariant forall i :: 0 <= i < |answers| && answers[i] != None ==> answers[i] == answers[0]
    {
      var call := calls[|answers|];
      var chosen, ok := log.Decide(slot, call.0, call.1);
      answers := answers + [if ok then Some(chosen) else None];
    }
  }
}
