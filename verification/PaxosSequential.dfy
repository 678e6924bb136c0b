/**
 Propose as the code runs it, one attempt at a time: what it returns, that it is a run of the
 interleaved protocol, and exactly which proposed values keep the protocol safe.
 */
module PaxosSequential {
  import opened Storage
  import opened PaxosModel
  import S = PaxosSafety

  /** The attempt after its phase 1 has called the first k acceptors. */
  function Phase1(acceptors: seq<Acceptor>, p: Attempt, k: nat): Attempt
    requires k <= |acceptors|
  {
    if k == 0 then p
    else
      var q := Phase1(acceptors, p, k - 1);
      (if p.n > acceptors[k - 1].promisedN then Hear(q, acceptors[k - 1]) else q).(next := k)
  }

  function PreparedUpTo(acceptors: seq<Acceptor>, n: nat, k: nat): seq<Acceptor>
    requires k <= |acceptors|
  {
    seq(|acceptors|, i requires 0 <= i < |acceptors| => if i < k then Prepared(acceptors[i], n) else acceptors[i])
  }

  /** The attempt after its phase 2 has called the first k acceptors. */
  function Phase2(acceptors: seq<Acceptor>, p: Attempt, k: nat): Attempt
    requires k <= |acceptors|
  {
    if k == 0 then p
    else
      var q := Phase2(acceptors, p, k - 1);
      (if p.n >= acceptors[k - 1].promisedN then q.(accepts := q.accepts + 1) else q).(next := k)
  }

  function AcceptedUpTo(acceptors: seq<Acceptor>, n: nat, v: Choice, k: nat): seq<Acceptor>
    requires k <= |acceptors|
  {
    seq(|acceptors|, i requires 0 <= i < |acceptors| => if i < k then Accepted(acceptors[i], n, v) else acceptors[i])
  }

  datatype Outcome = Outcome(acceptors: seq<Acceptor>, chosen: Choice, ok: bool)

  /** Propose(acceptors, v) with proposal number n, uninterrupted. */
  function Propose(acceptors: seq<Acceptor>, n: nat, v: Choice): Outcome
  {
    var size := |acceptors|;
    var p := Phase1(acceptors, NewAttempt(n, v), size);
    var prepared := PreparedUpTo(acceptors, n, size);
    if p.promises < Majority(size) then Outcome(prepared, None, false)
    else
      var q := Phase2(prepared, p.(phase := Accepting, next := 0), size);
      var accepted := AcceptedUpTo(prepared, n, p.chosenV, size);
      if q.accepts < Majority(size) then Outcome(accepted, None, false)
      else Outcome(accepted, p.chosenV, true)
  }

  // ---------------------------------------------------------------- success, exactly

  /** How many of the first k acceptors have promised nothing at or above n. */
  function Willing(acceptors: seq<Acceptor>, n: nat, k: nat): nat
    requires k <= |acceptors|
  {
    if k == 0 then 0 else Willing(acceptors, n, k - 1) + if acceptors[k - 1].promisedN < n then 1 else 0
  }

  lemma {:induction false} PromisesCounted(acceptors: seq<Acceptor>, p: Attempt, k: nat)
    requires k <= |acceptors|
    ensures Phase1(acceptors, p, k).promises == p.promises + Willing(acceptors, p.n, k)
    ensures Phase1(acceptors, p, k).n == p.n && Phase1(acceptors, p, k).accepts == p.accepts
  {
    if k > 0 {
      PromisesCounted(acceptors, p, k - 1);
    }
  }

  lemma {:induction false} WillingAccept(acceptors: seq<Acceptor>, p: Attempt, k: nat)
    requires k <= |acceptors|
    ensures Phase2(PreparedUpTo(acceptors, p.n, |acceptors|), p, k).accepts >= p.accepts + Willing(acceptors, p.n, k)
    ensures Phase2(PreparedUpTo(acceptors, p.n, |acceptors|), p, k).chosenV == p.chosenV
  {
    if k > 0 {
      WillingAccept(acceptors, p, k - 1);
    }
  }

  /** An uninterrupted Propose succeeds iff a majority has promised only lower numbers. */
  lemma SucceedsIffWilling(acceptors: seq<Acceptor>, n: nat, v: Choice)
    ensures Propose(acceptors, n, v).ok <==> Willing(acceptors, n, |acceptors|) >= Majority(|acceptors|)
  {
    var p := Phase1(acceptors, NewAttempt(n, v), |acceptors|);
    PromisesCounted(acceptors, NewAttempt(n, v), |acceptors|);
    WillingAccept(acceptors, p.(phase := Accepting, next := 0), |acceptors|);
  }

  /** It returns its own value, or the value of the highest proposal a promiser had accepted. */
  lemma {:induction false} AdoptsHighest(acceptors: seq<Acceptor>, p: Attempt, k: nat)
    requires k <= |acceptors| && p.highest == 0
    ensures var q := Phase1(acceptors, p, k);
      && (q.highest == 0 ==> q.chosenV == p.chosenV)
      && (q.highest > 0 ==> exists i :: 0 <= i < k && Reports(acceptors[i], p.n) && acceptors[i].acceptedN == q.highest
                                        && acceptors[i].acceptedV == q.chosenV)
      && (forall i :: 0 <= i < k && Reports(acceptors[i], p.n) ==> acceptors[i].acceptedN <= q.highest)
  {
    if k > 0 {
      AdoptsHighest(acceptors, p, k - 1);
      PromisesCounted(acceptors, p, k - 1);
    }
  }

  /** The acceptor promises n and reports a value. */
  predicate Reports(a: Acceptor, n: nat)
  {
    a.promisedN < n && a.acceptedV != None
  }

  // ---------------------------------------------------------------- an uninterrupted call is a run

  /** run' continues run by the given steps only. */
  ghost predicate Continues(run: Run, run': Run, size: nat)
  {
    && run'.Valid(size)
    && run.states <= run'.states && run.steps <= run'.steps
  }

  lemma OneMore(run: Run, size: nat, step: Step) returns (run': Run)
    requires run.Valid(size) && Enabled(run.Last(), step)
    ensures Continues(run, run', size) && run'.Last() == Take(run.Last(), step)
    ensures run'.steps == run.steps + [step]
  {
    run' := run.Extend(step, Take(run.Last(), step));
  }

  /** The continuation proposes nothing new. */
  ghost predicate NoStarts(run: Run, run': Run)
  {
    |run.steps| <= |run'.steps| && forall i :: |run.steps| <= i < |run'.steps| ==> !run'.steps[i].Start?
  }

  lemma {:induction false} Phase1Run(run: Run, size: nat, i: nat, k: nat) returns (run': Run)
    requires run.Valid(size) && |run.Last().acceptors| == size && k <= size
    requires i < |run.Last().attempts| && run.Last().attempts[i].phase == Preparing && run.Last().attempts[i].next == 0
    ensures Continues(run, run', size) && NoStarts(run, run')
    ensures var s, s' := run.Last(), run'.Last();
      && s'.acceptors == PreparedUpTo(s.acceptors, s.attempts[i].n, k)
      && s'.attempts == s.attempts[i := Phase1(s.acceptors, s.attempts[i], k)]
  {
    var s := run.Last();
    if k == 0 {
      run' := run;
    } else {
      var mid := Phase1Run(run, size, i, k - 1);
      PhaseKept(s.acceptors, s.attempts[i], k - 1);
      run' := OneMore(mid, size, PrepareCall(i, Delivered));
      assert PreparedUpTo(s.acceptors, s.attempts[i].n, k - 1)[k - 1 := Prepared(s.acceptors[k - 1], s.attempts[i].n)]
          == PreparedUpTo(s.acceptors, s.attempts[i].n, k);
    }
  }

  lemma {:induction false} PhaseKept(acceptors: seq<Acceptor>, p: Attempt, k: nat)
    requires k <= |acceptors|
    ensures var q := Phase1(acceptors, p, k); q.phase == p.phase && q.n == p.n && (k > 0 || p.next == 0 ==> q.next == k)
    ensures var q := Phase2(acceptors, p, k);
      q.phase == p.phase && q.n == p.n && q.chosenV == p.chosenV && (k > 0 || p.next == 0 ==> q.next == k)
  {
    if k > 0 {
      PhaseKept(acceptors, p, k - 1);
    }
  }

  lemma {:induction false} Phase2Run(run: Run, size: nat, i: nat, k: nat) returns (run': Run)
    requires run.Valid(size) && |run.Last().acceptors| == size && k <= size
    requires i < |run.Last().attempts| && run.Last().attempts[i].phase == Accepting && run.Last().attempts[i].next == 0
    ensures Continues(run, run', size) && NoStarts(run, run')
    ensures var s, s' := run.Last(), run'.Last();
      && s'.acceptors == AcceptedUpTo(s.acceptors, s.attempts[i].n, s.attempts[i].chosenV, k)
      && s'.attempts == s.attempts[i := Phase2(s.acceptors, s.attempts[i], k)]
  {
    var s := run.Last();
    if k == 0 {
      run' := run;
    } else {
      var p := s.attempts[i];
      var mid := Phase2Run(run, size, i, k - 1);
      PhaseKept(s.acceptors, p, k - 1);
      run' := OneMore(mid, size, AcceptCall(i, Delivered));
      assert AcceptedUpTo(s.acceptors, p.n, p.chosenV, k - 1)[k - 1 := Accepted(s.acceptors[k - 1], p.n, p.chosenV)]
          == AcceptedUpTo(s.acceptors, p.n, p.chosenV, k);
    }
  }

  /** An uninterrupted Propose is a continuation of any run that ends in its acceptors. */
  lemma ProposeIsRun(run: Run, size: nat, n: nat, v: Choice) returns (run': Run)
    requires run.Valid(size) && |run.Last().acceptors| == size
    ensures Continues(run, run', size)
    ensures run'.Last().acceptors == Propose(run.Last().acceptors, n, v).acceptors
    ensures |run'.steps| > |run.steps| && run'.steps[|run.steps|] == Start(n, v)
    ensures forall i :: |run.steps| < i < |run'.steps| ==> !run'.steps[i].Start?
    ensures var i := |run.Last().attempts|;
      && |run'.Last().attempts| == i + 1
      && run'.Last().attempts[i].n == n
      && run'.Last().attempts[i].phase == Done(Propose(run.Last().acceptors, n, v).ok)
      && (Propose(run.Last().acceptors, n, v).ok ==>
          run'.Last().attempts[i].chosenV == Propose(run.Last().acceptors, n, v).chosen)
  {
    var s, i := run.Last(), |run.Last().attempts|;
    var r1 := OneMore(run, size, Start(n, v));
    var r2 := Phase1Run(r1, size, i, size);
    PhaseKept(s.acceptors, NewAttempt(n, v), size);
    var r3 := OneMore(r2, size, EndPrepare(i));
    var p := Phase1(s.acceptors, NewAttempt(n, v), size);
    if p.promises < Majority(size) {
      run' := r3;
    } else {
      var p2 := p.(phase := Accepting, next := 0);
      var prepared := PreparedUpTo(s.acceptors, n, size);
      var r4 := Phase2Run(r3, size, i, size);
      PhaseKept(prepared, p2, size);
      run' := OneMore(r4, size, EndAccept(i));
    }
  }

  // ---------------------------------------------------------------- what may be chosen

  /** Attempts carry, and acceptors hold, only values that were proposed. */
  lemma {:induction false} OnlyOffered(run: Run, size: nat, i: nat)
    requires run.Valid(size) && i < |run.states|
    ensures forall j :: 0 <= j < |run.states[i].attempts| ==> run.states[i].attempts[j].chosenV in Offered(run)
    ensures forall k :: 0 <= k < |run.states[i].acceptors| && run.states[i].acceptors[k].acceptedN > 0 ==>
      run.states[i].acceptors[k].acceptedV in Offered(run)
    decreases i
  {
    if i > 0 {
      OnlyOffered(run, size, i - 1);
      assert Next(run.states[i - 1], run.steps[i - 1], run.states[i]);
    }
  }

  /** Validity: a chosen value was proposed by somebody. */
  lemma ChosenWasOffered(run: Run, size: nat, n: nat, v: Choice)
    requires run.Valid(size) && Chosen(run, size, n, v)
    ensures v in Offered(run)
  {
    var q :| IsMajority(q, size) && AllAccepted(run, q, n, v);
    var k :| k in q;
    assert AcceptedIn(run, k, n, v);
    var i :| 0 <= i < |run.states| && Holds(run.states[i], k, n, v);
    OnlyOffered(run, size, i);
  }

  lemma OfferedNotNil(run: Run)
    ensures Proposes(run, NotNil) <==> None !in Offered(run)
  {
  }

  /** A continuation that starts one attempt offers its value and nothing else. */
  lemma OfferedGrows(run: Run, run': Run, n: nat, v: Choice)
    requires run.steps < run'.steps && run'.steps[|run.steps|] == Start(n, v)
    requires forall i :: |run.steps| < i < |run'.steps| ==> !run'.steps[i].Start?
    ensures Offered(run') == Offered(run) + {v}
  {
  }

  // ---------------------------------------------------------------- which values are safe to propose

  ghost predicate Agrees(run: Run, size: nat)
  {
    forall n1, v1, n2, v2 :: Chosen(run, size, n1, v1) && Chosen(run, size, n2, v2) ==> v1 == v2
  }

  /** Every run that proposes only allowed values agrees. */
  ghost predicate AlwaysAgrees(size: nat, allowed: Choice -> bool)
  {
    forall run: Run :: run.Valid(size) && Proposes(run, allowed) ==> Agrees(run, size)
  }

  /** Nothing but nil is ever accepted when nothing but nil is proposed. */
  ghost predicate OnlyNil(s: System)
  {
    && (forall k :: 0 <= k < |s.acceptors| ==> s.acceptors[k].acceptedV == None)
    && (forall i :: 0 <= i < |s.attempts| ==> s.attempts[i].chosenV == None)
  }

  lemma {:induction false} NilRun(run: Run, size: nat, i: nat)
    requires run.Valid(size) && Proposes(run, v => v == None) && i < |run.states|
    ensures OnlyNil(run.states[i])
    decreases i
  {
    if i > 0 {
      NilRun(run, size, i - 1);
      assert Next(run.states[i - 1], run.steps[i - 1], run.states[i]);
    }
  }

  lemma NilAgrees(run: Run, size: nat)
    requires run.Valid(size) && Proposes(run, v => v == None)
    ensures Agrees(run, size)
  {
    forall n, v | Chosen(run, size, n, v)
      ensures v == None
    {
      var q :| IsMajority(q, size) && AllAccepted(run, q, n, v);
      var k :| k in q;
      assert AcceptedIn(run, k, n, v);
      var i :| 0 <= i < |run.states| && Holds(run.states[i], k, n, v);
      NilRun(run, size, i);
    }
  }

  /** A fresh set of acceptors that all promised less than n accepts whatever it is offered. */
  lemma AllAcceptOwn(acceptors: seq<Acceptor>, n: nat, v: Choice)
    requires forall k :: 0 <= k < |acceptors| ==> acceptors[k].promisedN < n && acceptors[k].acceptedV == None
    requires |acceptors| > 0
    ensures Propose(acceptors, n, v).ok
    ensures Propose(acceptors, n, v).acceptors == seq(|acceptors|, _ => Acceptor(n, n, v))
  {
    AllWilling(acceptors, n, |acceptors|);
    SucceedsIffWilling(acceptors, n, v);
    AdoptsHighest(acceptors, NewAttempt(n, v), |acceptors|);
  }

  lemma {:induction false} AllWilling(acceptors: seq<Acceptor>, n: nat, k: nat)
    requires k <= |acceptors| && forall i :: 0 <= i < |acceptors| ==> acceptors[i].promisedN < n
    ensures Willing(acceptors, n, k) == k
  {
    if k > 0 {
      AllWilling(acceptors, n, k - 1);
    }
  }

  lemma EverybodyHolds(run: Run, size: nat, i: nat, n: nat, v: Choice)
    requires i < |run.states| && n > 0 && run.states[i].acceptors == seq(size, _ => Acceptor(n, n, v)) && size > 0
    ensures Chosen(run, size, n, v)
  {
    var q := S.Indices(size);
    forall k | k in q
      ensures AcceptedIn(run, k, n, v)
    {
      assert Holds(run.states[i], k, n, v);
    }
    assert IsMajority(q, size) && AllAccepted(run, q, n, v);
  }

  /** One proposal of nil, then one of w: both are chosen. */
  lemma NilThenValue(size: nat, w: string) returns (run: Run)
    requires size > 0
    ensures run.Valid(size) && Proposes(run, v => v == None || v == Some(w)) && !Agrees(run, size)
  {
    var r0 := Run([Init(size)], []);
    var r1 := ProposeIsRun(r0, size, 1, None);
    AllAcceptOwn(r0.Last().acceptors, 1, None);
    run := ProposeIsRun(r1, size, 2, Some(w));
    AllAcceptOwn(r1.Last().acceptors, 2, Some(w));
    assert run.states[|r1.states| - 1] == r1.Last();
    EverybodyHolds(run, size, |r1.states| - 1, 1, None);
    EverybodyHolds(run, size, |run.states| - 1, 2, Some(w));
    assert Chosen(run, size, 1, None) && Chosen(run, size, 2, Some(w));
  }

  lemma ProposesMore(run: Run, a: Choice -> bool, b: Choice -> bool)
    requires Proposes(run, a) && forall v :: a(v) ==> b(v)
    ensures Proposes(run, b)
  {
  }

  /** Agreement holds in every run iff nil is not proposed, or nothing else is. */
  lemma AgreesIffNilAlone(size: nat, allowed: Choice -> bool)
    requires size > 0
    ensures AlwaysAgrees(size, allowed) <==> !allowed(None) || forall v :: allowed(v) ==> v == None
  {
    if !allowed(None) {
      forall run: Run | run.Valid(size) && Proposes(run, allowed)
        ensures Agrees(run, size)
      {
        ProposesMore(run, allowed, NotNil);
        forall n1, v1, n2, v2 | Chosen(run, size, n1, v1) && Chosen(run, size, n2, v2)
          ensures v1 == v2
        {
          S.Agreement(run, size, n1, v1, n2, v2);
        }
      }
    } else if forall v :: allowed(v) ==> v == None {
      forall run: Run | run.Valid(size) && Proposes(run, allowed)
        ensures Agrees(run, size)
      {
        ProposesMore(run, allowed, v => v == None);
        NilAgrees(run, size);
      }
    } else {
      var v :| allowed(v) && v != None;
      var run := NilThenValue(size, v.value);
      ProposesMore(run, u => u == None || u == Some(v.value), allowed);
    }
  }
}
