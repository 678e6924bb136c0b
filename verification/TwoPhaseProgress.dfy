/**
 What two-phase commit achieves (internal/twopc/twopc.go): from any reachable state, a new transaction
 whose participants are up, willing and not holding its keys for others can run to its end, through a
 crash or not, and then exactly its decision has happened, everywhere.
 */
module TwoPhaseProgress {
  import opened TwoPhaseModel
  import opened TwoPhaseSafety

  ghost predicate RunTo(members: set<PartId>, tr: seq<System>, steps: seq<Step>, s: System)
  {
    IsRun(members, tr, steps) && tr[|steps|] == s
  }

  ghost predicate Reachable(members: set<PartId>, s: System)
  {
    exists tr, steps :: RunTo(members, tr, steps, s)
  }

  lemma ReachNext(members: set<PartId>, s: System, step: Step)
    requires Reachable(members, s) && Enabled(s, step)
    ensures Reachable(members, Take(s, step))
  {
    hide Take, Enabled;
    var tr, steps :| RunTo(members, tr, steps, s);
    var tr', steps' := tr + [Take(s, step)], steps + [step];
    forall i | 0 <= i < |steps'|
      ensures Next(tr'[i], steps'[i], tr'[i + 1])
    {
      if i < |steps| {
        assert Next(tr[i], steps[i], tr[i + 1]);
      }
    }
    assert RunTo(members, tr', steps', Take(s, step));
  }

  /** The plan is for participants that are up, willing and apart from it. */
  ghost predicate Uncontested(s: System, tx: TxId, plan: Plan)
  {
    && tx !in s.plans && plan.Keys <= s.parts.Keys
    && forall p :: p in plan ==> !s.parts[p].down && !s.parts[p].voteNo && Apart(s.parts[p], tx, plan[p])
  }

  /** From s on, only the transaction has moved: the done participants are as said, all others as they were. */
  ghost predicate Only(s: System, s': System, tx: TxId, plan: Plan, phase: Phase)
  {
    && s'.plans == s.plans[tx := plan] && s'.phases == s.phases[tx := phase] && s'.parts.Keys == s.parts.Keys
    && forall p :: p in s.parts && p !in plan ==> s'.parts[p] == s.parts[p]
  }

  ghost predicate Voted(s: System, s': System, tx: TxId, plan: Plan, todo: set<PartId>)
  {
    && plan.Keys <= s.parts.Keys && s'.parts.Keys == s.parts.Keys
    && forall p :: p in plan ==>
      s'.parts[p] == if p in todo then s.parts[p] else Prepare(s.parts[p], tx, plan[p])
  }

  lemma ReachLocks(members: set<PartId>, s: System, p: PartId, tx: TxId)
    requires Reachable(members, s) && p in s.parts && tx !in s.plans
    ensures LocksExact(s.parts[p]) && tx !in s.parts[p].staged
  {
    hide Next, SerialOk, LocksExact;
    var tr, steps :| RunTo(members, tr, steps, s);
    RunInv(members, tr, steps, |steps|);
    assert PartOk(p, s.parts[p], s.plans, s.phases, CommitLog(steps[..|steps|]));
  }

  lemma OneVote(s: System, s1: System, tx: TxId, plan: Plan, todo: set<PartId>, p: PartId)
    requires Only(s, s1, tx, plan, Preparing(todo)) && Voted(s, s1, tx, plan, todo)
    requires p in plan && p in todo && VoteOf(s.parts[p], tx, plan[p]) == Yes
    ensures Enabled(s1, PrepareStep(tx, p))
    ensures var s' := Take(s1, PrepareStep(tx, p));
      Only(s, s', tx, plan, Preparing(todo - {p})) && Voted(s, s', tx, plan, todo - {p})
  {
    hide VoteOf, Prepare;
  }

  lemma {:induction false} AllVote(members: set<PartId>, s: System, tx: TxId, plan: Plan, todo: set<PartId>)
    returns (s': System)
    requires Reachable(members, s) && Uncontested(s, tx, plan) && todo <= plan.Keys
    ensures Reachable(members, s') && Only(s, s', tx, plan, Preparing(todo)) && Voted(s, s', tx, plan, todo)
    decreases |plan.Keys - todo|
  {
    hide Reachable, Voted, Only, VoteOf, Apart, Take, Enabled, LocksExact;
    var rest := plan.Keys - todo;
    if rest == {} {
      assert todo == plan.Keys;
      Begins(s, tx, plan);
      ReachNext(members, s, BeginStep(tx, plan));
      s' := Take(s, BeginStep(tx, plan));
    } else {
      var p :| p in rest;
      assert plan.Keys - (todo + {p}) < rest;
      var s1 := AllVote(members, s, tx, plan, todo + {p});
      ReachLocks(members, s, p, tx);
      VoteByStaged(s.parts[p], tx, plan[p]);
      OneVote(s, s1, tx, plan, todo + {p}, p);
      ReachNext(members, s1, PrepareStep(tx, p));
      s' := Take(s1, PrepareStep(tx, p));
      assert todo + {p} - {p} == todo;
    }
  }

  lemma Begins(s: System, tx: TxId, plan: Plan)
    requires Uncontested(s, tx, plan)
    ensures Enabled(s, BeginStep(tx, plan))
    ensures var s' := Take(s, BeginStep(tx, plan));
      Only(s, s', tx, plan, Preparing(plan.Keys)) && Voted(s, s', tx, plan, plan.Keys)
  {
  }

  /** What a participant is left with: the writes or nothing, and no trace of the transaction. */
  function Ended(part: Part, writes: Writes, commit: bool): Part
  {
    if commit then part.(committed := part.committed + writes) else part
  }

  ghost predicate Resolved(s: System, s': System, tx: TxId, plan: Plan, commit: bool, todo: set<PartId>)
  {
    && plan.Keys <= s.parts.Keys && s'.parts.Keys == s.parts.Keys
    && forall p :: p in plan ==>
      s'.parts[p] == if p in todo then Prepare(s.parts[p], tx, plan[p]) else Ended(s.parts[p], plan[p], commit)
  }

  function Settles(part: Part, tx: TxId, commit: bool): Part
  {
    if commit then Commit(part, tx) else Abort(part, tx)
  }

  lemma PreparedResolves(part: Part, tx: TxId, writes: Writes, commit: bool)
    requires LocksExact(part) && tx !in part.staged && VoteOf(part, tx, writes) == Yes
    ensures Settles(Prepare(part, tx, writes), tx, commit) == Ended(part, writes, commit)
  {
    assert forall k :: k in part.locked ==> part.locked[k] != tx;
    var locked := part.locked + (map k | k in writes :: tx);
    assert Released(locked, tx, writes.Keys) == part.locked by { LocksBack(part, tx, writes); }
    assert part.staged[tx := writes] - {tx} == part.staged;
  }

  lemma LocksBack(part: Part, tx: TxId, writes: Writes)
    requires !Blocked(part.locked, tx, writes) && forall k :: k in part.locked ==> part.locked[k] != tx
    ensures Released(part.locked + (map k | k in writes :: tx), tx, writes.Keys) == part.locked
  {
  }

  lemma OneResolves(s: System, s2: System, tx: TxId, plan: Plan, commit: bool, todo: set<PartId>, p: PartId)
    requires Only(s, s2, tx, plan, Deciding(commit, todo)) && Resolved(s, s2, tx, plan, commit, todo)
    requires p in plan && p in todo && p in s.parts
    requires Settles(Prepare(s.parts[p], tx, plan[p]), tx, commit) == Ended(s.parts[p], plan[p], commit)
    ensures Enabled(s2, DeliverStep(tx, p))
    ensures var s' := Take(s2, DeliverStep(tx, p));
      Only(s, s', tx, plan, Deciding(commit, todo - {p})) && Resolved(s, s', tx, plan, commit, todo - {p})
  {
    hide Take, Prepare, Settles, Ended;
    Delivered(s2, tx, p);
  }

  lemma Delivered(s: System, tx: TxId, p: PartId)
    requires tx in s.phases && s.phases[tx].Deciding? && p in s.phases[tx].pending && p in s.parts
    ensures Enabled(s, DeliverStep(tx, p))
    ensures var ph := s.phases[tx];
      Take(s, DeliverStep(tx, p)) == System(s.parts[p := Settles(s.parts[p], tx, ph.commit)], s.plans,
                                            s.phases[tx := Deciding(ph.commit, ph.pending - {p})])
  {
    hide Commit, Abort;
  }

  lemma {:induction false} AllResolve(members: set<PartId>, s: System, tx: TxId, plan: Plan, s1: System, commit: bool,
                                      todo: set<PartId>)
    returns (s': System)
    requires Reachable(members, s) && Uncontested(s, tx, plan) && Reachable(members, s1) && todo <= plan.Keys
    requires Only(s, s1, tx, plan, Deciding(commit, plan.Keys)) && Resolved(s, s1, tx, plan, commit, plan.Keys)
    ensures Reachable(members, s') && Only(s, s', tx, plan, Deciding(commit, todo))
    ensures Resolved(s, s', tx, plan, commit, todo)
    decreases |plan.Keys - todo|
  {
    hide Reachable, Only, Resolved, VoteOf, Prepare, Commit, Abort, Apart, Ended, LocksExact, Take, Enabled;
    var rest := plan.Keys - todo;
    if rest == {} {
      assert todo == plan.Keys;
      s' := s1;
    } else {
      var p :| p in rest;
      assert plan.Keys - (todo + {p}) < rest;
      var s2 := AllResolve(members, s, tx, plan, s1, commit, todo + {p});
      ReachLocks(members, s, p, tx);
      VoteByStaged(s.parts[p], tx, plan[p]);
      PreparedResolves(s.parts[p], tx, plan[p], commit);
      OneResolves(s, s2, tx, plan, commit, todo + {p}, p);
      ReachNext(members, s2, DeliverStep(tx, p));
      s' := Take(s2, DeliverStep(tx, p));
      assert todo + {p} - {p} == todo;
    }
  }

  /** Everyone has voted: the coordinator decides, or crashes and is told what to decide. */
  lemma Decides(members: set<PartId>, s: System, tx: TxId, plan: Plan, s1: System, crash: bool, decision: bool)
    returns (s': System)
    requires Reachable(members, s1) && Only(s, s1, tx, plan, Preparing({})) && Voted(s, s1, tx, plan, {})
    ensures Reachable(members, s') && Only(s, s', tx, plan, Deciding(!crash || decision, plan.Keys))
    ensures Resolved(s, s', tx, plan, !crash || decision, plan.Keys)
  {
    hide Reachable, Prepare, Ended;
    if crash {
      ReachNext(members, s1, CrashStep(tx));
      var s0 := Take(s1, CrashStep(tx));
      ReachNext(members, s0, RecoverStep(tx, decision));
      s' := Take(s0, RecoverStep(tx, decision));
    } else {
      ReachNext(members, s1, DecideStep(tx));
      s' := Take(s1, DecideStep(tx));
    }
  }

  /**
   A transaction nobody contests runs to its end. Without a crash it commits; after a crash it ends as
   recovery decides. Either way its participants are left with its writes, or as they were, and
   nobody else notices.
   */
  lemma UncontestedEnds(members: set<PartId>, s: System, tx: TxId, plan: Plan, crash: bool, decision: bool)
    returns (s': System)
    requires Reachable(members, s) && Uncontested(s, tx, plan)
    ensures Reachable(members, s') && s'.parts.Keys == s.parts.Keys
    ensures forall p :: p in plan && (!crash || decision) ==>
      s'.parts[p] == s.parts[p].(committed := s.parts[p].committed + plan[p])
    ensures forall p :: p in plan && crash && !decision ==> s'.parts[p] == s.parts[p]
    ensures forall p :: p in s.parts && p !in plan ==> s'.parts[p] == s.parts[p]
  {
    hide Reachable, Voted, Take;
    var s1 := AllVote(members, s, tx, plan, {});
    var s2 := Decides(members, s, tx, plan, s1, crash, decision);
    s' := AllResolve(members, s, tx, plan, s2, !crash || decision, {});
  }
}
