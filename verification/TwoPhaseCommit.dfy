/**
 Two-phase commit with coordinator crashes (internal/twopc/twopc.go).

 Any number of coordinators run transactions at once, each call on a participant being one step. A
 transaction id is used once, and one decision is delivered to all participants of a transaction.
 */
module TwoPhaseModel {
  datatype PartId = PartId(name: string)

  type TxId = string

  type Writes = map<string, seq<bv8>>

  /** One participant: committed state, staged writes by transaction, and the owner of each lock. */
  datatype Part = Part(
    committed: Writes, staged: map<TxId, Writes>, locked: map<string, TxId>, voteNo: bool, down: bool)

  const NEW_PART := Part(map[], map[], map[], false, false)

  datatype Vote = Yes | No | Failed

  /** Some key is locked by another transaction. */
  ghost predicate Blocked(locked: map<string, TxId>, tx: TxId, writes: Writes)
  {
    exists k :: k in writes && k in locked && locked[k] != tx
  }

  ghost function VoteOf(p: Part, tx: TxId, writes: Writes): Vote
  {
    if p.down then Failed else if p.voteNo || Blocked(p.locked, tx, writes) then No else Yes
  }

  ghost function Prepare(p: Part, tx: TxId, writes: Writes): Part
  {
    if VoteOf(p, tx, writes) == Yes then
      p.(staged := p.staged[tx := writes], locked := p.locked + (map k | k in writes :: tx))
    else p
  }

  function Released(locked: map<string, TxId>, tx: TxId, keys: set<string>): map<string, TxId>
  {
    map k | k in locked && !(k in keys && locked[k] == tx) :: locked[k]
  }

  function Commit(p: Part, tx: TxId): Part
  {
    if tx !in p.staged then p
    else p.(committed := p.committed + p.staged[tx], staged := p.staged - {tx},
            locked := Released(p.locked, tx, p.staged[tx].Keys))
  }

  function Abort(p: Part, tx: TxId): Part
  {
    if tx !in p.staged then p
    else p.(staged := p.staged - {tx}, locked := Released(p.locked, tx, p.staged[tx].Keys))
  }

  // ---------------------------------------------------------------- coordinators

  type Plan = map<PartId, Writes>

  /** Where a transaction's coordinator is: collecting votes, crashed in doubt, or delivering its decision. */
  datatype Phase = Preparing(pending: set<PartId>) | InDoubt | Deciding(commit: bool, pending: set<PartId>)

  datatype System = System(parts: map<PartId, Part>, plans: map<TxId, Plan>, phases: map<TxId, Phase>)

  datatype Step =
    | BeginStep(tx: TxId, plan: Plan)
    | PrepareStep(tx: TxId, p: PartId)
    | DecideStep(tx: TxId)
    | CrashStep(tx: TxId)
    | RecoverStep(tx: TxId, decision: bool)
    | DeliverStep(tx: TxId, p: PartId)
    | ConfigureStep(p: PartId, voteNo: bool, down: bool)

  function Init(members: set<PartId>): System
  {
    System(map p | p in members :: NEW_PART, map[], map[])
  }

  ghost predicate Enabled(s: System, step: Step)
  {
    match step
    case BeginStep(tx, plan) => tx !in s.plans && plan.Keys <= s.parts.Keys
    case PrepareStep(tx, p) =>
      tx in s.plans && tx in s.phases && s.phases[tx].Preparing? && p in s.phases[tx].pending && p in s.plans[tx]
        && p in s.parts
    case DecideStep(tx) => tx in s.plans && tx in s.phases && s.phases[tx] == Preparing({})
    case CrashStep(tx) => tx in s.plans && tx in s.phases && s.phases[tx] == Preparing({})
    case RecoverStep(tx, _) => tx in s.plans && tx in s.phases && s.phases[tx] == InDoubt
    case DeliverStep(tx, p) => tx in s.phases && s.phases[tx].Deciding? && p in s.phases[tx].pending && p in s.parts
    case ConfigureStep(p, _, _) => p in s.parts
  }

  ghost function AfterVote(s: System, tx: TxId, p: PartId): Phase
    requires Enabled(s, PrepareStep(tx, p))
  {
    if VoteOf(s.parts[p], tx, s.plans[tx][p]) == Yes then Preparing(s.phases[tx].pending - {p})
    else Deciding(false, s.plans[tx].Keys)
  }

  ghost function Take(s: System, step: Step): System
    requires Enabled(s, step)
  {
    match step
    case BeginStep(tx, plan) => s.(plans := s.plans[tx := plan], phases := s.phases[tx := Preparing(plan.Keys)])
    case PrepareStep(tx, p) =>
      s.(parts := s.parts[p := Prepare(s.parts[p], tx, s.plans[tx][p])], phases := s.phases[tx := AfterVote(s, tx, p)])
    case DecideStep(tx) => s.(phases := s.phases[tx := Deciding(true, s.plans[tx].Keys)])
    case CrashStep(tx) => s.(phases := s.phases[tx := InDoubt])
    case RecoverStep(tx, decision) => s.(phases := s.phases[tx := Deciding(decision, s.plans[tx].Keys)])
    case DeliverStep(tx, p) =>
      var ph := s.phases[tx];
      s.(parts := s.parts[p := if ph.commit then Commit(s.parts[p], tx) else Abort(s.parts[p], tx)],
         phases := s.phases[tx := Deciding(ph.commit, ph.pending - {p})])
    case ConfigureStep(p, voteNo, down) =>
      s.(parts := s.parts[p := s.parts[p].(voteNo := voteNo, down := down)])
  }

  ghost predicate Next(s: System, step: Step, s': System)
  {
    Enabled(s, step) && s' == Take(s, step)
  }

  ghost predicate IsRun(members: set<PartId>, tr: seq<System>, steps: seq<Step>)
  {
    && |tr| == |steps| + 1
    && tr[0] == Init(members)
    && forall i :: 0 <= i < |steps| ==> Next(tr[i], steps[i], tr[i + 1])
  }

  // ---------------------------------------------------------------- the serial meaning

  predicate Commits(step: Step)
  {
    step.DecideStep? || (step.RecoverStep? && step.decision)
  }

  /** The committed transactions in the order they were decided. */
  function CommitLog(steps: seq<Step>): seq<TxId>
  {
    if steps == [] then []
    else CommitLog(steps[..|steps| - 1]) + if Commits(steps[|steps| - 1]) then [steps[|steps| - 1].tx] else []
  }

  function WritesAt(plans: map<TxId, Plan>, tx: TxId, p: PartId): Writes
  {
    if tx in plans && p in plans[tx] then plans[tx][p] else map[]
  }

  /** What a participant holds after running whole transactions one after the other. */
  function Serial(log: seq<TxId>, plans: map<TxId, Plan>, p: PartId): Writes
  {
    if log == [] then map[] else Serial(log[..|log| - 1], plans, p) + WritesAt(plans, log[|log| - 1], p)
  }
}

module TwoPhaseSafety {
  import opened TwoPhaseModel

  // ---------------------------------------------------------------- locks

  /** The lock table is the disjoint union of the staged key sets. */
  ghost predicate LocksExact(part: Part)
  {
    && (forall k :: k in part.locked ==> part.locked[k] in part.staged && k in part.staged[part.locked[k]])
    && (forall tx, k :: tx in part.staged && k in part.staged[tx] ==> k in part.locked && part.locked[k] == tx)
  }

  lemma PrepareKeepsLocks(part: Part, tx: TxId, writes: Writes)
    requires LocksExact(part) && tx !in part.staged
    ensures LocksExact(Prepare(part, tx, writes))
  {
  }

  lemma ResolveKeepsLocks(part: Part, tx: TxId)
    requires LocksExact(part)
    ensures LocksExact(Commit(part, tx)) && LocksExact(Abort(part, tx))
  {
  }

  // ---------------------------------------------------------------- who holds what

  predicate MustHold(ph: Phase, p: PartId)
  {
    match ph
    case Preparing(pending) => p !in pending
    case InDoubt => true
    case Deciding(commit, pending) => commit && p in pending
  }

  predicate MayHold(ph: Phase, p: PartId)
  {
    MustHold(ph, p) || (ph.Deciding? && p in ph.pending)
  }

  /** What is staged is the transaction's plan, from its vote until its decision arrives. */
  ghost predicate StagedExact(p: PartId, staged: map<TxId, Writes>, plans: map<TxId, Plan>, phases: map<TxId, Phase>)
  {
    && (forall tx :: tx in staged ==>
      tx in plans && p in plans[tx] && tx in phases && staged[tx] == plans[tx][p] && MayHold(phases[tx], p))
    && (forall tx :: tx in plans && p in plans[tx] && tx in phases && MustHold(phases[tx], p) ==> tx in staged)
  }

  lemma VoteKeepsStaged(p: PartId, s: System, tx: TxId)
    requires Enabled(s, PrepareStep(tx, p)) && StagedExact(p, s.parts[p].staged, s.plans, s.phases)
    ensures tx !in s.parts[p].staged
    ensures StagedExact(p, Prepare(s.parts[p], tx, s.plans[tx][p]).staged, s.plans, s.phases[tx := AfterVote(s, tx, p)])
  {
    hide Blocked;
  }

  lemma DeliverKeepsStaged(p: PartId, part: Part, plans: map<TxId, Plan>, phases: map<TxId, Phase>, tx: TxId)
    requires StagedExact(p, part.staged, plans, phases) && tx in phases && phases[tx].Deciding?
    ensures Commit(part, tx).staged == Abort(part, tx).staged
    ensures StagedExact(p, Commit(part, tx).staged, plans,
      phases[tx := Deciding(phases[tx].commit, phases[tx].pending - {p})])
  {
  }

  predicate Decided(phases: map<TxId, Phase>, tx: TxId)
  {
    tx in phases && phases[tx].Deciding? && phases[tx].commit
  }

  /** The key's lock belongs to a transaction that has decided to commit. */
  predicate Promised(part: Part, phases: map<TxId, Phase>, k: string)
  {
    k in part.locked && Decided(phases, part.locked[k]) && part.locked[k] in part.staged
      && k in part.staged[part.locked[k]]
  }

  ghost predicate Same(a: Writes, b: Writes, k: string)
  {
    (k in a <==> k in b) && (k in a && k in b ==> a[k] == b[k])
  }

  /** The serial result is the committed state with the promised writes laid over it. */
  ghost predicate SerialAt(part: Part, phases: map<TxId, Phase>, serial: Writes, k: string)
  {
    if Promised(part, phases, k) then k in serial && serial[k] == part.staged[part.locked[k]][k]
    else Same(serial, part.committed, k)
  }

  ghost predicate SerialOk(part: Part, phases: map<TxId, Phase>, serial: Writes)
  {
    forall k :: SerialAt(part, phases, serial, k)
  }

  ghost predicate PartOk(p: PartId, part: Part, plans: map<TxId, Plan>, phases: map<TxId, Phase>, log: seq<TxId>)
  {
    && LocksExact(part)
    && StagedExact(p, part.staged, plans, phases)
    && SerialOk(part, phases, Serial(log, plans, p))
  }

  /** Exactly the transactions decided to commit are in the log; planned and phased are the same. */
  ghost predicate LogOk(plans: map<TxId, Plan>, phases: map<TxId, Phase>, log: seq<TxId>)
  {
    && plans.Keys == phases.Keys
    && (forall tx :: tx in log <==> tx in phases && phases[tx].Deciding? && phases[tx].commit)
    && (forall i, j :: 0 <= i < j < |log| ==> log[i] != log[j])
    && (forall tx :: tx in phases && !phases[tx].InDoubt? ==> phases[tx].pending <= plans[tx].Keys)
  }

  ghost predicate Inv(s: System, log: seq<TxId>)
  {
    && LogOk(s.plans, s.phases, log)
    && forall p :: p in s.parts ==> PartOk(p, s.parts[p], s.plans, s.phases, log)
  }

  // ---------------------------------------------------------------- the log

  lemma {:induction false} SerialStable(log: seq<TxId>, plans: map<TxId, Plan>, plans': map<TxId, Plan>, p: PartId)
    requires forall tx :: tx in log ==> tx in plans && tx in plans' && plans'[tx] == plans[tx]
    ensures Serial(log, plans', p) == Serial(log, plans, p)
  {
    if log != [] {
      SerialStable(log[..|log| - 1], plans, plans', p);
    }
  }

  lemma SerialMore(log: seq<TxId>, plans: map<TxId, Plan>, p: PartId, tx: TxId)
    ensures Serial(log + [tx], plans, p) == Serial(log, plans, p) + WritesAt(plans, tx, p)
  {
    assert (log + [tx])[..|log|] == log;
  }

  function LogAfter(log: seq<TxId>, step: Step): seq<TxId>
  {
    if Commits(step) then log + [step.tx] else log
  }

  lemma StepKeepsLog(s: System, step: Step, s': System, log: seq<TxId>)
    requires Next(s, step, s') && LogOk(s.plans, s.phases, log)
    ensures LogOk(s'.plans, s'.phases, LogAfter(log, step))
  {
  }

  // ---------------------------------------------------------------- one participant: the serial result

  lemma PhaseKeepsSerial(part: Part, phases: map<TxId, Phase>, phases': map<TxId, Phase>, serial: Writes)
    requires SerialOk(part, phases, serial) && forall tx :: Decided(phases, tx) <==> Decided(phases', tx)
    ensures SerialOk(part, phases', serial)
  {
    hide Decided;
    forall k: string
      ensures SerialAt(part, phases', serial, k)
    {
      assert SerialAt(part, phases, serial, k);
    }
  }

  lemma PrepareKeepsSerial(part: Part, tx: TxId, writes: Writes, phases: map<TxId, Phase>, serial: Writes)
    requires LocksExact(part) && SerialOk(part, phases, serial) && tx !in part.staged && !Decided(phases, tx)
    ensures SerialOk(Prepare(part, tx, writes), phases, serial)
  {
    hide Decided;
    var part' := Prepare(part, tx, writes);
    forall k: string
      ensures SerialAt(part', phases, serial, k)
    {
      assert SerialAt(part, phases, serial, k);
    }
  }

  lemma DecideKeepsSerial(part: Part, tx: TxId, writes: Writes, phases: map<TxId, Phase>, phases': map<TxId, Phase>,
      serial: Writes)
    requires LocksExact(part) && SerialOk(part, phases, serial) && !Decided(phases, tx) && Decided(phases', tx)
    requires forall t :: t != tx ==> (Decided(phases, t) <==> Decided(phases', t))
    requires if tx in part.staged then part.staged[tx] == writes else writes == map[]
    ensures SerialOk(part, phases', serial + writes)
  {
    hide Decided;
    forall k: string
      ensures SerialAt(part, phases', serial + writes, k)
    {
      assert SerialAt(part, phases, serial, k);
    }
  }

  lemma CommitKeepsSerial(part: Part, tx: TxId, phases: map<TxId, Phase>, serial: Writes)
    requires LocksExact(part) && SerialOk(part, phases, serial) && Decided(phases, tx)
    ensures SerialOk(Commit(part, tx), phases, serial)
  {
    hide Decided;
    forall k: string
      ensures SerialAt(Commit(part, tx), phases, serial, k)
    {
      assert SerialAt(part, phases, serial, k);
    }
  }

  lemma AbortKeepsSerial(part: Part, tx: TxId, phases: map<TxId, Phase>, serial: Writes)
    requires LocksExact(part) && SerialOk(part, phases, serial) && !Decided(phases, tx)
    ensures SerialOk(Abort(part, tx), phases, serial)
  {
    hide Decided;
    forall k: string
      ensures SerialAt(Abort(part, tx), phases, serial, k)
    {
      assert SerialAt(part, phases, serial, k);
    }
  }

  // ---------------------------------------------------------------- one participant: every step

  lemma BeginKeepsPart(p: PartId, part: Part, s: System, tx: TxId, plan: Plan, log: seq<TxId>)
    requires PartOk(p, part, s.plans, s.phases, log) && LogOk(s.plans, s.phases, log) && tx !in s.plans
    ensures PartOk(p, part, s.plans[tx := plan], s.phases[tx := Preparing(plan.Keys)], log)
  {
    hide LocksExact, Serial, SerialOk;
    assert tx !in s.phases.Keys;
    forall t | t in log
      ensures t in s.plans
    {
      assert t in s.phases.Keys;
    }
    SerialStable(log, s.plans, s.plans[tx := plan], p);
    PhaseKeepsSerial(part, s.phases, s.phases[tx := Preparing(plan.Keys)], Serial(log, s.plans, p));
  }

  lemma VoteKeepsPart(p: PartId, s: System, tx: TxId, log: seq<TxId>)
    requires Enabled(s, PrepareStep(tx, p)) && PartOk(p, s.parts[p], s.plans, s.phases, log)
    ensures PartOk(p, Prepare(s.parts[p], tx, s.plans[tx][p]), s.plans, s.phases[tx := AfterVote(s, tx, p)], log)
  {
    hide Serial, SerialOk, LocksExact, VoteOf, Prepare, StagedExact;
    VoteKeepsStaged(p, s, tx);
    PrepareKeepsLocks(s.parts[p], tx, s.plans[tx][p]);
    PrepareKeepsSerial(s.parts[p], tx, s.plans[tx][p], s.phases, Serial(log, s.plans, p));
    PhaseKeepsSerial(Prepare(s.parts[p], tx, s.plans[tx][p]), s.phases, s.phases[tx := AfterVote(s, tx, p)],
      Serial(log, s.plans, p));
  }

  lemma VoteElsewhereKeepsPart(p: PartId, q: PartId, part: Part, s: System, tx: TxId, log: seq<TxId>)
    requires Enabled(s, PrepareStep(tx, p)) && p != q && PartOk(q, part, s.plans, s.phases, log)
    ensures PartOk(q, part, s.plans, s.phases[tx := AfterVote(s, tx, p)], log)
  {
    hide Serial, SerialOk, LocksExact, VoteOf;
    PhaseKeepsSerial(part, s.phases, s.phases[tx := AfterVote(s, tx, p)], Serial(log, s.plans, q));
  }

  lemma DecisionKeepsPart(p: PartId, part: Part, s: System, tx: TxId, commit: bool, log: seq<TxId>)
    requires PartOk(p, part, s.plans, s.phases, log) && tx in s.plans && tx in s.phases
    requires s.phases[tx] == Preparing({}) || s.phases[tx] == InDoubt
    ensures PartOk(p, part, s.plans, s.phases[tx := Deciding(commit, s.plans[tx].Keys)],
      if commit then log + [tx] else log)
  {
    hide Serial, SerialOk, LocksExact;
    var phases' := s.phases[tx := Deciding(commit, s.plans[tx].Keys)];
    if commit {
      SerialMore(log, s.plans, p, tx);
      DecideKeepsSerial(part, tx, WritesAt(s.plans, tx, p), s.phases, phases', Serial(log, s.plans, p));
    } else {
      PhaseKeepsSerial(part, s.phases, phases', Serial(log, s.plans, p));
    }
  }

  lemma CrashKeepsPart(p: PartId, part: Part, s: System, tx: TxId, log: seq<TxId>)
    requires PartOk(p, part, s.plans, s.phases, log) && tx in s.phases && s.phases[tx] == Preparing({})
    ensures PartOk(p, part, s.plans, s.phases[tx := InDoubt], log)
  {
    hide LocksExact, Serial, SerialOk;
    PhaseKeepsSerial(part, s.phases, s.phases[tx := InDoubt], Serial(log, s.plans, p));
  }

  lemma DeliverKeepsPart(p: PartId, part: Part, s: System, tx: TxId, log: seq<TxId>)
    requires PartOk(p, part, s.plans, s.phases, log) && tx in s.phases && s.phases[tx].Deciding?
      && p in s.phases[tx].pending
    ensures var ph := s.phases[tx];
      PartOk(p, if ph.commit then Commit(part, tx) else Abort(part, tx), s.plans,
        s.phases[tx := Deciding(ph.commit, ph.pending - {p})], log)
  {
    hide LocksExact, Serial, SerialOk, StagedExact, Commit, Abort;
    var ph := s.phases[tx];
    DeliverKeepsStaged(p, part, s.plans, s.phases, tx);
    var part' := if ph.commit then Commit(part, tx) else Abort(part, tx);
    ResolveKeepsLocks(part, tx);
    if ph.commit {
      CommitKeepsSerial(part, tx, s.phases, Serial(log, s.plans, p));
    } else {
      AbortKeepsSerial(part, tx, s.phases, Serial(log, s.plans, p));
    }
    PhaseKeepsSerial(part', s.phases, s.phases[tx := Deciding(ph.commit, ph.pending - {p})], Serial(log, s.plans, p));
  }

  lemma DeliverElsewhereKeepsPart(p: PartId, q: PartId, part: Part, s: System, tx: TxId, log: seq<TxId>)
    requires PartOk(q, part, s.plans, s.phases, log) && tx in s.phases && s.phases[tx].Deciding? && p != q
    ensures var ph := s.phases[tx]; PartOk(q, part, s.plans, s.phases[tx := Deciding(ph.commit, ph.pending - {p})], log)
  {
    hide LocksExact, Serial, SerialOk;
    var ph := s.phases[tx];
    PhaseKeepsSerial(part, s.phases, s.phases[tx := Deciding(ph.commit, ph.pending - {p})], Serial(log, s.plans, q));
  }

  // ---------------------------------------------------------------- whole runs

  lemma StepKeepsInv(s: System, step: Step, s': System, log: seq<TxId>)
    requires Next(s, step, s') && Inv(s, log)
    ensures Inv(s', LogAfter(log, step))
  {
    hide PartOk, LogOk;
    StepKeepsLog(s, step, s', log);
    forall q | q in s'.parts
      ensures PartOk(q, s'.parts[q], s'.plans, s'.phases, LogAfter(log, step))
    {
      match step
      case BeginStep(tx, plan) => BeginKeepsPart(q, s.parts[q], s, tx, plan, log);
      case PrepareStep(tx, p) =>
        if p == q {
          VoteKeepsPart(p, s, tx, log);
        } else {
          VoteElsewhereKeepsPart(p, q, s.parts[q], s, tx, log);
        }
      case DecideStep(tx) => DecisionKeepsPart(q, s.parts[q], s, tx, true, log);
      case CrashStep(tx) => CrashKeepsPart(q, s.parts[q], s, tx, log);
      case RecoverStep(tx, decision) => DecisionKeepsPart(q, s.parts[q], s, tx, decision, log);
      case DeliverStep(tx, p) =>
        if p == q {
          DeliverKeepsPart(p, s.parts[p], s, tx, log);
        } else {
          DeliverElsewhereKeepsPart(p, q, s.parts[q], s, tx, log);
        }
      case ConfigureStep(p, voteNo, down) => ConfigureKeepsPart(q, s.parts[q], s, voteNo, down, log);
    }
  }

  lemma ConfigureKeepsPart(p: PartId, part: Part, s: System, voteNo: bool, down: bool, log: seq<TxId>)
    requires PartOk(p, part, s.plans, s.phases, log)
    ensures PartOk(p, part.(voteNo := voteNo, down := down), s.plans, s.phases, log)
  {
    hide Serial;
    var serial := Serial(log, s.plans, p);
    forall k: string
      ensures SerialAt(part.(voteNo := voteNo, down := down), s.phases, serial, k)
    {
      assert SerialAt(part, s.phases, serial, k);
    }
  }

  lemma InitInv(members: set<PartId>)
    ensures Inv(Init(members), [])
  {
  }

  lemma LogNext(steps: seq<Step>, i: nat)
    requires 0 < i <= |steps|
    ensures CommitLog(steps[..i]) == LogAfter(CommitLog(steps[..i - 1]), steps[i - 1])
  {
    assert steps[..i][..i - 1] == steps[..i - 1] && steps[..i][i - 1] == steps[i - 1];
  }

  lemma {:induction false} RunInv(members: set<PartId>, tr: seq<System>, steps: seq<Step>, i: nat)
    requires IsRun(members, tr, steps) && i < |tr|
    ensures Inv(tr[i], CommitLog(steps[..i]))
  {
    hide Next, Inv;
    if i == 0 {
      InitInv(members);
    } else {
      RunInv(members, tr, steps, i - 1);
      assert Next(tr[i - 1], steps[i - 1], tr[i]);
      StepKeepsInv(tr[i - 1], steps[i - 1], tr[i], CommitLog(steps[..i - 1]));
      LogNext(steps, i);
    }
  }

  /** In every reachable state, on every participant, the lock table is the disjoint union of the staged key sets. */
  lemma LocksAlwaysExact(members: set<PartId>, tr: seq<System>, steps: seq<Step>, i: nat, p: PartId, k: string)
    requires IsRun(members, tr, steps) && i < |tr| && p in tr[i].parts
    ensures var part := tr[i].parts[p];
      && (k in part.locked <==> exists tx :: tx in part.staged && k in part.staged[tx])
      && (forall tx :: tx in part.staged && k in part.staged[tx] ==> part.locked[k] == tx)
  {
    hide Next, StagedExact, SerialOk, LogOk;
    RunInv(members, tr, steps, i);
    assert PartOk(p, tr[i].parts[p], tr[i].plans, tr[i].phases, CommitLog(steps[..i]));
  }

  /** No other transaction has staged one of these keys. */
  ghost predicate Apart(part: Part, tx: TxId, writes: Writes)
  {
    forall t :: t in part.staged && t != tx ==> part.staged[t].Keys !! writes.Keys
  }

  /**
   In every reachable state a participant that is up and willing votes for a transaction exactly if no
   other transaction has staged one of its keys.
   */
  lemma VotesYesIff(members: set<PartId>, tr: seq<System>, steps: seq<Step>, i: nat, p: PartId, tx: TxId,
      writes: Writes)
    requires IsRun(members, tr, steps) && i < |tr| && p in tr[i].parts
    ensures var part := tr[i].parts[p];
      && (VoteOf(part, tx, writes) == Failed <==> part.down)
      && (VoteOf(part, tx, writes) == Yes <==> !part.down && !part.voteNo && Apart(part, tx, writes))
  {
    hide Next, StagedExact, SerialOk, LogOk;
    RunInv(members, tr, steps, i);
    assert PartOk(p, tr[i].parts[p], tr[i].plans, tr[i].phases, CommitLog(steps[..i]));
    VoteByStaged(tr[i].parts[p], tx, writes);
  }

  lemma VoteByStaged(part: Part, tx: TxId, writes: Writes)
    requires LocksExact(part)
    ensures VoteOf(part, tx, writes) == Failed <==> part.down
    ensures VoteOf(part, tx, writes) == Yes <==> !part.down && !part.voteNo && Apart(part, tx, writes)
  {
    if Blocked(part.locked, tx, writes) {
      var k :| k in writes && k in part.locked && part.locked[k] != tx;
      assert k in part.staged[part.locked[k]].Keys && k in writes.Keys;
    } else {
      forall t | t in part.staged && t != tx
        ensures part.staged[t].Keys !! writes.Keys
      {
        forall k | k in part.staged[t].Keys
          ensures k !in writes.Keys
        {
          assert k in part.locked && part.locked[k] == t;
        }
      }
    }
  }

  /** Every commit decision on this participant has been delivered. */
  ghost predicate Settled(s: System, p: PartId)
  {
    forall tx :: tx in s.phases && s.phases[tx].Deciding? && s.phases[tx].commit ==> p !in s.phases[tx].pending
  }

  /**
   In every run, once the commits decided so far have reached a participant, its committed state is
   the serial application of exactly the committed transactions, each whole, in decision order.
   Prepared, in-doubt and aborted transactions leave no trace.
   */
  lemma CommittedIsSerial(members: set<PartId>, tr: seq<System>, steps: seq<Step>, i: nat, p: PartId)
    requires IsRun(members, tr, steps) && i < |tr| && p in tr[i].parts && Settled(tr[i], p)
    ensures tr[i].parts[p].committed == Serial(CommitLog(steps[..i]), tr[i].plans, p)
  {
    hide Next, Serial, LocksExact;
    RunInv(members, tr, steps, i);
    var part := tr[i].parts[p];
    var serial := Serial(CommitLog(steps[..i]), tr[i].plans, p);
    assert PartOk(p, part, tr[i].plans, tr[i].phases, CommitLog(steps[..i]));
    forall k
      ensures Same(serial, part.committed, k)
    {
      assert SerialAt(part, tr[i].phases, serial, k);
    }
    assert forall k :: k in serial ==> Same(serial, part.committed, k);
    assert forall k :: k in part.committed ==> Same(serial, part.committed, k);
  }

  /** A transaction is in the log exactly when its decision was to commit, and then once. */
  lemma LogIsCommitted(members: set<PartId>, tr: seq<System>, steps: seq<Step>, i: nat, tx: TxId)
    requires IsRun(members, tr, steps) && i < |tr|
    ensures tx in CommitLog(steps[..i]) <==> tx in tr[i].phases && tr[i].phases[tx].Deciding? && tr[i].phases[tx].commit
    ensures forall a, b :: 0 <= a < b < |CommitLog(steps[..i])| ==> CommitLog(steps[..i])[a] != CommitLog(steps[..i])[b]
  {
    RunInv(members, tr, steps, i);
  }

  // ---------------------------------------------------------------- recovery in any order

  /** The transactions write different keys of the participant. */
  ghost predicate Disjoint(txs: seq<TxId>, plans: map<TxId, Plan>, p: PartId)
  {
    forall i, j :: 0 <= i < j < |txs| ==> WritesAt(plans, txs[i], p).Keys !! WritesAt(plans, txs[j], p).Keys
  }

  /** Appending disjoint transactions: each key comes from the one that writes it, or from before. */
  lemma {:induction false} SerialAfter(log: seq<TxId>, txs: seq<TxId>, plans: map<TxId, Plan>, p: PartId, k: string)
    requires Disjoint(txs, plans, p)
    ensures forall tx :: tx in txs && k in WritesAt(plans, tx, p) ==>
      k in Serial(log + txs, plans, p) && Serial(log + txs, plans, p)[k] == WritesAt(plans, tx, p)[k]
    ensures (forall tx :: tx in txs ==> k !in WritesAt(plans, tx, p)) ==>
      Same(Serial(log + txs, plans, p), Serial(log, plans, p), k)
  {
    if txs == [] {
      assert log + txs == log;
    } else {
      var init, last := txs[..|txs| - 1], txs[|txs| - 1];
      assert txs == init + [last] && log + txs == log + init + [last];
      SerialAfter(log, init, plans, p, k);
      SerialMore(log + init, plans, p, last);
    }
  }

  lemma SerialPermuted(log: seq<TxId>, txs: seq<TxId>, txs': seq<TxId>, plans: map<TxId, Plan>, p: PartId)
    requires Disjoint(txs, plans, p) && Disjoint(txs', plans, p) && forall tx :: tx in txs <==> tx in txs'
    ensures Serial(log + txs, plans, p) == Serial(log + txs', plans, p)
  {
    hide Serial, Disjoint, WritesAt;
    var a, b := Serial(log + txs, plans, p), Serial(log + txs', plans, p);
    forall k
      ensures Same(a, b, k)
    {
      SerialAfter(log, txs, plans, p, k);
      SerialAfter(log, txs', plans, p, k);
      if tx :| tx in txs && k in WritesAt(plans, tx, p) {
        assert tx in txs';
      }
    }
    assert forall k :: k in a ==> Same(a, b, k);
    assert forall k :: k in b ==> Same(a, b, k);
  }

  /** In-doubt transactions hold their locks, so they write different keys. */
  lemma InDoubtDisjoint(s: System, log: seq<TxId>, p: PartId, txs: seq<TxId>)
    requires Inv(s, log) && p in s.parts
    requires forall tx :: tx in txs ==> tx in s.plans && tx in s.phases && s.phases[tx].InDoubt?
    requires forall i, j :: 0 <= i < j < |txs| ==> txs[i] != txs[j]
    ensures Disjoint(txs, s.plans, p)
  {
    var part := s.parts[p];
    assert PartOk(p, part, s.plans, s.phases, log);
    forall i, j | 0 <= i < j < |txs|
      ensures WritesAt(s.plans, txs[i], p).Keys !! WritesAt(s.plans, txs[j], p).Keys
    {
      if k :| k in WritesAt(s.plans, txs[i], p) && k in WritesAt(s.plans, txs[j], p) {
        HeldKey(p, part, s.plans, s.phases, txs[i], k);
        HeldKey(p, part, s.plans, s.phases, txs[j], k);
      }
    }
  }

  lemma HeldKey(p: PartId, part: Part, plans: map<TxId, Plan>, phases: map<TxId, Phase>, tx: TxId, k: string)
    requires LocksExact(part) && StagedExact(p, part.staged, plans, phases)
    requires tx in plans && tx in phases && phases[tx].InDoubt? && k in WritesAt(plans, tx, p)
    ensures k in part.locked && part.locked[k] == tx
  {
    assert MustHold(phases[tx], p);
  }

  predicate Recovering(step: Step)
  {
    step.RecoverStep? || step.DeliverStep? || step.ConfigureStep?
  }

  /** From state i on, nothing but recovery happens. */
  ghost predicate OnlyRecovery(steps: seq<Step>, i: nat)
  {
    i <= |steps| && forall j :: i <= j < |steps| ==> Recovering(steps[j])
  }

  lemma {:induction false} RecoveryKeeps(members: set<PartId>, tr: seq<System>, steps: seq<Step>, i: nat, j: nat)
    requires IsRun(members, tr, steps) && OnlyRecovery(steps, i) && i <= j < |tr|
    ensures tr[j].plans == tr[i].plans && tr[j].parts.Keys == tr[i].parts.Keys
    ensures forall tx :: tx in tr[j].phases && tr[j].phases[tx].InDoubt? ==>
      tx in tr[i].phases && tr[i].phases[tx].InDoubt?
    ensures forall tx :: tx in CommitLog(steps[i..j]) ==>
      tx in tr[i].plans && tx in tr[i].phases && tr[i].phases[tx].InDoubt?
  {
    hide Next;
    if i == j {
      assert steps[i..j] == [];
    } else {
      RecoveryKeeps(members, tr, steps, i, j - 1);
      assert Next(tr[j - 1], steps[j - 1], tr[j]) && Recovering(steps[j - 1]);
      RecoveryStepKeeps(tr[j - 1], steps[j - 1], tr[j]);
      assert steps[i..j][..j - 1 - i] == steps[i..j - 1] && steps[i..j][j - 1 - i] == steps[j - 1];
    }
  }

  lemma RecoveryStepKeeps(s: System, step: Step, s': System)
    requires Next(s, step, s') && Recovering(step)
    ensures s'.plans == s.plans && s'.parts.Keys == s.parts.Keys
    ensures forall tx :: tx in s'.phases && s'.phases[tx].InDoubt? ==> tx in s.phases && s.phases[tx].InDoubt?
    ensures Commits(step) ==> step.tx in s.plans && step.tx in s.phases && s.phases[step.tx].InDoubt?
  {
  }

  lemma {:induction false} LogSplits(a: seq<Step>, b: seq<Step>)
    ensures CommitLog(a + b) == CommitLog(a) + CommitLog(b)
  {
    if b == [] {
      assert a + b == a;
    } else {
      assert (a + b)[..|a + b| - 1] == a + b[..|b| - 1];
      LogSplits(a, b[..|b| - 1]);
    }
  }

  /** The recovered transactions of one run, as the serial result sees them. */
  lemma RecoveredSerial(members: set<PartId>, tr: seq<System>, steps: seq<Step>, i: nat, p: PartId)
    requires IsRun(members, tr, steps) && OnlyRecovery(steps, i) && p in tr[i].parts
    requires p in tr[|steps|].parts && Settled(tr[|steps|], p)
    ensures tr[|steps|].parts[p].committed == Serial(CommitLog(steps[..i]) + CommitLog(steps[i..]), tr[i].plans, p)
    ensures Disjoint(CommitLog(steps[i..]), tr[i].plans, p)
  {
    hide IsRun, CommitLog, Serial, Disjoint, Inv, Settled;
    var n := RunLength(members, tr, steps);
    assert steps[..n] == steps && steps[i..n] == steps[i..] && steps == steps[..i] + steps[i..];
    RecoveryKeeps(members, tr, steps, i, n);
    LogSplits(steps[..i], steps[i..]);
    CommittedIsSerial(members, tr, steps, n, p);
    LogIsCommitted(members, tr, steps, n, "");
    RunInv(members, tr, steps, i);
    SuffixDistinct(CommitLog(steps[..i]), CommitLog(steps[i..]));
    InDoubtDisjoint(tr[i], CommitLog(steps[..i]), p, CommitLog(steps[i..]));
  }

  lemma RunLength(members: set<PartId>, tr: seq<System>, steps: seq<Step>) returns (n: nat)
    requires IsRun(members, tr, steps)
    ensures n == |steps| < |tr|
  {
    n := |steps|;
  }

  lemma SuffixDistinct(a: seq<TxId>, b: seq<TxId>)
    requires forall i, j :: 0 <= i < j < |a + b| ==> (a + b)[i] != (a + b)[j]
    ensures forall i, j :: 0 <= i < j < |b| ==> b[i] != b[j]
  {
    forall i, j | 0 <= i < j < |b|
      ensures b[i] != b[j]
    {
      assert (a + b)[|a| + i] == b[i] && (a + b)[|a| + j] == b[j];
    }
  }

  /**
   Two runs with the same history up to a crash recover the same transactions with the same
   decisions in different orders: every participant ends with the same committed state.
   */
  lemma RecoveryOrderIrrelevant(members: set<PartId>, tr: seq<System>, steps: seq<Step>, tr': seq<System>,
      steps': seq<Step>, i: nat, p: PartId)
    requires IsRun(members, tr, steps) && IsRun(members, tr', steps') && OnlyRecovery(steps, i)
      && OnlyRecovery(steps', i)
    requires steps[..i] == steps'[..i] && tr[i] == tr'[i] && p in tr[i].parts
    requires forall tx :: tx in CommitLog(steps[i..]) <==> tx in CommitLog(steps'[i..])
    requires p in tr[|steps|].parts && Settled(tr[|steps|], p) && p in tr'[|steps'|].parts && Settled(tr'[|steps'|], p)
    ensures tr[|steps|].parts[p].committed == tr'[|steps'|].parts[p].committed
  {
    hide CommitLog, Serial, Disjoint, Settled, Next;
    RecoveredSerial(members, tr, steps, i, p);
    RecoveredSerial(members, tr', steps', i, p);
    SerialPermuted(CommitLog(steps[..i]), CommitLog(steps[i..]), CommitLog(steps'[i..]), tr[i].plans, p);
  }
}
