/**
 How members come to be suspected, cleared and dead (internal/swim/swim.go): over every run, what a
 view says of another member is what one step said of it, and has been since; nobody is taken for dead
 without a direct call, a claim of a peer, or a suspicion that ran out.
 */
module SwimSuspicion {
  import opened Storage
  import opened SwimModel
  import opened SwimProofs

  // ---------------------------------------------------------------- what a step says of another member

  /** The gossip puts the member there; gossip carries no time. */
  ghost predicate Claimed(gossip: seq<Claim>, id: NodeId, m: Member)
  {
    exists c :: c in gossip && c.id == id && m.state == c.state && m.incarnation == c.incarnation && m.suspectedAt == 0
  }

  /** The suspicion has run out: it started before the deadline. */
  predicate RanOut(v: View, id: NodeId, deadline: int)
  {
    id in v && v[id].state == Suspect && v[id].suspectedAt < deadline
  }

  /** What the step makes of another member, if it changes anything about it. */
  ghost predicate Says(step: Step, v: View, id: NodeId, m: Member)
  {
    match step
    case AliveStep(id', incarnation) => id' == id && m == Member(Alive, incarnation, 0)
    case SuspectStep(id', incarnation, now) => id' == id && m == Member(Suspect, incarnation, now)
    case RefuteStep => false
    case DeadStep(id') => id' == id && m == Member(Dead, if id in v then v[id].incarnation else 0, 0)
    case TickStep(deadline) => RanOut(v, id, deadline) && m == Member(Dead, v[id].incarnation, 0)
    case MergeStep(gossip) => Claimed(gossip, id, m)
  }

  predicate SameThere(v: View, v': View, id: NodeId)
  {
    id in v && id in v' && v[id] == v'[id]
  }

  lemma {:induction false} MergeSays(v: View, self: NodeId, gossip: seq<Claim>, id: NodeId)
    requires self in v && id != self && id in Merge(v, self, gossip)
    ensures SameThere(v, Merge(v, self, gossip), id) || Claimed(gossip, id, Merge(v, self, gossip)[id])
  {
    if gossip != [] {
      var init, d := gossip[..|gossip| - 1], gossip[|gossip| - 1];
      assert gossip == init + [d];
      var mid := Merge(v, self, init);
      if id in mid && Merge(v, self, gossip)[id] == mid[id] {
        MergeSays(v, self, init, id);
        if Claimed(init, id, mid[id]) {
          var c :| c in init && c.id == id && mid[id].state == c.state && mid[id].incarnation == c.incarnation
            && mid[id].suspectedAt == 0;
          assert c in gossip;
        }
      } else {
        assert d in gossip && d.id == id;
      }
    }
  }

  /** A step leaves another member as it was, or as it says. */
  lemma StepSays(self: NodeId, v: View, step: Step, id: NodeId)
    requires self in v && id != self && id in Take(self, v, step)
    ensures SameThere(v, Take(self, v, step), id) || Says(step, v, id, Take(self, v, step)[id])
  {
    if step.MergeStep? {
      MergeSays(v, self, step.gossip, id);
    }
  }

  // ---------------------------------------------------------------- where a standing comes from

  /** Step i put the member where it has been ever since. */
  ghost predicate Since(tr: seq<View>, steps: seq<Step>, i: nat, j: nat, id: NodeId)
  {
    && i < j < |tr| && i < |steps| && id in tr[j]
    && Says(steps[i], tr[i], id, tr[j][id])
    && forall k :: i < k <= j ==> id in tr[k] && tr[k][id] == tr[j][id]
  }

  /** Everything a view says of another member was said by one step, and holds since. */
  lemma {:induction false} Origin(self: NodeId, tr: seq<View>, steps: seq<Step>, j: nat, id: NodeId) returns (i: nat)
    requires IsRun(self, tr, steps) && j < |tr| && id in tr[j] && id != self
    ensures Since(tr, steps, i, j, id)
    decreases j
  {
    hide Take, Says;
    assert j > 0;
    assert self in tr[j - 1] && tr[j] == Take(self, tr[j - 1], steps[j - 1]);
    StepSays(self, tr[j - 1], steps[j - 1], id);
    if SameThere(tr[j - 1], tr[j], id) {
      i := Origin(self, tr, steps, j - 1, id);
    } else {
      i := j - 1;
    }
  }

  /** The step takes the member for dead, and says why. */
  ghost predicate Kills(step: Step, v: View, id: NodeId, incarnation: nat)
  {
    || step == DeadStep(id)
    || (step.MergeStep? && Claim(id, Dead, incarnation) in step.gossip)
    || (step.TickStep? && RanOut(v, id, step.deadline))
  }

  /** The suspicion of the member began with step i, at that time: a direct call's, or 0 if it came by gossip. */
  ghost predicate SuspectedAt(step: Step, id: NodeId, incarnation: nat, at: int)
  {
    || step == SuspectStep(id, incarnation, at)
    || (step.MergeStep? && at == 0 && Claim(id, Suspect, incarnation) in step.gossip)
  }

  /** A suspect has been under suspicion at its incarnation, without a break, since a step that began it. */
  lemma SuspectSince(self: NodeId, tr: seq<View>, steps: seq<Step>, j: nat, id: NodeId) returns (i: nat)
    requires IsRun(self, tr, steps) && j < |tr| && id in tr[j] && id != self && tr[j][id].state == Suspect
    ensures i < j && SuspectedAt(steps[i], id, tr[j][id].incarnation, tr[j][id].suspectedAt)
    ensures forall k :: i < k <= j ==> id in tr[k] && tr[k][id] == tr[j][id]
  {
    hide Take;
    i := Origin(self, tr, steps, j, id);
    if steps[i].MergeStep? {
      ClaimIn(steps[i].gossip, id, tr[j][id]);
    }
  }

  lemma ClaimIn(gossip: seq<Claim>, id: NodeId, m: Member)
    requires Claimed(gossip, id, m)
    ensures Claim(id, m.state, m.incarnation) in gossip && m.suspectedAt == 0
  {
    var c :| c in gossip && c.id == id && m.state == c.state && m.incarnation == c.incarnation && m.suspectedAt == 0;
    assert c == Claim(id, m.state, m.incarnation);
  }

  /**
   No death without a cause: a member that is dead became so by a direct call, by a claim of a peer, or
   by a tick whose deadline lies after the beginning of the suspicion it was under.
   */
  lemma DeadByCause(self: NodeId, tr: seq<View>, steps: seq<Step>, j: nat, id: NodeId) returns (i: nat)
    requires IsRun(self, tr, steps) && j < |tr| && id in tr[j] && id != self && tr[j][id].state == Dead
    ensures i < j && Kills(steps[i], tr[i], id, tr[j][id].incarnation)
    ensures steps[i].TickStep? ==> exists h: nat ::
      h < i && SuspectedAt(steps[h], id, tr[j][id].incarnation, tr[i][id].suspectedAt)
  {
    hide Take;
    i := Origin(self, tr, steps, j, id);
    if steps[i].MergeStep? {
      ClaimIn(steps[i].gossip, id, tr[j][id]);
    } else if steps[i].TickStep? {
      var h := SuspectSince(self, tr, steps, i, id);
      assert h < i && SuspectedAt(steps[h], id, tr[j][id].incarnation, tr[i][id].suspectedAt);
    }
  }

  // ---------------------------------------------------------------- when a step kills

  /** Some claim of the batch, when its turn comes, is a Dead claim that beats what the view says by then. */
  ghost predicate DeadClaimWins(v: View, self: NodeId, gossip: seq<Claim>, id: NodeId)
    requires self in v
  {
    exists k :: 0 <= k < |gossip| && DeadClaimAt(v, self, gossip, k, id)
  }

  ghost predicate DeadClaimAt(v: View, self: NodeId, gossip: seq<Claim>, k: nat, id: NodeId)
    requires self in v && k < |gossip|
  {
    gossip[k].id == id && gossip[k].state == Dead && Beats(Merge(v, self, gossip[..k]), gossip[k])
  }

  lemma {:induction false} MergeKillsIff(v: View, self: NodeId, gossip: seq<Claim>, id: NodeId)
    requires self in v && id != self && (id in v ==> v[id].state != Dead)
    ensures DeadClaimWins(v, self, gossip, id) <==>
      id in Merge(v, self, gossip) && Merge(v, self, gossip)[id].state == Dead
  {
    if gossip != [] {
      var n := |gossip| - 1;
      var init, d := gossip[..n], gossip[n];
      MergeKillsIff(v, self, init, id);
      if k :| 0 <= k < |init| && DeadClaimAt(v, self, init, k, id) {
        assert init[..k] == gossip[..k];
        assert DeadClaimAt(v, self, gossip, k, id);
      }
      if k :| 0 <= k < |gossip| && DeadClaimAt(v, self, gossip, k, id) {
        if k < n {
          assert init[..k] == gossip[..k];
          assert DeadClaimAt(v, self, init, k, id);
        }
      }
      if d.id == id && d.state == Dead && Beats(Merge(v, self, init), d) {
        assert DeadClaimAt(v, self, gossip, n, id);
      }
    }
  }

  /** From any view, exactly these steps take a member that is not dead for dead. */
  lemma DiesIff(self: NodeId, v: View, step: Step, id: NodeId)
    requires self in v && id != self && (id in v ==> v[id].state != Dead)
    ensures id in Take(self, v, step) && Take(self, v, step)[id].state == Dead <==>
      || step == DeadStep(id)
      || (step.TickStep? && RanOut(v, id, step.deadline))
      || (step.MergeStep? && DeadClaimWins(v, self, step.gossip, id))
  {
    if step.MergeStep? {
      MergeKillsIff(v, self, step.gossip, id);
    }
  }

  // ---------------------------------------------------------------- suspecting and clearing

  /** The step neither says anything of the member directly or by gossip, nor runs its suspicion out. */
  ghost predicate Spares(step: Step, id: NodeId, at: int)
  {
    match step
    case AliveStep(id', _) => id' != id
    case SuspectStep(id', _, _) => id' != id
    case RefuteStep => true
    case DeadStep(id') => id' != id
    case TickStep(deadline) => deadline <= at
    case MergeStep(gossip) => forall c :: c in gossip ==> c.id != id
  }

  lemma SparedStays(self: NodeId, v: View, step: Step, id: NodeId)
    requires self in v && id != self && id in v && Spares(step, id, v[id].suspectedAt)
    ensures SameThere(v, Take(self, v, step), id)
  {
    if step.MergeStep? {
      Unmentioned(v, self, step.gossip, id);
    }
  }

  lemma {:induction false} Unmentioned(v: View, self: NodeId, gossip: seq<Claim>, id: NodeId)
    requires self in v && id != self && id in v && forall c :: c in gossip ==> c.id != id
    ensures SameThere(v, Merge(v, self, gossip), id)
  {
    if gossip != [] {
      Unmentioned(v, self, gossip[..|gossip| - 1], id);
    }
  }

  /** Suspicion of a member that is unknown, or not dead and no higher, leaves it suspect at that incarnation. */
  lemma SuspectTakes(self: NodeId, v: View, id: NodeId, incarnation: nat, now: int)
    requires self in v && id != self
    requires id in v ==> v[id].state != Dead && v[id].incarnation <= incarnation
    ensures id in MarkSuspect(v, self, id, incarnation, now)
    ensures var m := MarkSuspect(v, self, id, incarnation, now)[id];
      && m.state == Suspect && m.incarnation == incarnation
      && m.suspectedAt == if id in v && v[id].state == Suspect && v[id].incarnation == incarnation
                          then v[id].suspectedAt else now
    ensures forall other :: other != id && other in v ==>
      SameThere(v, MarkSuspect(v, self, id, incarnation, now), other)
  {
  }

  /** Word that a member lives takes if it is unknown, not dead and lower, or alive and no higher. */
  lemma AliveTakes(self: NodeId, v: View, id: NodeId, incarnation: nat)
    requires self in v
    ensures var v' := Take(self, v, AliveStep(id, incarnation));
      && id in v'
      && (if id !in v || (v[id].state != Dead && incarnation > v[id].incarnation)
            || (v[id].state == Alive && incarnation == v[id].incarnation)
          then v'[id].state == Alive && v'[id].incarnation == incarnation && v'[id].suspectedAt == 0
          else v'[id] == v[id])
      && forall other :: other != id && other in v ==> SameThere(v, v', other)
  {
  }

  /** A node that is suspected directly lives on, above the incarnation it was suspected at if that was its own. */
  lemma SelfRefutes(self: NodeId, v: View, incarnation: nat, now: int)
    requires self in v
    ensures var v' := Take(self, v, SuspectStep(self, incarnation, now));
      && v'[self].state == Alive && v'[self].incarnation > v[self].incarnation
      && (incarnation <= v[self].incarnation ==> v'[self].incarnation > incarnation)
      && v' == Take(self, v, RefuteStep)
      && forall other :: other != self && other in v ==> SameThere(v, v', other)
  {
  }

  /** Nothing but more suspicion at the same incarnation, or nothing at all, is heard of the member. */
  ghost predicate Quiet(step: Step, id: NodeId, incarnation: nat, at: int)
  {
    Spares(step, id, at) || (step.SuspectStep? && step.id == id && step.incarnation <= incarnation)
  }

  /** The suspicion is timed by its first call, whatever calls repeat it, and lasts until something else is heard. */
  lemma {:induction false} SuspicionLasts(self: NodeId, tr: seq<View>, steps: seq<Step>, i: nat, j: nat, id: NodeId,
                                          incarnation: nat, now: int)
    requires IsRun(self, tr, steps) && i < j < |tr| && id != self && steps[i] == SuspectStep(id, incarnation, now)
    requires id in tr[i] ==> tr[i][id].state == Alive && tr[i][id].incarnation <= incarnation
    requires forall k :: i < k < j ==> Quiet(steps[k], id, incarnation, now)
    ensures id in tr[j] && tr[j][id] == Member(Suspect, incarnation, now)
    decreases j
  {
    hide Take;
    assert self in tr[j - 1] && tr[j] == Take(self, tr[j - 1], steps[j - 1]);
    if j == i + 1 {
      SuspectTaken(self, tr[i], id, incarnation, now);
    } else {
      SuspicionLasts(self, tr, steps, i, j - 1, id, incarnation, now);
      if Spares(steps[j - 1], id, now) {
        SparedStays(self, tr[j - 1], steps[j - 1], id);
      } else {
        Repeated(self, tr[j - 1], steps[j - 1], id);
      }
    }
  }

  lemma SuspectTaken(self: NodeId, v: View, id: NodeId, incarnation: nat, now: int)
    requires self in v && id != self && (id in v ==> v[id].state == Alive && v[id].incarnation <= incarnation)
    ensures var v' := Take(self, v, SuspectStep(id, incarnation, now));
      id in v' && v'[id] == Member(Suspect, incarnation, now)
  {
  }

  lemma Repeated(self: NodeId, v: View, step: Step, id: NodeId)
    requires self in v && id != self && id in v && v[id].state == Suspect
    requires step.SuspectStep? && step.id == id && step.incarnation <= v[id].incarnation
    ensures SameThere(v, Take(self, v, step), id)
  {
  }

  /**
   A suspicion can be refuted until it runs out: after it, through quiet steps, a claim that the member
   lives clears it exactly if its incarnation is higher; and a tick kills exactly if its deadline lies
   after the first call.
   */
  lemma RefutedOrRunOut(self: NodeId, tr: seq<View>, steps: seq<Step>, i: nat, j: nat, id: NodeId, incarnation: nat,
                        now: int)
    requires IsRun(self, tr, steps) && i < j < |steps| && id != self && steps[i] == SuspectStep(id, incarnation, now)
    requires id in tr[i] ==> tr[i][id].state == Alive && tr[i][id].incarnation <= incarnation
    requires forall k :: i < k < j ==> Quiet(steps[k], id, incarnation, now)
    ensures id in tr[j + 1]
    ensures steps[j].AliveStep? && steps[j].id == id ==>
      tr[j + 1][id] == if steps[j].incarnation > incarnation then Member(Alive, steps[j].incarnation, 0)
                       else Member(Suspect, incarnation, now)
    ensures steps[j].TickStep? ==>
      tr[j + 1][id] == if now < steps[j].deadline then Member(Dead, incarnation, 0)
                       else Member(Suspect, incarnation, now)
  {
    SuspicionLasts(self, tr, steps, i, j, id, incarnation, now);
    assert self in tr[j] && tr[j + 1] == Take(self, tr[j], steps[j]);
    StepMonotone(self, tr[j], steps[j]);
  }

  /** Once cleared, a member is not killed by any deadline until it is suspected again. */
  lemma ClearedOutlivesTicks(self: NodeId, v: View, id: NodeId, deadline: int)
    requires self in v && id in v && v[id].state == Alive
    ensures SameThere(v, Take(self, v, TickStep(deadline)), id)
  {
  }

  /**
   A suspicion heard by gossip has no time of its own: a direct call at the same incarnation does not give
   it one, so the next tick kills the member exactly if its deadline is positive.
   */
  lemma GossipSuspicionUntimed(self: NodeId, v: View, id: NodeId, c: Claim, now: int, deadline: int)
    requires self in v && id != self && c.id == id && c.state == Suspect && Beats(v, c)
    ensures var v1 := Take(self, v, MergeStep([c]));
      var v2 := Take(self, v1, SuspectStep(id, c.incarnation, now));
      var v3 := Take(self, v2, TickStep(deadline));
      && id in v3 && (v3[id].state == Dead <==> deadline > 0)
      && (deadline <= 0 ==> v3[id] == Member(Suspect, c.incarnation, 0))
  {
    assert [c][..0] == [];
    assert Merge(v, self, [c][..0]) == v;
    assert Merge(v, self, [c]) == MergeOne(v, self, c);
  }
}
