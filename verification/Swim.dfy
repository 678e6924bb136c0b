/** SWIM membership: one node's view of the cluster (internal/swim/swim.go). */
module SwimModel {
  import opened Storage

  datatype State = Alive | Suspect | Dead

  datatype Member = Member(state: State, incarnation: nat, suspectedAt: int)

  type View = map<NodeId, Member>

  /** A gossiped snapshot of one member. */
  datatype Claim = Claim(id: NodeId, state: State, incarnation: nat)

  function Precedence(s: State): nat
  {
    match s
    case Alive => 0
    case Suspect => 1
    case Dead => 2
  }

  function Init(self: NodeId): View
  {
    map[self := Member(Alive, 0, 0)]
  }

  function MarkAlive(v: View, id: NodeId, incarnation: nat): View
  {
    if id !in v then v[id := Member(Alive, incarnation, 0)]
    else
      var cur := v[id];
      if cur.state == Dead || incarnation < cur.incarnation
        || (incarnation == cur.incarnation && cur.state == Suspect) then v
      else v[id := Member(Alive, incarnation, 0)]
  }

  function Refute(v: View, self: NodeId): View
    requires self in v
  {
    v[self := Member(Alive, v[self].incarnation + 1, 0)]
  }

  function MarkSuspect(v: View, self: NodeId, id: NodeId, incarnation: nat, now: int): View
    requires self in v
  {
    if id == self then Refute(v, self)
    else if id !in v then v[id := Member(Suspect, incarnation, now)]
    else
      var cur := v[id];
      if cur.state == Dead || incarnation < cur.incarnation
        || (cur.state == Suspect && incarnation == cur.incarnation) then v
      else v[id := Member(Suspect, incarnation, now)]
  }

  function MarkDead(v: View, id: NodeId): View
  {
    v[id := Member(Dead, if id in v then v[id].incarnation else 0, 0)]
  }

  predicate Expired(m: Member, deadline: int)
  {
    m.state == Suspect && m.suspectedAt < deadline
  }

  function Tick(v: View, deadline: int): View
  {
    map id | id in v :: if Expired(v[id], deadline) then Member(Dead, v[id].incarnation, 0) else v[id]
  }

  predicate GossipWins(cur: Member, c: Claim)
  {
    c.incarnation > cur.incarnation || (c.incarnation == cur.incarnation && Precedence(c.state) > Precedence(cur.state))
  }

  function MergeSelf(v: View, self: NodeId, c: Claim): View
    requires self in v
  {
    var me := v[self];
    if c.state == Alive then
      (if c.incarnation > me.incarnation then v[self := me.(incarnation := c.incarnation)] else v)
    else if c.incarnation < me.incarnation then v
    else v[self := Member(Alive, c.incarnation + 1, 0)]
  }

  function MergeOne(v: View, self: NodeId, c: Claim): (v': View)
    requires self in v
    ensures self in v'
  {
    if c.id == self then MergeSelf(v, self, c)
    else if c.id !in v then v[c.id := Member(c.state, c.incarnation, 0)]
    else if v[c.id].state != Dead && GossipWins(v[c.id], c) then v[c.id := Member(c.state, c.incarnation, 0)]
    else v
  }

  function Merge(v: View, self: NodeId, gossip: seq<Claim>): (v': View)
    requires self in v
    ensures self in v'
  {
    if gossip == [] then v else MergeOne(Merge(v, self, gossip[..|gossip| - 1]), self, gossip[|gossip| - 1])
  }

  // ---------------------------------------------------------------- runs

  datatype Step =
    | AliveStep(id: NodeId, incarnation: nat)
    | SuspectStep(id: NodeId, incarnation: nat, now: int)
    | RefuteStep
    | DeadStep(id: NodeId)
    | TickStep(deadline: int)
    | MergeStep(gossip: seq<Claim>)

  function Take(self: NodeId, v: View, step: Step): (v': View)
    requires self in v
    ensures self in v'
  {
    match step
    case AliveStep(id, incarnation) => MarkAlive(v, id, incarnation)
    case SuspectStep(id, incarnation, now) => MarkSuspect(v, self, id, incarnation, now)
    case RefuteStep => Refute(v, self)
    case DeadStep(id) => MarkDead(v, id)
    case TickStep(deadline) => Tick(v, deadline)
    case MergeStep(gossip) => Merge(v, self, gossip)
  }

  ghost predicate IsRun(self: NodeId, tr: seq<View>, steps: seq<Step>)
  {
    && |tr| == |steps| + 1
    && tr[0] == Init(self)
    && forall i :: 0 <= i < |steps| ==> self in tr[i] && tr[i + 1] == Take(self, tr[i], steps[i])
  }
}

module SwimProofs {
  import opened Storage
  import opened SwimModel

  // ---------------------------------------------------------------- climbing

  /** Dead on top; otherwise by incarnation, and at equal incarnation Suspect over Alive. */
  predicate Climbs(m: Member, m': Member)
  {
    if m.state == Dead then m'.state == Dead && m'.incarnation == m.incarnation
    else m'.state == Dead || m'.incarnation > m.incarnation ||
         (m'.incarnation == m.incarnation && Precedence(m'.state) >= Precedence(m.state))
  }

  ghost predicate OthersClimb(self: NodeId, v: View, v': View)
  {
    forall id :: id in v && id != self ==> id in v' && Climbs(v[id], v'[id])
  }

  /** The node itself stays alive if it is, and its incarnation does not go back. */
  ghost predicate SelfLives(self: NodeId, v: View, v': View)
  {
    self in v && self in v' && (v[self].state == Alive ==> v'[self].state == Alive) && SelfGrows(self, v, v')
  }

  predicate SelfGrows(self: NodeId, v: View, v': View)
  {
    self in v && self in v' && v'[self].incarnation >= v[self].incarnation
  }

  lemma MergeOneMonotone(self: NodeId, v: View, c: Claim)
    requires self in v
    ensures OthersClimb(self, v, MergeOne(v, self, c)) && SelfLives(self, v, MergeOne(v, self, c))
  {
  }

  lemma {:induction false} MergeMonotone(self: NodeId, v: View, gossip: seq<Claim>)
    requires self in v
    ensures OthersClimb(self, v, Merge(v, self, gossip)) && SelfLives(self, v, Merge(v, self, gossip))
  {
    if gossip != [] {
      var mid := Merge(v, self, gossip[..|gossip| - 1]);
      MergeMonotone(self, v, gossip[..|gossip| - 1]);
      MergeOneMonotone(self, mid, gossip[|gossip| - 1]);
      OthersClimbTransitive(self, v, mid, Merge(v, self, gossip));
    }
  }

  lemma OthersClimbTransitive(self: NodeId, a: View, b: View, c: View)
    requires OthersClimb(self, a, b) && OthersClimb(self, b, c)
    ensures OthersClimb(self, a, c)
  {
  }

  lemma StepMonotone(self: NodeId, v: View, step: Step)
    requires self in v
    ensures OthersClimb(self, v, Take(self, v, step)) && SelfGrows(self, v, Take(self, v, step))
    ensures step != DeadStep(self) && (step.TickStep? ==> v[self].state != Suspect) ==>
      SelfLives(self, v, Take(self, v, step))
  {
    if step.MergeStep? {
      MergeMonotone(self, v, step.gossip);
    }
  }

  lemma {:induction false} RunMonotone(self: NodeId, tr: seq<View>, steps: seq<Step>, i: nat, j: nat)
    requires IsRun(self, tr, steps) && i <= j < |tr|
    ensures self in tr[i] && SelfGrows(self, tr[i], tr[j]) && OthersClimb(self, tr[i], tr[j])
    decreases j
  {
    hide OthersClimb, Take, SelfLives;
    if i < j {
      RunMonotone(self, tr, steps, i, j - 1);
      StepMonotone(self, tr[j - 1], steps[j - 1]);
      OthersClimbTransitive(self, tr[i], tr[j - 1], tr[j]);
    } else {
      if i > 0 {
        RunMonotone(self, tr, steps, i - 1, i - 1);
        StepMonotone(self, tr[i - 1], steps[i - 1]);
      }
      SelfClimb(self, tr[i]);
    }
  }

  /** A node that is never told directly that it is dead believes itself alive. */
  lemma {:induction false} SelfStaysAlive(self: NodeId, tr: seq<View>, steps: seq<Step>, j: nat)
    requires IsRun(self, tr, steps) && j < |tr| && forall i :: 0 <= i < j ==> steps[i] != DeadStep(self)
    ensures self in tr[j] && tr[j][self].state == Alive
    decreases j
  {
    hide OthersClimb, Take;
    if j > 0 {
      SelfStaysAlive(self, tr, steps, j - 1);
      StepMonotone(self, tr[j - 1], steps[j - 1]);
    }
  }

  lemma SelfClimb(self: NodeId, v: View)
    ensures OthersClimb(self, v, v)
  {
  }

  /** In every run, another member's standing only climbs. */
  lemma MembersOnlyClimb(self: NodeId, tr: seq<View>, steps: seq<Step>, i: nat, j: nat, id: NodeId)
    requires IsRun(self, tr, steps) && i <= j < |tr| && id in tr[i] && id != self
    ensures id in tr[j] && Climbs(tr[i][id], tr[j][id])
  {
    hide Take;
    RunMonotone(self, tr, steps, i, j);
  }

  // ---------------------------------------------------------------- what merging a batch leaves behind

  /** The claim has nothing more to say to this view. */
  predicate Absorbed(v: View, self: NodeId, c: Claim)
  {
    && c.id in v
    && if c.id == self then v[self].incarnation >= c.incarnation
      && (c.state != Alive ==> v[self].incarnation > c.incarnation)
       else v[c.id].state == Dead || !GossipWins(v[c.id], c)
  }

  lemma AbsorbedStays(v: View, self: NodeId, c: Claim, d: Claim)
    requires self in v && Absorbed(v, self, c)
    ensures Absorbed(MergeOne(v, self, d), self, c)
  {
    MergeOneMonotone(self, v, d);
  }

  lemma {:induction false} MergeAbsorbs(v: View, self: NodeId, gossip: seq<Claim>, c: Claim)
    requires self in v && c in gossip
    ensures Absorbed(Merge(v, self, gossip), self, c)
  {
    var init, d := gossip[..|gossip| - 1], gossip[|gossip| - 1];
    MergeMonotone(self, v, init);
    if c in init {
      MergeAbsorbs(v, self, init, c);
      AbsorbedStays(Merge(v, self, init), self, c, d);
    }
  }

  lemma {:induction false} AbsorbedIgnored(v: View, self: NodeId, gossip: seq<Claim>)
    requires self in v && forall c :: c in gossip ==> Absorbed(v, self, c)
    ensures Merge(v, self, gossip) == v
  {
    if gossip != [] {
      AbsorbedIgnored(v, self, gossip[..|gossip| - 1]);
      assert Absorbed(v, self, gossip[|gossip| - 1]);
    }
  }

  /** Merging a batch twice is merging it once. */
  lemma MergeIdempotent(v: View, self: NodeId, gossip: seq<Claim>)
    requires self in v
    ensures Merge(Merge(v, self, gossip), self, gossip) == Merge(v, self, gossip)
  {
    forall c | c in gossip
      ensures Absorbed(Merge(v, self, gossip), self, c)
    {
      MergeAbsorbs(v, self, gossip, c);
    }
    AbsorbedIgnored(Merge(v, self, gossip), self, gossip);
  }

  /** In every run, the node outbids every failure claim merged about it, and lives unless told directly it is dead. */
  lemma SelfOutlivesClaims(self: NodeId, tr: seq<View>, steps: seq<Step>, i: nat, j: nat, c: Claim)
    requires IsRun(self, tr, steps) && i < j < |tr|
    requires steps[i].MergeStep? && c in steps[i].gossip && c.id == self && c.state != Alive
    ensures self in tr[j] && tr[j][self].incarnation > c.incarnation
    ensures (forall k :: 0 <= k < j ==> steps[k] != DeadStep(self)) ==> tr[j][self].state == Alive
  {
    RunMonotone(self, tr, steps, i, i);
    MergeAbsorbs(tr[i], self, steps[i].gossip, c);
    RunMonotone(self, tr, steps, i + 1, j);
    if forall k :: 0 <= k < j ==> steps[k] != DeadStep(self) {
      SelfStaysAlive(self, tr, steps, j);
    }
  }

  // ---------------------------------------------------------------- order of claims

  /** The claim would be taken over by this view. */
  predicate Beats(v: View, c: Claim)
  {
    c.id !in v || (v[c.id].state != Dead && GossipWins(v[c.id], c))
  }

  /** A Dead claim that would be taken over is not outbid by any other claim about the member. */
  ghost predicate DeadUnbid(v: View, self: NodeId, gossip: seq<Claim>)
  {
    forall c, c' :: c in gossip && c' in gossip && c.id == c'.id != self && c.state == Dead && Beats(v, c) ==>
      c'.incarnation <= c.incarnation
  }

  /** Every other member is where it was, or where some claim that beats the view put it. */
  ghost predicate Explained(v: View, v': View, self: NodeId, gossip: seq<Claim>)
  {
    forall id :: id in v' && id != self ==> ExplainedAt(v, v', gossip, id)
  }

  ghost predicate ExplainedAt(v: View, v': View, gossip: seq<Claim>, id: NodeId)
    requires id in v'
  {
    || (id in v && SameStanding(v'[id], v[id]))
    || (exists c :: c in gossip && c.id == id && Beats(v, c) && PutBy(v'[id], c))
  }

  predicate PutBy(m: Member, c: Claim)
  {
    m.state == c.state && m.incarnation == c.incarnation
  }

  /** The same member, up to the local suspicion clock. */
  predicate SameStanding(m: Member, m': Member)
  {
    m.state == m'.state && m.incarnation == m'.incarnation
  }

  predicate NotBelow(m: Member, m': Member)
  {
    m'.incarnation > m.incarnation || (m'.incarnation == m.incarnation && Precedence(m'.state) >= Precedence(m.state))
  }

  lemma Antisymmetric(m: Member, m': Member)
    requires NotBelow(m, m') && NotBelow(m', m)
    ensures SameStanding(m, m')
  {
  }

  /** Merging never moves another member down, Dead or not. */
  lemma {:induction false} MergeNotBelow(v: View, self: NodeId, gossip: seq<Claim>, id: NodeId)
    requires self in v && id in v && id != self
    ensures id in Merge(v, self, gossip) && NotBelow(v[id], Merge(v, self, gossip)[id])
  {
    if gossip != [] {
      MergeNotBelow(v, self, gossip[..|gossip| - 1], id);
    }
  }

  lemma {:induction false} MergeExplained(v: View, self: NodeId, gossip: seq<Claim>)
    requires self in v
    ensures Explained(v, Merge(v, self, gossip), self, gossip)
  {
    if gossip != [] {
      var init, d := gossip[..|gossip| - 1], gossip[|gossip| - 1];
      assert gossip == init + [d];
      MergeExplained(v, self, init);
      MergeMonotone(self, v, init);
      var mid, v' := Merge(v, self, init), Merge(v, self, gossip);
      forall id | id in v' && id != self
        ensures ExplainedAt(v, v', gossip, id)
      {
        if id in mid && v'[id] == mid[id] {
          assert ExplainedAt(v, mid, init, id);
        } else {
          if id in v {
            MergeNotBelow(v, self, init, id);
          }
          assert d in gossip && d.id == id && PutBy(v'[id], d);
        }
      }
    }
  }

  ghost predicate SameClaims(g: seq<Claim>, h: seq<Claim>)
  {
    forall c :: c in g <==> c in h
  }

  /** A Dead claim that beats the view and is not outbid decides, wherever it stands. */
  lemma DeadDecides(v: View, self: NodeId, gossip: seq<Claim>, c: Claim)
    requires self in v && DeadUnbid(v, self, gossip)
    requires c in gossip && c.id != self && c.state == Dead && Beats(v, c)
    ensures c.id in Merge(v, self, gossip)
    ensures Merge(v, self, gossip)[c.id].state == Dead && Merge(v, self, gossip)[c.id].incarnation == c.incarnation
  {
    hide Merge;
    MergeAbsorbs(v, self, gossip, c);
    MergeExplained(v, self, gossip);
    assert ExplainedAt(v, Merge(v, self, gossip), gossip, c.id);
  }

  /** Without such a claim about a member it does not die. */
  lemma NobodyDies(v: View, self: NodeId, gossip: seq<Claim>, id: NodeId)
    requires self in v && id in Merge(v, self, gossip)
    requires id != self && (id in v ==> v[id].state != Dead)
    requires forall c :: c in gossip && c.id == id && c.state == Dead ==> !Beats(v, c)
    ensures Merge(v, self, gossip)[id].state != Dead
  {
    hide Merge;
    MergeExplained(v, self, gossip);
    assert ExplainedAt(v, Merge(v, self, gossip), gossip, id);
  }

  lemma AbsorbedNotBelow(m: Member, v: View, self: NodeId, c: Claim)
    requires PutBy(m, c) && Absorbed(v, self, c) && v[c.id].state != Dead && c.id != self
    ensures NotBelow(m, v[c.id])
  {
  }

  /** A member that is not dead after the second list is not below where the first list puts it. */
  lemma OneWay(v: View, self: NodeId, g: seq<Claim>, h: seq<Claim>, id: NodeId)
    requires self in v && SameClaims(g, h) && id in Merge(v, self, g) && id != self
    requires id in Merge(v, self, h) ==> Merge(v, self, h)[id].state != Dead
    ensures id in Merge(v, self, h) && NotBelow(Merge(v, self, g)[id], Merge(v, self, h)[id])
  {
    hide Merge;
    var a, b := Merge(v, self, g), Merge(v, self, h);
    MergeExplained(v, self, g);
    MergeMonotone(self, v, h);
    assert ExplainedAt(v, a, g, id);
    if id in v && SameStanding(a[id], v[id]) {
      assert Climbs(v[id], b[id]);
    } else {
      var c :| c in g && c.id == id && PutBy(a[id], c);
      MergeAbsorbs(v, self, h, c);
      AbsorbedNotBelow(a[id], b, self, c);
    }
  }

  ghost predicate SameAt(v: View, v': View, id: NodeId)
  {
    (id in v <==> id in v') && (id in v && id in v' ==> SameStanding(v[id], v'[id]))
  }

  ghost predicate SameView(v: View, v': View)
  {
    forall id :: SameAt(v, v', id)
  }

  /** A member nobody dies at ends the same for any order of the claims. */
  lemma LivingSame(v: View, self: NodeId, g: seq<Claim>, h: seq<Claim>, id: NodeId)
    requires self in v && SameClaims(g, h) && id != self
    requires id in Merge(v, self, g) ==> Merge(v, self, g)[id].state != Dead
    requires id in Merge(v, self, h) ==> Merge(v, self, h)[id].state != Dead
    ensures SameAt(Merge(v, self, g), Merge(v, self, h), id)
  {
    hide Merge;
    if id in Merge(v, self, g) {
      OneWay(v, self, g, h, id);
    }
    if id in Merge(v, self, h) {
      OneWay(v, self, h, g, id);
    }
    if id in Merge(v, self, g) {
      Antisymmetric(Merge(v, self, g)[id], Merge(v, self, h)[id]);
    }
  }

  // ---------------------------------------------------------------- claims about the node itself

  predicate Fails(c: Claim, self: NodeId)
  {
    c.id == self && c.state != Alive
  }

  /** A node that is not alive in its own view is revived in every order, or in none. */
  ghost predicate SelfSettled(v: View, self: NodeId, gossip: seq<Claim>)
    requires self in v
  {
    || v[self].state == Alive
    || (forall c :: c in gossip && Fails(c, self) ==> c.incarnation < v[self].incarnation)
    || (exists c :: c in gossip && Revives(v, self, gossip, c))
  }

  /** A failure claim the node has to refute, as high as every claim that it lives. */
  ghost predicate Revives(v: View, self: NodeId, gossip: seq<Claim>, c: Claim)
    requires self in v
  {
    && Fails(c, self) && c.incarnation >= v[self].incarnation
    && forall d :: d in gossip && d.id == self && d.state == Alive ==> d.incarnation <= c.incarnation
  }

  /** The incarnation comes from the view, from a claim that the node lives, or from outbidding one that it does not. */
  ghost predicate SelfFrom(v: View, self: NodeId, gossip: seq<Claim>, incarnation: nat)
    requires self in v
  {
    || incarnation == v[self].incarnation
    || exists c :: c in gossip && c.id == self && incarnation == c.incarnation + if c.state == Alive then 0 else 1
  }

  lemma {:induction false} SelfExplained(v: View, self: NodeId, gossip: seq<Claim>)
    requires self in v
    ensures SelfFrom(v, self, gossip, Merge(v, self, gossip)[self].incarnation)
  {
    if gossip != [] {
      var init, d := gossip[..|gossip| - 1], gossip[|gossip| - 1];
      assert gossip == init + [d];
      SelfExplained(v, self, init);
      var m, m' := Merge(v, self, init)[self], Merge(v, self, gossip)[self];
      if m'.incarnation == m.incarnation {
        if m.incarnation != v[self].incarnation {
          var c :| c in init && c.id == self && m.incarnation == c.incarnation + if c.state == Alive then 0 else 1;
          assert c in gossip;
        }
      } else {
        assert d in gossip && d.id == self;
      }
    }
  }

  lemma SelfNotLess(v: View, self: NodeId, g: seq<Claim>, h: seq<Claim>)
    requires self in v && SameClaims(g, h)
    ensures Merge(v, self, g)[self].incarnation <= Merge(v, self, h)[self].incarnation
  {
    hide Merge;
    SelfExplained(v, self, g);
    MergeMonotone(self, v, h);
    var n := Merge(v, self, g)[self].incarnation;
    if n != v[self].incarnation {
      var c :| c in g && c.id == self && n == c.incarnation + if c.state == Alive then 0 else 1;
      MergeAbsorbs(v, self, h, c);
    }
  }

  /** Nothing to refute: the node's state stays. */
  lemma {:induction false} SelfStays(v: View, self: NodeId, gossip: seq<Claim>)
    requires self in v && forall c :: c in gossip && Fails(c, self) ==> c.incarnation < v[self].incarnation
    ensures Merge(v, self, gossip)[self].state == v[self].state
  {
    if gossip != [] {
      var init, d := gossip[..|gossip| - 1], gossip[|gossip| - 1];
      assert d in gossip;
      SelfStays(v, self, init);
      MergeMonotone(self, v, init);
    }
  }

  /** Until it is revived the node's incarnation stays within reach of the reviving claim, which then revives it. */
  lemma {:induction false} SelfRevived(v: View, self: NodeId, gossip: seq<Claim>, c: Claim, all: seq<Claim>)
    requires self in v && Revives(v, self, all, c) && forall d :: d in gossip ==> d in all
    ensures var m := Merge(v, self, gossip)[self];
      (m.state == Alive || m.incarnation <= c.incarnation) && (c in gossip ==> m.state == Alive)
  {
    if gossip != [] {
      var init, d := gossip[..|gossip| - 1], gossip[|gossip| - 1];
      assert gossip == init + [d];
      SelfRevived(v, self, init, c, all);
    }
  }

  lemma SelfSame(v: View, self: NodeId, g: seq<Claim>, h: seq<Claim>)
    requires self in v && SameClaims(g, h) && SelfSettled(v, self, g)
    ensures SameStanding(Merge(v, self, g)[self], Merge(v, self, h)[self])
  {
    hide Merge;
    SelfNotLess(v, self, g, h);
    SelfNotLess(v, self, h, g);
    MergeMonotone(self, v, g);
    MergeMonotone(self, v, h);
    if v[self].state != Alive {
      if forall c :: c in g && Fails(c, self) ==> c.incarnation < v[self].incarnation {
        SelfStays(v, self, g);
        SelfStays(v, self, h);
      } else {
        var c :| c in g && Revives(v, self, g, c);
        SelfRevived(v, self, g, c, g);
        SelfRevived(v, self, h, c, g);
      }
    }
  }

  /** Unless a Dead claim is outbid, the same claims lead to the same standings in any order and any number. */
  lemma MergeOrderIrrelevant(v: View, self: NodeId, g: seq<Claim>, h: seq<Claim>, id: NodeId)
    requires self in v && SameClaims(g, h) && DeadUnbid(v, self, g) && SelfSettled(v, self, g)
    ensures SameAt(Merge(v, self, g), Merge(v, self, h), id)
  {
    hide Merge, Beats;
    assert DeadUnbid(v, self, h);
    MergeMonotone(self, v, g);
    MergeMonotone(self, v, h);
    if id == self {
      SelfSame(v, self, g, h);
    } else if id in v && v[id].state == Dead {
      assert Climbs(v[id], Merge(v, self, g)[id]) && Climbs(v[id], Merge(v, self, h)[id]);
    } else if c :| c in g && c.id == id && c.state == Dead && Beats(v, c) {
      DeadDecides(v, self, g, c);
      DeadDecides(v, self, h, c);
    } else {
      if id in Merge(v, self, g) {
        NobodyDies(v, self, g, id);
      }
      if id in Merge(v, self, h) {
        NobodyDies(v, self, h, id);
      }
      LivingSame(v, self, g, h, id);
    }
  }

  lemma {:induction false} MergeHead(v: View, self: NodeId, c: Claim, rest: seq<Claim>)
    requires self in v
    ensures Merge(v, self, [c] + rest) == Merge(MergeOne(v, self, c), self, rest)
  {
    if rest == [] {
      assert [c] + rest == [c] && [c][..0] == [];
    } else {
      assert ([c] + rest)[..|rest|] == [c] + rest[..|rest| - 1];
      MergeHead(v, self, c, rest[..|rest| - 1]);
    }
  }

  /** The claims with one of them moved to the front. */
  function ToFront(gossip: seq<Claim>, i: nat): seq<Claim>
    requires i < |gossip|
  {
    [gossip[i]] + (gossip[..i] + gossip[i + 1..])
  }

  lemma ToFrontOrders(gossip: seq<Claim>, i: nat)
    requires i < |gossip|
    ensures multiset(ToFront(gossip, i)) == multiset(gossip)
  {
    assert gossip == gossip[..i] + [gossip[i]] + gossip[i + 1..];
  }

  /** A Dead claim that is outbid: it decides if it comes first, and not if the other does. */
  lemma DeadOrderMatters(v: View, self: NodeId, gossip: seq<Claim>, i: nat, j: nat)
    requires self in v && i < |gossip| && j < |gossip|
    requires var c, c' := gossip[i], gossip[j];
      c.id == c'.id != self && c.state == Dead && Beats(v, c) && c'.incarnation > c.incarnation
    ensures !SameAt(Merge(v, self, ToFront(gossip, i)), Merge(v, self, ToFront(gossip, j)), gossip[i].id)
  {
    var c, c' := gossip[i], gossip[j];
    MergeHead(v, self, c, gossip[..i] + gossip[i + 1..]);
    MergeHead(v, self, c', gossip[..j] + gossip[j + 1..]);
    MergeMonotone(self, MergeOne(v, self, c), gossip[..i] + gossip[i + 1..]);
    MergeNotBelow(MergeOne(v, self, c'), self, gossip[..j] + gossip[j + 1..], c.id);
  }

  /** Every order of the same claims leads to the same standings. */
  ghost predicate OrderIrrelevant(v: View, self: NodeId, gossip: seq<Claim>)
    requires self in v
  {
    forall g :: multiset(g) == multiset(gossip) ==> SameView(Merge(v, self, g), Merge(v, self, gossip))
  }

  /** Every order, with any claim repeated any number of times. */
  ghost predicate RepetitionIrrelevant(v: View, self: NodeId, gossip: seq<Claim>)
    requires self in v
  {
    forall g :: SameClaims(g, gossip) ==> SameView(Merge(v, self, g), Merge(v, self, gossip))
  }

  lemma SameMultisetSameClaims(g: seq<Claim>, h: seq<Claim>)
    requires multiset(g) == multiset(h)
    ensures SameClaims(g, h)
  {
    forall c
      ensures c in g <==> c in h
    {
      assert c in g <==> c in multiset(g);
      assert c in h <==> c in multiset(h);
    }
  }

  /** The highest claim that the node lives. */
  lemma {:induction false} HighestAlive(self: NodeId, gossip: seq<Claim>) returns (j: nat)
    requires exists c :: c in gossip && c.id == self && c.state == Alive
    ensures j < |gossip| && gossip[j].id == self && gossip[j].state == Alive
    ensures forall c :: c in gossip && c.id == self && c.state == Alive ==> c.incarnation <= gossip[j].incarnation
  {
    var init, d := gossip[..|gossip| - 1], gossip[|gossip| - 1];
    assert gossip == init + [d];
    if exists c :: c in init && c.id == self && c.state == Alive {
      j := HighestAlive(self, init);
      if d.id == self && d.state == Alive && d.incarnation > gossip[j].incarnation {
        j := |gossip| - 1;
      }
    } else {
      j := |gossip| - 1;
    }
  }

  /** A failure claim that is outbid revives the node if it comes first, and not if the claim that it lives does. */
  lemma ReviveOrderMatters(v: View, self: NodeId, gossip: seq<Claim>, i: nat, j: nat)
    requires self in v && v[self].state != Alive && i < |gossip| && j < |gossip|
    requires Fails(gossip[i], self) && gossip[i].incarnation >= v[self].incarnation
    requires gossip[j].id == self && gossip[j].state == Alive && gossip[j].incarnation > v[self].incarnation
    requires forall c :: c in gossip && Fails(c, self) ==> c.incarnation < gossip[j].incarnation
    ensures !SameAt(Merge(v, self, ToFront(gossip, i)), Merge(v, self, ToFront(gossip, j)), self)
  {
    var c, c' := gossip[i], gossip[j];
    var rest, rest' := gossip[..i] + gossip[i + 1..], gossip[..j] + gossip[j + 1..];
    MergeHead(v, self, c, rest);
    MergeMonotone(self, MergeOne(v, self, c), rest);
    MergeHead(v, self, c', rest');
    SelfStays(MergeOne(v, self, c'), self, rest');
  }

  lemma SameViewsJoin(a: View, b: View, m: View)
    requires SameView(a, m) && SameView(b, m)
    ensures SameView(a, b)
  {
    forall id
      ensures SameAt(a, b, id)
    {
      assert SameAt(a, m, id) && SameAt(b, m, id);
    }
  }

  /** Where order does not matter, any two claims may come first. */
  lemma FrontsSame(v: View, self: NodeId, gossip: seq<Claim>, i: nat, j: nat)
    requires self in v && i < |gossip| && j < |gossip|
    requires OrderIrrelevant(v, self, gossip) || RepetitionIrrelevant(v, self, gossip)
    ensures SameView(Merge(v, self, ToFront(gossip, i)), Merge(v, self, ToFront(gossip, j)))
  {
    hide Merge, ToFront, SameView, SameClaims;
    var g, h := ToFront(gossip, i), ToFront(gossip, j);
    ToFrontOrders(gossip, i);
    ToFrontOrders(gossip, j);
    SameMultisetSameClaims(g, gossip);
    SameMultisetSameClaims(h, gossip);
    SameViewsJoin(Merge(v, self, g), Merge(v, self, h), Merge(v, self, gossip));
  }

  lemma UnsettledMatters(v: View, self: NodeId, gossip: seq<Claim>)
    requires self in v && !SelfSettled(v, self, gossip)
    ensures !OrderIrrelevant(v, self, gossip) && !RepetitionIrrelevant(v, self, gossip)
  {
    hide OrderIrrelevant, RepetitionIrrelevant, SameAt;
    var c :| c in gossip && Fails(c, self) && c.incarnation >= v[self].incarnation;
    assert !Revives(v, self, gossip, c);
    var d :| d in gossip && d.id == self && d.state == Alive && d.incarnation > c.incarnation;
    var j := HighestAlive(self, gossip);
    forall f | f in gossip && Fails(f, self)
      ensures f.incarnation < gossip[j].incarnation
    {
      if f.incarnation >= v[self].incarnation {
        assert !Revives(v, self, gossip, f);
      }
    }
    var i :| 0 <= i < |gossip| && gossip[i] == c;
    ReviveOrderMatters(v, self, gossip, i, j);
    if OrderIrrelevant(v, self, gossip) || RepetitionIrrelevant(v, self, gossip) {
      FrontsSame(v, self, gossip, i, j);
    }
  }

  /**
   Order and repetition are irrelevant iff no Dead claim that would be taken over is outbid and, should
   the node not be alive in its own view, it is revived in every order or in none.
   */
  lemma OrderIrrelevantIff(v: View, self: NodeId, gossip: seq<Claim>)
    requires self in v
    ensures OrderIrrelevant(v, self, gossip) <==> DeadUnbid(v, self, gossip) && SelfSettled(v, self, gossip)
    ensures RepetitionIrrelevant(v, self, gossip) <==> DeadUnbid(v, self, gossip) && SelfSettled(v, self, gossip)
  {
    hide Merge, Beats, SameAt;
    if !SelfSettled(v, self, gossip) {
      UnsettledMatters(v, self, gossip);
    } else if DeadUnbid(v, self, gossip) {
      forall g, id | SameClaims(g, gossip)
        ensures SameAt(Merge(v, self, g), Merge(v, self, gossip), id)
      {
        assert DeadUnbid(v, self, g) && SelfSettled(v, self, g);
        MergeOrderIrrelevant(v, self, g, gossip, id);
      }
      forall g | multiset(g) == multiset(gossip)
        ensures SameView(Merge(v, self, g), Merge(v, self, gossip))
      {
        SameMultisetSameClaims(g, gossip);
      }
    } else {
      var c, c' :| c in gossip && c' in gossip && c.id == c'.id != self && c.state == Dead && Beats(v, c)
        && c'.incarnation > c.incarnation;
      var i :| 0 <= i < |gossip| && gossip[i] == c;
      var j :| 0 <= j < |gossip| && gossip[j] == c';
      DeadOrderMatters(v, self, gossip, i, j);
      if OrderIrrelevant(v, self, gossip) || RepetitionIrrelevant(v, self, gossip) {
        FrontsSame(v, self, gossip, i, j);
      }
    }
  }
}

module SwimObject {
  import opened Storage
  import opened Chains
  import M = SwimModel
  import opened StringLists

  class Membership {
    const self: NodeId
    var members: M.View

    ghost predicate Valid()
      reads this
    {
      self in members
    }

    constructor (self: NodeId)
      ensures Valid() && this.self == self && members == M.Init(self)
    {
      this.self := self;
      members := map[self := M.Member(M.Alive, 0, 0)];
    }

    method Alive(id: NodeId, incarnation: nat)
      requires Valid()
      modifies this
      ensures Valid() && members == M.MarkAlive(old(members), id, incarnation)
    {
      if id !in members {
        members := members[id := M.Member(M.Alive, incarnation, 0)];
        return;
      }
      var cur := members[id];
      if cur.state == M.Dead {
        return;
      }
      if incarnation < cur.incarnation {
        return;
      }
      if incarnation == cur.incarnation && cur.state == M.Suspect {
        return;
      }
      members := members[id := M.Member(M.Alive, incarnation, 0)];
    }

    method RefuteSuspicion()
      requires Valid()
      modifies this
      ensures Valid() && members == M.Refute(old(members), self)
    {
      var me := members[self];
      members := members[self := M.Member(M.Alive, me.incarnation + 1, 0)];
    }

    method Suspect(id: NodeId, incarnation: nat, now: int)
      requires Valid()
      modifies this
      ensures Valid() && members == M.MarkSuspect(old(members), self, id, incarnation, now)
      ensures id != self && id !in old(members) ==>
        id in members && members[id] == M.Member(M.Suspect, incarnation, now)
      ensures id != self && id in old(members) ==>
        (old(members)[id].state == M.Alive && old(members)[id].incarnation <= incarnation ==>
          members[id] == M.Member(M.Suspect, incarnation, now))
    {
      if id == self {
        RefuteSuspicion();
        return;
      }
      if id !in members {
        members := members[id := M.Member(M.Suspect, incarnation, now)];
        return;
      }
      var cur := members[id];
      if cur.state == M.Dead {
        return;
      }
      if incarnation < cur.incarnation {
        return;
      }
      if cur.state == M.Suspect && incarnation == cur.incarnation {
        return;
      }
      members := members[id := M.Member(M.Suspect, incarnation, now)];
    }

    method Dead(id: NodeId)
      requires Valid()
      modifies this
      ensures Valid() && members == M.MarkDead(old(members), id)
    {
      if id !in members {
        members := members[id := M.Member(M.Dead, 0, 0)];
        return;
      }
      members := members[id := members[id].(state := M.Dead, suspectedAt := 0)];
    }

    /** The names promoted, sorted. */
    method TickSuspicions(deadline: int) returns (promoted: seq<string>)
      requires Valid()
      modifies this
      ensures Valid() && members == M.Tick(old(members), deadline)
      ensures Ascending(promoted)
      ensures forall id: NodeId :: id.name in promoted <==> id in old(members) && M.Expired(old(members)[id], deadline)
    {
      promoted := [];
      var todo := members.Keys;
      while todo != {}
        invariant members.Keys == old(members).Keys && todo <= members.Keys
        invariant forall id :: id in todo ==> members[id] == old(members)[id]
        invariant forall id :: id in members && id !in todo ==> members[id] == Promoted(old(members)[id], deadline)
        invariant Different(promoted)
        invariant forall id: NodeId :: id.name in promoted <==>
          id in old(members) && id !in todo && M.Expired(old(members)[id], deadline)
        decreases |todo|
      {
        var id :| id in todo;
        if members[id].state == M.Suspect && members[id].suspectedAt < deadline {
          members := members[id := members[id].(state := M.Dead, suspectedAt := 0)];
          assert id.name !in promoted;
          promoted := promoted + [id.name];
        }
        todo := todo - {id};
      }
      promoted := SortStrings(promoted);
    }

    predicate GossipWins(cur: M.Member, g: M.Claim): (wins: bool)
      ensures wins <==> M.GossipWins(cur, g)
    {
      if g.incarnation > cur.incarnation then true
      else if g.incarnation < cur.incarnation then false
      else M.Precedence(g.state) > M.Precedence(cur.state)
    }

    method MergeSelf(g: M.Claim)
      requires Valid()
      modifies this
      ensures Valid() && members == M.MergeSelf(old(members), self, g)
    {
      var me := members[self];
      if g.state == M.Alive {
        if g.incarnation > me.incarnation {
          members := members[self := me.(incarnation := g.incarnation)];
        }
        return;
      }
      if g.incarnation < me.incarnation {
        return;
      }
      members := members[self := M.Member(M.Alive, g.incarnation + 1, 0)];
    }

    method Merge(gossip: seq<M.Claim>)
      requires Valid()
      modifies this
      ensures Valid() && members == M.Merge(old(members), self, gossip)
    {
      for i := 0 to |gossip|
        invariant Valid() && members == M.Merge(old(members), self, gossip[..i])
      {
        var g := gossip[i];
        assert gossip[..i + 1][..i] == gossip[..i];
        if g.id == self {
          MergeSelf(g);
          continue;
        }
        if g.id !in members {
          members := members[g.id := M.Member(g.state, g.incarnation, 0)];
          continue;
        }
        var cur := members[g.id];
        if cur.state == M.Dead {
          continue;
        }
        if GossipWins(cur, g) {
          members := members[g.id := M.Member(g.state, g.incarnation, 0)];
        }
      }
      assert gossip[..|gossip|] == gossip;
    }
  }

  function Promoted(m: M.Member, deadline: int): M.Member
  {
    if M.Expired(m, deadline) then M.Member(M.Dead, m.incarnation, 0) else m
  }
}
