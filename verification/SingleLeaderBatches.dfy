/**
 Atomic batches (WriteBatch in internal/node/leader.go). A batch is appended entry by entry and sent
 as one message, and other leader steps may come between. Exactly which of them can leave a follower
 with a part of the batch?
 */
module SingleLeaderBatches {
  import opened Storage
  import opened SingleLeaderModel
  import opened SingleLeaderSafety

  /** The step disturbs a batch that is being appended: it logs something else, or sends the batch's first entry. */
  ghost predicate Disturbs(s: System, step: Step)
  {
    s.open != map[] &&
    match step
    case WriteStep(_) => true
    case BatchStep(_) => true
    case BatchAppendStep(b, _) => b !in s.open
    case BatchStoreStep(_) => false
    case BatchSendStep(_) => false
    case ResendStep(from) => exists b :: b in s.open && s.open[b] != [] && from <= s.open[b][0].index
    case DeliverStep(_, _) => false
  }

  ghost predicate Undisturbed(tr: seq<System>, steps: seq<Step>)
    requires |tr| == |steps| + 1
  {
    forall i :: 0 <= i < |steps| ==> !Disturbs(tr[i], steps[i])
  }

  /** The lengths the leader's log had while no batch was being appended. */
  function Cuts(tr: seq<System>, i: nat): set<nat>
    requires i < |tr|
  {
    (if i == 0 then {} else Cuts(tr, i - 1)) + Cut(tr[i])
  }

  function Cut(s: System): set<nat>
  {
    if s.open == map[] then {|s.leader.log|} else {}
  }

  /** The last of them. */
  function Base(tr: seq<System>, i: nat): nat
    requires i < |tr|
  {
    if tr[i].open == map[] || i == 0 then |tr[i].leader.log| else Base(tr, i - 1)
  }

  // ---------------------------------------------------------------- index sets

  function Indices(entries: seq<LogEntry>): set<nat>
  {
    set e | e in entries :: e.index
  }

  ghost predicate Spans(ix: set<nat>, c: nat, c': nat)
  {
    forall i :: c < i <= c' ==> i in ix
  }

  ghost predicate Reaches(ix: set<nat>, c: nat, cuts: set<nat>)
  {
    exists c' :: c' in cuts && c < c' && Spans(ix, c, c')
  }

  /** Whoever has the first index after a cut, from `low` on, has all up to a later cut. */
  ghost predicate WholeFrom(ix: set<nat>, cuts: set<nat>, low: nat)
  {
    forall c :: c in cuts && c >= low && c + 1 in ix ==> Reaches(ix, c, cuts)
  }

  ghost predicate Whole(ix: set<nat>, cuts: set<nat>)
  {
    WholeFrom(ix, cuts, 0)
  }

  lemma ReachesMore(ix: set<nat>, ix': set<nat>, c: nat, cuts: set<nat>, cuts': set<nat>)
    requires Reaches(ix, c, cuts) && cuts <= cuts' && forall i :: i in ix && i > c ==> i in ix'
    ensures Reaches(ix', c, cuts')
  {
  }

  /** A stretch that ends at a cut. */
  lemma StretchWhole(ix: set<nat>, cuts: set<nat>, from: nat, to: nat)
    requires to in cuts && forall i :: i in ix <==> from <= i <= to && i >= 1
    ensures Whole(ix, cuts)
  {
  }

  // ---------------------------------------------------------------- a follower stops at cuts only

  ghost predicate Above(f: Follower)
  {
    forall i :: i in f.pending ==> i > f.applied
  }

  ghost predicate StopsWhole(f: Follower, cuts: set<nat>)
  {
    f.applied in cuts && Above(f) && Whole(f.pending.Keys, cuts)
  }

  lemma BufferedKeys(f: Follower, entries: seq<LogEntry>)
    ensures Buffer(f.applied, f.pending, entries).Keys == f.pending.Keys + set i | i in Indices(entries)
      && i > f.applied
  {
  }

  lemma BufferWhole(f: Follower, entries: seq<LogEntry>, cuts: set<nat>)
    requires StopsWhole(f, cuts) && Whole(Indices(entries), cuts)
    ensures StopsWhole(f.(pending := Buffer(f.applied, f.pending, entries)), cuts)
  {
    hide Buffer;
    BufferedKeys(f, entries);
    var ix := Buffer(f.applied, f.pending, entries).Keys;
    forall c | c in cuts && c + 1 in ix
      ensures Reaches(ix, c, cuts)
    {
      if c + 1 in f.pending.Keys {
        ReachesMore(f.pending.Keys, ix, c, cuts, cuts);
      } else {
        ReachesMore(Indices(entries), ix, c, cuts, cuts);
      }
    }
  }

  lemma ApplyOneKeys(f: Follower)
    requires Above(f) && f.applied + 1 in f.pending
    ensures ApplyOne(f).pending.Keys == f.pending.Keys - {f.applied + 1}
    ensures ApplyOne(f).applied == f.applied + 1 && Above(ApplyOne(f))
    ensures |ApplyOne(f).pending| < |f.pending|
  {
  }

  /** Losing an index at or below the limit leaves what follows later cuts. */
  lemma WholeAfter(ix: set<nat>, cuts: set<nat>, low: nat, low': nat, i: nat)
    requires WholeFrom(ix, cuts, low) && low <= low' && i <= low'
    ensures WholeFrom(ix - {i}, cuts, low')
  {
  }

  lemma AtGoal(f: Follower, cuts: set<nat>)
    requires f.applied in cuts && Above(f) && WholeFrom(f.pending.Keys, cuts, f.applied)
    ensures StopsWhole(f, cuts)
  {
    hide Reaches;
  }

  /** Applying what is contiguous, on the way to a cut. */
  lemma {:induction false} CatchUpWhole(f: Follower, cuts: set<nat>, goal: nat)
    requires goal in cuts && f.applied <= goal && Spans(f.pending.Keys, f.applied, goal)
    requires Above(f) && WholeFrom(f.pending.Keys, cuts, goal)
    ensures StopsWhole(CatchUp(f), cuts)
    decreases |f.pending|
  {
    hide WholeFrom, ApplyOne, Above, StopsWhole;
    if f.applied + 1 in f.pending {
      var next := if f.applied < goal then goal else NextCut(f.pending.Keys, goal, cuts);
      ApplyOneKeys(f);
      WholeAfter(f.pending.Keys, cuts, goal, next, f.applied + 1);
      CatchUpWhole(ApplyOne(f), cuts, next);
    } else {
      AtGoal(f, cuts);
    }
  }

  ghost function NextCut(ix: set<nat>, c: nat, cuts: set<nat>): (c': nat)
    requires c in cuts && c + 1 in ix && WholeFrom(ix, cuts, c)
    ensures c' in cuts && c < c' && Spans(ix, c, c')
  {
    assert Reaches(ix, c, cuts);
    var c' :| c' in cuts && c < c' && Spans(ix, c, c');
    c'
  }

  lemma {:induction false} CatchUpKeeps(f: Follower)
    requires Above(f)
    ensures CatchUp(f).pending.Keys == set i | i in f.pending && i > CatchUp(f).applied
    ensures CatchUp(f).applied >= f.applied
    decreases |f.pending|
  {
    if f.applied + 1 in f.pending {
      CatchUpKeeps(ApplyOne(f));
    }
  }

  lemma DeliverWhole(f: Follower, m: Message, cuts: set<nat>)
    requires StopsWhole(f, cuts) && Whole(Indices(m.entries), cuts)
    ensures StopsWhole(ApplyEntries(f, m), cuts)
    ensures ApplyEntries(f, m).pending.Keys <= f.pending.Keys + Indices(m.entries)
  {
    hide Buffer, CatchUp, Whole, Spans;
    BufferWhole(f, m.entries, cuts);
    BufferedKeys(f, m.entries);
    var g := f.(pending := Buffer(f.applied, f.pending, m.entries));
    assert Spans(g.pending.Keys, g.applied, g.applied) by { NothingBetween(g.pending.Keys, g.applied); }
    WholeAbove(g.pending.Keys, cuts, g.applied);
    CatchUpWhole(g, cuts, g.applied);
    CatchUpKeeps(g);
  }

  lemma NothingBetween(ix: set<nat>, c: nat)
    ensures Spans(ix, c, c)
  {
  }

  lemma WholeAbove(ix: set<nat>, cuts: set<nat>, low: nat)
    requires Whole(ix, cuts)
    ensures WholeFrom(ix, cuts, low)
  {
  }

  // ---------------------------------------------------------------- the invariant of undisturbed runs

  ghost predicate OpenIsTail(s: System, base: nat)
  {
    && base <= |s.leader.log| && (s.open == map[] ==> base == |s.leader.log|)
    && forall b :: b in s.open ==> s.open.Keys == {b} && base < |s.leader.log| && s.open[b] == s.leader.log[base..]
  }

  ghost predicate MessagesWhole(sent: set<Message>, cuts: set<nat>, base: nat)
  {
    forall m :: m in sent ==> Whole(Indices(m.entries), cuts) && base + 1 !in Indices(m.entries)
  }

  /** Everything up to here has been sent. */
  ghost predicate Covered(sent: set<Message>, base: nat)
  {
    forall i :: 1 <= i <= base ==> Sent(sent, i)
  }

  ghost predicate Sent(sent: set<Message>, i: nat)
  {
    exists m :: m in sent && i in Indices(m.entries)
  }

  ghost predicate FollowersWhole(followers: map<NodeId, Follower>, cuts: set<nat>, base: nat)
  {
    forall id :: id in followers ==> StopsWhole(followers[id], cuts) && base + 1 !in followers[id].pending
  }

  ghost predicate BatchInv(s: System, cuts: set<nat>, base: nat)
  {
    && base in cuts && (forall c :: c in cuts ==> c <= base)
    && OpenIsTail(s, base)
    && MessagesWhole(s.sent, cuts, base) && Covered(s.sent, base)
    && FollowersWhole(s.followers, cuts, base)
  }

  function NewBase(s: System, base: nat): nat
  {
    if s.open == map[] then |s.leader.log| else base
  }

  lemma MessagesAtEnd(sent: set<Message>, cuts: set<nat>, base: nat, m: Message, log: seq<LogEntry>, n: nat)
    requires SentOk(sent, log) && MessagesWhole(sent, cuts, base) && |log| <= n && base < n
    requires forall i :: i in Indices(m.entries) <==> base < i <= n
    ensures MessagesWhole(sent + {m}, cuts + {n}, n)
  {
  }

  lemma CoveredMore(sent: set<Message>, base: nat, m: Message, n: nat)
    requires Covered(sent, base) && forall i :: base < i <= n ==> i in Indices(m.entries)
    ensures Covered(sent + {m}, n)
  {
    forall i | 1 <= i <= n
      ensures Sent(sent + {m}, i)
    {
      if i > base {
        assert m in sent + {m} && i in Indices(m.entries);
      } else {
        assert Sent(sent, i);
        var m' :| m' in sent && i in Indices(m'.entries);
        assert m' in sent + {m};
      }
    }
  }

  lemma FollowersAtEnd(s: System, cuts: set<nat>, base: nat, n: nat)
    requires Inv(s) && FollowersWhole(s.followers, cuts, base) && |s.leader.log| <= n
    ensures FollowersWhole(s.followers, cuts + {n}, n)
  {
  }

  /** A cut at the end of the log, and one message that leads up to it. */
  lemma CutAtEnd(s: System, cuts: set<nat>, base: nat, m: Message, log: seq<LogEntry>)
    requires Inv(s) && BatchInv(s, cuts, base) && s.leader.log <= log && base < |log|
    requires forall i :: i in Indices(m.entries) <==> base < i <= |log|
    ensures var cuts' := cuts + {|log|};
      && MessagesWhole(s.sent + {m}, cuts', |log|) && Covered(s.sent + {m}, |log|)
      && FollowersWhole(s.followers, cuts', |log|)
  {
    hide FollowerOk, SentOk, OpenOk, MessagesWhole, Covered, FollowersWhole, OpenIsTail, Indices;
    MessagesAtEnd(s.sent, cuts, base, m, s.leader.log, |log|);
    CoveredMore(s.sent, base, m, |log|);
    FollowersAtEnd(s, cuts, base, |log|);
  }

  lemma NothingBeyond(f: Follower, log: seq<LogEntry>, i: nat)
    requires FollowerOk(f, log) && i > |log|
    ensures i !in f.pending
  {
  }

  lemma TailIndices(log: seq<LogEntry>, from: nat)
    requires IndexedLog(log) && from <= |log|
    ensures forall i :: i in Indices(log[from..]) <==> from < i <= |log|
  {
    forall i | from < i <= |log|
      ensures i in Indices(log[from..])
    {
      assert log[from..][i - 1 - from].index == i;
    }
  }

  lemma WriteKeepsBatches(s: System, e: LogEntry, cuts: set<nat>, base: nat)
    requires Inv(s) && BatchInv(s, cuts, base) && s.open == map[]
    ensures var s' := Take(s, WriteStep(e)); BatchInv(s', cuts + {|s'.leader.log|}, |s'.leader.log|)
  {
    hide MessagesWhole, Covered, FollowersWhole, ApplyLocally;
    var m := Message([Indexed(s.leader, e)], |s.leader.log| + 1);
    assert Indices(m.entries) == {|s.leader.log| + 1} by { assert m.entries[0] in m.entries; }
    CutAtEnd(s, cuts, base, m, Append(s.leader, e).log);
  }

  lemma BatchKeepsBatches(s: System, es: seq<LogEntry>, cuts: set<nat>, base: nat)
    requires Inv(s) && BatchInv(s, cuts, base) && s.open == map[] && es != []
    ensures var s' := Take(s, BatchStep(es)); BatchInv(s', cuts + {|s'.leader.log|}, |s'.leader.log|)
  {
    hide MessagesWhole, Covered, FollowersWhole, AppendAll;
    var l := AppendAll(s.leader, es);
    AppendAllKeepsLog(s.leader, es);
    TailIndices(l.log, |s.leader.log|);
    assert From(l.log, |s.leader.log| + 1) == l.log[|s.leader.log|..];
    CutAtEnd(s, cuts, base, Message(From(l.log, |s.leader.log| + 1), |l.log|), l.log);
  }

  lemma SendKeepsBatches(s: System, b: nat, cuts: set<nat>, base: nat)
    requires Inv(s) && BatchInv(s, cuts, base) && b in s.open && b !in s.unstored
    ensures s.open[b] != []
    ensures var s' := Take(s, BatchSendStep(b));
      s'.open == map[] && BatchInv(s', cuts + {|s'.leader.log|}, |s'.leader.log|)
  {
    hide MessagesWhole, Covered, FollowersWhole;
    TailIndices(s.leader.log, base);
    assert s.open.Keys == {b} && s.open[b] == s.leader.log[base..];
    assert (s.open - {b}).Keys == {};
    var m := Message(s.open[b], s.open[b][|s.open[b]| - 1].index);
    CutAtEnd(s, cuts, base, m, s.leader.log);
  }

  lemma AppendKeepsBatches(s: System, b: nat, e: LogEntry, cuts: set<nat>, base: nat)
    requires Inv(s) && BatchInv(s, cuts, base) && (s.open == map[] || b in s.open) && b !in s.unstored
    ensures BatchInv(Take(s, BatchAppendStep(b, e)), cuts, base) && b in Take(s, BatchAppendStep(b, e)).open
  {
  }

  lemma FromIndices(log: seq<LogEntry>, from: nat)
    requires IndexedLog(log)
    ensures forall i :: i in Indices(From(log, from)) <==> from <= i <= |log| && i >= 1
  {
    forall i: nat
      ensures i in Indices(From(log, from)) <==> from <= i <= |log| && i >= 1
    {
      FromHas(log, from, i);
      assert HasIndex(From(log, from), i) <==> i in Indices(From(log, from));
    }
  }

  lemma ResendWhole(s: System, from: nat, cuts: set<nat>, base: nat)
    requires IndexedLog(s.leader.log) && OpenIsTail(s, base) && base in cuts && forall c :: c in cuts ==> c <= base
    requires !Disturbs(s, ResendStep(from))
    ensures var ix := Indices(From(s.leader.log, from)); Whole(ix, cuts) && base + 1 !in ix
  {
    hide Whole, Indices, From;
    var ix := Indices(From(s.leader.log, from));
    FromIndices(s.leader.log, from);
    if s.open == map[] {
      StretchWhole(ix, cuts, from, |s.leader.log|);
    } else {
      var b :| b in s.open;
      assert s.open[b] == s.leader.log[base..] && s.open[b][0] == s.leader.log[base];
      LateWhole(ix, cuts, base);
    }
  }

  lemma ResendKeepsBatches(s: System, from: nat, cuts: set<nat>, base: nat)
    requires Inv(s) && BatchInv(s, cuts, base) && Enabled(s, ResendStep(from)) && !Disturbs(s, ResendStep(from))
    ensures BatchInv(Take(s, ResendStep(from)), cuts, base)
  {
    hide FollowersWhole, Whole, Indices, From, Covered, SentOk, OpenOk, FollowerOk, Disturbs;
    ResendWhole(s, from, cuts, base);
    CoveredMore(s.sent, base, Message(From(s.leader.log, from), |s.leader.log|), base);
  }

  /** Indices that lie beyond what follows the last cut. */
  lemma LateWhole(ix: set<nat>, cuts: set<nat>, base: nat)
    requires (forall c :: c in cuts ==> c <= base) && forall i :: i in ix ==> i > base + 1
    ensures Whole(ix, cuts)
  {
  }

  lemma DeliverKeepsBatches(s: System, id: NodeId, m: Message, cuts: set<nat>, base: nat)
    requires BatchInv(s, cuts, base) && Enabled(s, DeliverStep(id, m))
    ensures BatchInv(Take(s, DeliverStep(id, m)), cuts, base)
  {
    hide Whole, StopsWhole, ApplyEntries, Covered, Indices;
    DeliverWhole(s.followers[id], m, cuts);
    assert base + 1 !in ApplyEntries(s.followers[id], m).pending.Keys;
  }

  lemma StoreKeepsBatches(s: System, b: nat, cuts: set<nat>, base: nat)
    requires BatchInv(s, cuts, base) && b in s.unstored
    ensures BatchInv(Take(s, BatchStoreStep(b)), cuts, base)
  {
    hide MessagesWhole, Covered, FollowersWhole, ApplyLocally;
  }

  /** Every step that does not disturb a batch keeps followers at cuts. */
  lemma StepKeepsBatches(s: System, step: Step, s': System, cuts: set<nat>, base: nat)
    requires Next(s, step, s') && Inv(s) && BatchInv(s, cuts, base) && !Disturbs(s, step)
    ensures BatchInv(s', cuts + Cut(s'), NewBase(s', base))
  {
    hide Inv, BatchInv;
    assert OpenIsTail(s, base) && base in cuts by { InvParts(s, cuts, base); }
    match step
    case WriteStep(e) => WriteKeepsBatches(s, e, cuts, base);
    case BatchStep(es) => BatchKeepsBatches(s, es, cuts, base);
    case BatchAppendStep(b, e) =>
      AppendKeepsBatches(s, b, e, cuts, base);
      assert cuts + {} == cuts;
    case BatchStoreStep(b) =>
      StoreKeepsBatches(s, b, cuts, base);
      SameCuts(s, s', cuts, base);
    case BatchSendStep(b) => SendKeepsBatches(s, b, cuts, base);
    case ResendStep(from) =>
      ResendKeepsBatches(s, from, cuts, base);
      SameCuts(s, s', cuts, base);
    case DeliverStep(id, m) =>
      DeliverKeepsBatches(s, id, m, cuts, base);
      SameCuts(s, s', cuts, base);
  }

  lemma InvParts(s: System, cuts: set<nat>, base: nat)
    requires BatchInv(s, cuts, base)
    ensures OpenIsTail(s, base) && base in cuts && forall c :: c in cuts ==> c <= base
  {
  }

  lemma SameCuts(s: System, s': System, cuts: set<nat>, base: nat)
    requires OpenIsTail(s, base) && base in cuts && s'.open == s.open && s'.leader.log == s.leader.log
    ensures cuts + Cut(s') == cuts && NewBase(s', base) == base
  {
  }

  lemma InitBatches(ids: set<NodeId>)
    ensures BatchInv(Init(ids), {0}, 0)
  {
  }

  lemma {:induction false} RunBatches(ids: set<NodeId>, tr: seq<System>, steps: seq<Step>, i: nat)
    requires IsRun(ids, tr, steps) && Undisturbed(tr, steps) && i < |tr|
    ensures BatchInv(tr[i], Cuts(tr, i), Base(tr, i))
  {
    hide Next, BatchInv, Inv, Disturbs;
    if i == 0 {
      InitBatches(ids);
      assert {} + {0} == {0};
    } else {
      RunBatches(ids, tr, steps, i - 1);
      assert Next(tr[i - 1], steps[i - 1], tr[i]);
      RunInv(ids, tr, steps, i - 1);
      StepKeepsBatches(tr[i - 1], steps[i - 1], tr[i], Cuts(tr, i - 1), Base(tr, i - 1));
    }
  }

  lemma {:induction false} CutIsLength(tr: seq<System>, i: nat, n: nat)
    requires i < |tr| && n in Cuts(tr, i)
    ensures exists j :: 0 <= j <= i && tr[j].open == map[] && n == |tr[j].leader.log|
  {
    if n !in Cut(tr[i]) {
      CutIsLength(tr, i - 1, n);
    }
  }

  /**
   While nothing disturbs a batch that is being appended, whatever is lost, repeated or reordered,
   a follower always stands where the leader stood between batches.
   */
  lemma BatchesApplyWhole(ids: set<NodeId>, tr: seq<System>, steps: seq<Step>, i: nat, id: NodeId)
    requires IsRun(ids, tr, steps) && Undisturbed(tr, steps) && i < |tr| && id in tr[i].followers
    ensures exists j :: 0 <= j <= i && tr[j].open == map[] && tr[i].followers[id].applied == |tr[j].leader.log|
  {
    RunBatches(ids, tr, steps, i);
    CutIsLength(tr, i, tr[i].followers[id].applied);
  }

  // ---------------------------------------------------------------- going on from a state

  /** Deliveries, and the batch's own appends and stores. */
  predicate Quiet(steps: seq<Step>, b: nat)
  {
    forall i :: 0 <= i < |steps| ==> QuietFor(steps[i], b)
  }

  predicate QuietFor(step: Step, b: nat)
  {
    || step.DeliverStep?
    || (step.BatchAppendStep? && step.batch == b)
    || step == BatchStoreStep(b)
  }

  predicate Deliveries(steps: seq<Step>)
  {
    forall i :: 0 <= i < |steps| ==> steps[i].DeliverStep?
  }

  /** Some but not all of the batch is applied. */
  predicate Inside(applied: nat, batch: seq<LogEntry>)
  {
    batch != [] && batch[0].index <= applied < batch[|batch| - 1].index
  }

  /** After the step and the quiet rest of the batch, its send, and some deliveries, the follower is inside it. */
  ghost predicate Splits(s: System, b: nat, step: Step, id: NodeId, rest: seq<Step>, late: seq<Step>)
  {
    && Quiet(rest, b) && Deliveries(late)
    && Runs(s, [step] + rest)
    && var u := After(s, [step] + rest);
       && b in u.open && Runs(u, [BatchSendStep(b)] + late)
       && var v := After(u, [BatchSendStep(b)] + late);
          id in v.followers && Inside(v.followers[id].applied, u.open[b])
  }

  ghost predicate CanSplit(s: System, b: nat, step: Step, id: NodeId)
  {
    exists rest, late :: Splits(s, b, step, id, rest, late)
  }

  // ---------------------------------------------------------------- what does not disturb does not split

  ghost predicate Good(s: System, b: nat, cuts: set<nat>, base: nat)
  {
    Inv(s) && BatchInv(s, cuts, base) && s.open.Keys <= {b}
  }

  lemma QuietStep(s: System, step: Step, b: nat, cuts: set<nat>, base: nat)
    requires Good(s, b, cuts, base) && Enabled(s, step)
    requires QuietFor(step, b)
    ensures Good(Take(s, step), b, cuts, base)
  {
    hide Inv, BatchInv;
    StepKeepsInv(s, step, Take(s, step));
    match step
    case DeliverStep(id, m) => DeliverKeepsBatches(s, id, m, cuts, base);
    case BatchAppendStep(_, e) =>
      assert s.open == map[] || b in s.open;
      AppendKeepsBatches(s, b, e, cuts, base);
    case BatchStoreStep(_) => StoreKeepsBatches(s, b, cuts, base);
  }

  lemma {:induction false} QuietRest(s: System, steps: seq<Step>, b: nat, cuts: set<nat>, base: nat)
    requires Good(s, b, cuts, base) && Quiet(steps, b) && Runs(s, steps)
    ensures Good(After(s, steps), b, cuts, base)
    decreases |steps|
  {
    hide Good, Take;
    if steps != [] {
      QuietStep(s, steps[0], b, cuts, base);
      QuietRest(Take(s, steps[0]), steps[1..], b, cuts, base);
    }
  }

  lemma FirstStep(s: System, b: nat, step: Step, cuts: set<nat>, base: nat)
    requires Inv(s) && BatchInv(s, cuts, base) && b in s.open && Enabled(s, step) && !Disturbs(s, step)
    ensures var s' := Take(s, step); Good(s', b, cuts + Cut(s'), NewBase(s', base))
  {
    InvParts(s, cuts, base);
    hide Inv, BatchInv;
    StepKeepsInv(s, step, Take(s, step));
    StepKeepsBatches(s, step, Take(s, step), cuts, base);
  }

  /** A follower at a cut is not inside the batch that was sent last. */
  lemma NotInside(u: System, b: nat, cuts: set<nat>, base: nat, applied: nat)
    requires Inv(u) && BatchInv(u, cuts, base) && b in u.open && applied in cuts + {|u.leader.log|}
    ensures !Inside(applied, u.open[b])
  {
  }

  lemma UndisturbedKeepsWhole(s: System, b: nat, step: Step, id: NodeId, rest: seq<Step>, late: seq<Step>,
      cuts: set<nat>, base: nat)
    requires Inv(s) && BatchInv(s, cuts, base) && b in s.open && Enabled(s, step) && !Disturbs(s, step)
    ensures !Splits(s, b, step, id, rest, late)
  {
    hide Inv, BatchInv, Take, Disturbs, Quiet, Inside;
    if Splits(s, b, step, id, rest, late) {
      var s1 := Take(s, step);
      FirstStep(s, b, step, cuts, base);
      assert ([step] + rest)[1..] == rest;
      var cuts1, base1 := cuts + Cut(s1), NewBase(s1, base);
      QuietRest(s1, rest, b, cuts1, base1);
      var u := After(s, [step] + rest);
      assert u == After(s1, rest);
      SendKeepsBatches(u, b, cuts1, base1);
      var w := Take(u, BatchSendStep(b));
      StepKeepsInv(u, BatchSendStep(b), w);
      assert ([BatchSendStep(b)] + late)[1..] == late;
      assert Quiet(late, b) by { DeliveriesQuiet(late, b); }
      var n := |u.leader.log|;
      assert w.leader == u.leader by { SendKeepsLeader(u, b); }
      QuietRest(w, late, b, cuts1 + {n}, n);
      var v := After(w, late);
      assert v.followers[id].applied in cuts1 + {n} by { StandsAtCut(v, cuts1 + {n}, n, id); }
      NotInside(u, b, cuts1, base1, v.followers[id].applied);
    }
  }

  lemma DeliveriesQuiet(steps: seq<Step>, b: nat)
    requires Deliveries(steps)
    ensures Quiet(steps, b)
  {
  }

  lemma SendKeepsLeader(s: System, b: nat)
    requires Enabled(s, BatchSendStep(b))
    ensures Take(s, BatchSendStep(b)).leader == s.leader
  {
  }

  lemma StandsAtCut(s: System, cuts: set<nat>, base: nat, id: NodeId)
    requires BatchInv(s, cuts, base) && id in s.followers
    ensures s.followers[id].applied in cuts
  {
  }

  // ---------------------------------------------------------------- what disturbs can split

  predicate Seen(f: Follower, i: nat)
  {
    i <= f.applied || i in f.pending
  }

  lemma SeenMore(f: Follower, m: Message, i: nat)
    requires Above(f) && (Seen(f, i) || i in Indices(m.entries))
    ensures Seen(ApplyEntries(f, m), i)
  {
    hide Buffer, CatchUp;
    var g := f.(pending := Buffer(f.applied, f.pending, m.entries));
    BufferedKeys(f, m.entries);
    CatchUpKeeps(g);
    assert i <= f.applied || i in g.pending.Keys;
  }

  /** A follower of an undisturbed run that has not been sent the open batch's first entry. */
  ghost predicate Waiting(f: Follower, cuts: set<nat>, base: nat, log: seq<LogEntry>)
  {
    StopsWhole(f, cuts) && base + 1 !in f.pending && FollowerOk(f, log)
  }

  ghost predicate Harmless(m: Message, cuts: set<nat>, base: nat, log: seq<LogEntry>)
  {
    && Whole(Indices(m.entries), cuts) && base + 1 !in Indices(m.entries)
    && FromLog(m.entries, log) && m.ackIndex <= |log|
  }

  lemma DeliverHarmless(f: Follower, m: Message, cuts: set<nat>, base: nat, log: seq<LogEntry>)
    requires Waiting(f, cuts, base, log) && Harmless(m, cuts, base, log)
    ensures Waiting(ApplyEntries(f, m), cuts, base, log)
  {
    hide ApplyEntries, Whole, FollowerOk, FromLog, Indices;
    DeliverWhole(f, m, cuts);
    DeliverOk(f, m, log);
    assert base + 1 !in ApplyEntries(f, m).pending.Keys;
  }

  /** u with another state of one follower. */
  function With(u: System, id: NodeId, f: Follower): System
  {
    u.(followers := u.followers[id := f])
  }

  /** Steps that only deliver to one follower, and leave it in this state. */
  ghost predicate Brings(u: System, steps: seq<Step>, id: NodeId, f: Follower)
  {
    Deliveries(steps) && Runs(u, steps) && After(u, steps) == With(u, id, f)
  }

  lemma BringsOn(u: System, steps: seq<Step>, id: NodeId, f: Follower, m: Message)
    requires id in u.followers && m in u.sent && Brings(u, steps, id, f)
    ensures Brings(u, steps + [DeliverStep(id, m)], id, ApplyEntries(f, m))
  {
    hide Runs, After, ApplyEntries;
    var v := With(u, id, f);
    OneDelivery(v, id, m);
    RunsOn(u, steps, [DeliverStep(id, m)]);
    assert With(v, id, ApplyEntries(f, m)) == With(u, id, ApplyEntries(f, m));
  }

  lemma OneDelivery(v: System, id: NodeId, m: Message)
    requires id in v.followers && m in v.sent
    ensures Runs(v, [DeliverStep(id, m)])
    ensures After(v, [DeliverStep(id, m)]) == With(v, id, ApplyEntries(v.followers[id], m))
  {
  }

  lemma NoDelivery(u: System, id: NodeId)
    requires id in u.followers
    ensures Brings(u, [], id, u.followers[id])
  {
  }

  ghost predicate SeenAll(f: Follower, msgs: set<Message>)
  {
    forall m, i :: m in msgs && i in Indices(m.entries) ==> Seen(f, i)
  }

  /** Delivering a set of harmless messages, one after the other. */
  lemma {:induction false} DeliverAll(
    u: System, id: NodeId, msgs: set<Message>, cuts: set<nat>, base: nat, log: seq<LogEntry>)
    returns (steps: seq<Step>, f: Follower)
    requires id in u.followers && msgs <= u.sent && Waiting(u.followers[id], cuts, base, log)
    requires forall m :: m in msgs ==> Harmless(m, cuts, base, log)
    ensures Brings(u, steps, id, f) && Waiting(f, cuts, base, log) && SeenAll(f, msgs)
  {
    hide Waiting, Harmless, Brings, Seen, ApplyEntries, Indices;
    if msgs == {} {
      NoDelivery(u, id);
      steps, f := [], u.followers[id];
    } else {
      var m :| m in msgs;
      var before, g := DeliverAll(u, id, msgs - {m}, cuts, base, log);
      BringsOn(u, before, id, g, m);
      DeliverHarmless(g, m, cuts, base, log);
      steps, f := before + [DeliverStep(id, m)], ApplyEntries(g, m);
      assert Above(g) by { WaitingAbove(g, cuts, base, log); }
      forall m', i | m' in msgs && i in Indices(m'.entries)
        ensures Seen(f, i)
      {
        SeenMore(g, m, i);
      }
    }
  }

  lemma WaitingAbove(f: Follower, cuts: set<nat>, base: nat, log: seq<LogEntry>)
    requires Waiting(f, cuts, base, log)
    ensures Above(f)
  {
  }

  /** Everything before the batch can be brought to a follower, and nothing of the batch. */
  lemma BringToBase(s: System, u: System, id: NodeId, cuts: set<nat>, base: nat) returns (steps: seq<Step>, f: Follower)
    requires Inv(s) && BatchInv(s, cuts, base) && id in s.followers
    requires s.sent <= u.sent && id in u.followers && u.followers[id] == s.followers[id]
    ensures Brings(u, steps, id, f) && Waiting(f, cuts, base, s.leader.log) && f.applied == base
  {
    hide Brings, Whole, FollowerOk, FromLog, Indices, OpenIsTail;
    steps, f := DeliverAll(u, id, s.sent, cuts, base, s.leader.log);
    if f.applied < base {
      assert Sent(s.sent, f.applied + 1);
      assert Seen(f, f.applied + 1);
      NextUnseen(f, s.leader.log);
    }
  }

  lemma NextUnseen(f: Follower, log: seq<LogEntry>)
    requires FollowerOk(f, log)
    ensures f.applied + 1 !in f.pending
  {
  }

  lemma {:induction false} CatchUpStops(f: Follower, n: nat)
    requires f.applied <= n && n + 1 !in f.pending
    ensures CatchUp(f).applied <= n
    decreases |f.pending|
  {
    if f.applied + 1 in f.pending {
      CatchUpStops(ApplyOne(f), n);
    }
  }

  /** A message with everything up to n and not what follows it. */
  lemma StopsAtHole(f: Follower, m: Message, n: nat)
    requires f.applied <= n && Spans(Indices(m.entries), f.applied, n)
    requires n + 1 !in f.pending && n + 1 !in Indices(m.entries)
    ensures ApplyEntries(f, m).applied == n
  {
    hide Buffer, CatchUp;
    BufferedKeys(f, m.entries);
    var g := f.(pending := Buffer(f.applied, f.pending, m.entries));
    assert n + 1 !in g.pending.Keys;
    CatchUpReaches(g, n) by { assert forall i :: f.applied < i <= n ==> i in g.pending.Keys; }
    CatchUpStops(g, n);
  }

  /** What is left to do for one more entry of the batch. */
  function Ending(u: System, b: nat, e: LogEntry): seq<Step>
  {
    (if b in u.unstored then [BatchStoreStep(b)] else []) + [BatchAppendStep(b, e)] + [BatchStoreStep(b)]
  }

  lemma OneStep(s: System, step: Step)
    requires Enabled(s, step)
    ensures Runs(s, [step]) && After(s, [step]) == Take(s, step)
  {
    assert [step][1..] == [] && Runs(Take(s, step), []);
  }

  /** One more entry of the batch: logged, stored, and ready to be sent. */
  lemma Finish(u: System, b: nat, e: LogEntry) returns (u': System)
    requires b in u.open
    ensures Runs(u, Ending(u, b, e)) && u' == After(u, Ending(u, b, e)) && Quiet(Ending(u, b, e), b)
    ensures u'.sent == u.sent && u'.followers == u.followers
    ensures b in u'.open && u'.open[b] == u.open[b] + [Indexed(u.leader, e)] && Enabled(u', BatchSendStep(b))
    ensures var w := Take(u', BatchSendStep(b));
      w.followers == u.followers && w.sent == u.sent + {Message(u'.open[b], |u.leader.log| + 1)}
  {
    hide ApplyLocally;
    var first := if b in u.unstored then [BatchStoreStep(b)] else [];
    if b in u.unstored {
      OneStep(u, BatchStoreStep(b));
    }
    var v := After(u, first);
    OneStep(v, BatchAppendStep(b, e));
    RunsOn(u, first, [BatchAppendStep(b, e)]);
    var v1 := Take(v, BatchAppendStep(b, e));
    OneStep(v1, BatchStoreStep(b));
    RunsOn(u, first + [BatchAppendStep(b, e)], [BatchStoreStep(b)]);
    u' := Take(v1, BatchStoreStep(b));
  }

  lemma OpenFacts(s: System, b: nat, cuts: set<nat>, base: nat)
    requires Inv(s) && BatchInv(s, cuts, base) && b in s.open
    ensures base < |s.leader.log| && s.open[b] == s.leader.log[base..] && s.open[b] != []
    ensures s.open[b][0].index == base + 1 && IndexedLog(s.leader.log)
    ensures forall i :: i in Indices(s.open[b]) <==> base < i <= |s.leader.log|
  {
    TailIndices(s.leader.log, base);
  }

  /** A resend that includes the batch's first entry: the follower applies what there is of the batch so far. */
  lemma ResendSplits(s: System, b: nat, from: nat, id: NodeId, cuts: set<nat>, base: nat)
    requires Inv(s) && BatchInv(s, cuts, base) && b in s.open && id in s.followers
    requires Enabled(s, ResendStep(from)) && from <= s.open[b][0].index
    ensures CanSplit(s, b, ResendStep(from), id)
  {
    hide Inv, BatchInv, Brings, ApplyEntries, Indices, Runs, After, From, IndexedLog;
    OpenFacts(s, b, cuts, base);
    var k := |s.leader.log|;
    var m := Message(From(s.leader.log, from), k);
    var s1 := Take(s, ResendStep(from));
    var calls, f := BringToBase(s, s1, id, cuts, base);
    BringsOn(s1, calls, id, f, m);
    var f' := ApplyEntries(f, m);
    assert f'.applied == k by { ResendAll(f, s.leader.log, from, cuts, base); }
    var u := With(s1, id, f');
    var e := s.open[b][0];
    var u' := Finish(u, b, e);
    NoDelivery(Take(u', BatchSendStep(b)), id);
    SplitAfter(s, b, ResendStep(from), id, calls + [DeliverStep(id, m)], f', e, [], f');
  }

  lemma ResendAll(f: Follower, log: seq<LogEntry>, from: nat, cuts: set<nat>, base: nat)
    requires IndexedLog(log) && Waiting(f, cuts, base, log) && f.applied == base && from <= base + 1
    ensures ApplyEntries(f, Message(From(log, from), |log|)).applied == |log|
  {
    hide ApplyEntries;
    ResendCatchesUp(f, log, from);
    FromIsFromLog(log, from);
    DeliverOk(f, Message(From(log, from), |log|), log);
  }

  /** Deliveries, one more append, the send, and more deliveries, put together. */
  lemma SplitAfter(
    s: System, b: nat, step: Step, id: NodeId, early: seq<Step>, f: Follower, e: LogEntry, late: seq<Step>,
      f': Follower)
    requires Enabled(s, step) && Brings(Take(s, step), early, id, f) && b in Take(s, step).open
    requires var u := With(Take(s, step), id, f);
      && Runs(u, Ending(u, b, e)) && Quiet(Ending(u, b, e), b)
      && var u' := After(u, Ending(u, b, e));
         && b in u'.open && Enabled(u', BatchSendStep(b)) && id in u'.followers
         && Brings(Take(u', BatchSendStep(b)), late, id, f') && Inside(f'.applied, u'.open[b])
    ensures CanSplit(s, b, step, id)
  {
    hide Take, Ending;
    var u := With(Take(s, step), id, f);
    var rest := early + Ending(u, b, e);
    DeliveriesQuiet(early, b);
    assert ([step] + rest)[1..] == rest;
    RunsOn(Take(s, step), early, Ending(u, b, e));
    assert ([BatchSendStep(b)] + late)[1..] == late;
    assert Splits(s, b, step, id, rest, late);
  }

  /** The step logs entries that are not in the batch. */
  ghost predicate Intrudes(s: System, b: nat, s1: System)
  {
    && b in s.open && b in s1.open && s1.open[b] == s.open[b]
    && |s.leader.log| < |s1.leader.log| && s.sent <= s1.sent && s1.followers == s.followers
  }

  /** Something else logged inside the batch: a follower that gets the batch first stops before it. */
  lemma AppendSplits(s: System, b: nat, step: Step, id: NodeId, cuts: set<nat>, base: nat)
    requires Inv(s) && BatchInv(s, cuts, base) && id in s.followers
    requires Enabled(s, step) && Intrudes(s, b, Take(s, step))
    ensures CanSplit(s, b, step, id)
  {
    hide Inv, BatchInv, Brings, ApplyEntries, Indices, Runs, After, Take, IndexedLog;
    OpenFacts(s, b, cuts, base);
    var s1 := Take(s, step);
    NoDelivery(s1, id);
    var e := s.open[b][0];
    var f0 := s.followers[id];
    var u := With(s1, id, f0);
    assert u == s1 by { assert s1.followers[id := f0] == s1.followers; }
    var u' := Finish(u, b, e);
    var w := Take(u', BatchSendStep(b));
    var x := Indexed(u.leader, e);
    var m := Message(s.open[b] + [x], |u.leader.log| + 1);
    var calls, f := BringToBase(s, w, id, cuts, base);
    BringsOn(w, calls, id, f, m);
    HoleApplied(f, s.leader.log, s.open[b], x, m.ackIndex, cuts, base);
    SplitAfter(s, b, step, id, [], f0, e, calls + [DeliverStep(id, m)], ApplyEntries(f, m));
  }

  lemma HoleApplied(
    f: Follower, log: seq<LogEntry>, part: seq<LogEntry>, x: LogEntry, ackIndex: nat, cuts: set<nat>, base: nat)
    requires Waiting(f, cuts, base, log) && f.applied == base < |log| && x.index > |log| + 1
    requires forall i :: i in Indices(part) <==> base < i <= |log|
    ensures ApplyEntries(f, Message(part + [x], ackIndex)).applied == |log|
  {
    hide ApplyEntries, Whole;
    var all := part + [x];
    assert Indices(all) == Indices(part) + {x.index} by {
      assert all[|part|] == x;
      assert forall e :: e in all <==> e in part || e == x;
    }
    NothingBeyond(f, log, |log| + 1);
    StopsAtHole(f, Message(all, ackIndex), |log|);
  }

  lemma DisturbingSplits(s: System, b: nat, step: Step, id: NodeId, cuts: set<nat>, base: nat)
    requires Inv(s) && BatchInv(s, cuts, base) && b in s.open && id in s.followers
    requires Enabled(s, step) && Disturbs(s, step)
    ensures CanSplit(s, b, step, id)
  {
    OpenFacts(s, b, cuts, base);
    InvParts(s, cuts, base);
    hide Inv, BatchInv, CanSplit, Append, AppendAll;
    if step.ResendStep? {
      assert forall b' :: b' in s.open ==> b' == b by { assert s.open.Keys == {b}; }
      ResendSplits(s, b, step.from, id, cuts, base);
    } else {
      StepLogs(s, step);
      AppendSplits(s, b, step, id, cuts, base);
    }
  }

  lemma StepLogs(s: System, step: Step)
    requires Enabled(s, step) && Disturbs(s, step) && !step.ResendStep?
    ensures |Take(s, step).leader.log| > |s.leader.log|
  {
    if step.BatchStep? {
      AppendAllLength(s.leader, step.entries);
    }
  }

  lemma {:induction false} AppendAllLength(l: Leader, es: seq<LogEntry>)
    ensures |AppendAll(l, es).log| == |l.log| + |es|
  {
    if es != [] {
      AppendAllLength(l, es[..|es| - 1]);
    }
  }

  /**
   After any undisturbed run that ends inside a batch, whatever its followers have or miss: a step of the
   leader can leave a given follower inside the batch iff it disturbs the batch.
   */
  lemma SplitsIffDisturbs(ids: set<NodeId>, tr: seq<System>, steps: seq<Step>, b: nat, step: Step, id: NodeId)
    requires IsRun(ids, tr, steps) && Undisturbed(tr, steps)
    requires var s := tr[|steps|]; b in s.open && id in s.followers && Enabled(s, step)
    ensures CanSplit(tr[|steps|], b, step, id) <==> Disturbs(tr[|steps|], step)
  {
    hide Inv, BatchInv, Disturbs, Take, Splits, Next;
    var n := |steps|;
    RunInv(ids, tr, steps, n);
    RunBatches(ids, tr, steps, n);
    if Disturbs(tr[n], step) {
      DisturbingSplits(tr[n], b, step, id, Cuts(tr, n), Base(tr, n));
    } else {
      forall rest, late
        ensures !Splits(tr[n], b, step, id, rest, late)
      {
        UndisturbedKeepsWhole(tr[n], b, step, id, rest, late, Cuts(tr, n), Base(tr, n));
      }
    }
  }

  // ---------------------------------------------------------------- a batch without anything between

  /** The entries of one batch, each logged and stored before the next. */
  ghost function BatchSteps(b: nat, es: seq<LogEntry>): seq<Step>
  {
    if es == [] then [] else BatchSteps(b, es[..|es| - 1]) + [BatchAppendStep(b, es[|es| - 1])] + [BatchStoreStep(b)]
  }

  /** The state with that much of the batch in log and store. */
  function Midway(s: System, b: nat, es: seq<LogEntry>): System
  {
    var l := AppendAll(s.leader, es);
    s.(leader := l, open := if es == [] then s.open else s.open[b := From(l.log, |s.leader.log| + 1)])
  }

  lemma MidwayStep(s: System, b: nat, init: seq<LogEntry>, e: LogEntry)
    requires Inv(s) && b !in s.open && b !in s.unstored
    ensures var t := Midway(s, b, init);
      && Enabled(t, BatchAppendStep(b, e)) && Enabled(Take(t, BatchAppendStep(b, e)), BatchStoreStep(b))
      && Take(Take(t, BatchAppendStep(b, e)), BatchStoreStep(b)) == Midway(s, b, init + [e])
  {
    hide ApplyLocally, SentOk, OpenOk, FollowerOk;
    var n := |s.leader.log|;
    var mid := AppendAll(s.leader, init);
    AppendAllKeepsLog(s.leader, init);
    assert (init + [e])[..|init|] == init;
    var x := Indexed(mid, e);
    assert (mid.log + [x])[n..] == mid.log[n..] + [x];
    assert mid.log[n..] == if init == [] then [] else From(mid.log, n + 1);
    assert s.unstored[b := x] - {b} == s.unstored;
  }

  lemma {:induction false} BatchSoFar(s: System, b: nat, es: seq<LogEntry>)
    requires Inv(s) && b !in s.open && b !in s.unstored
    ensures Runs(s, BatchSteps(b, es)) && After(s, BatchSteps(b, es)) == Midway(s, b, es)
  {
    hide Inv, Midway, Take, Enabled;
    if es == [] {
      assert Midway(s, b, es) == s by { NothingYet(s, b); }
    } else {
      var init, e := es[..|es| - 1], es[|es| - 1];
      BatchSoFar(s, b, init);
      MidwayStep(s, b, init, e);
      assert init + [e] == es;
      var t := Midway(s, b, init);
      OneStep(t, BatchAppendStep(b, e));
      RunsOn(s, BatchSteps(b, init), [BatchAppendStep(b, e)]);
      OneStep(Take(t, BatchAppendStep(b, e)), BatchStoreStep(b));
      RunsOn(s, BatchSteps(b, init) + [BatchAppendStep(b, e)], [BatchStoreStep(b)]);
    }
  }

  lemma NothingYet(s: System, b: nat)
    ensures Midway(s, b, []) == s
  {
  }

  /** Alone, the steps and the send of a batch are the one step BatchStep. */
  lemma BatchIsOneStep(s: System, b: nat, es: seq<LogEntry>)
    requires Inv(s) && b !in s.open && b !in s.unstored && es != []
    ensures Runs(s, BatchSteps(b, es) + [BatchSendStep(b)])
    ensures After(s, BatchSteps(b, es) + [BatchSendStep(b)]) == Take(s, BatchStep(es))
  {
    BatchSoFar(s, b, es);
    var t := Midway(s, b, es);
    SendsBatch(s, b, es);
    OneStep(t, BatchSendStep(b));
    RunsOn(s, BatchSteps(b, es), [BatchSendStep(b)]);
  }

  lemma SendsBatch(s: System, b: nat, es: seq<LogEntry>)
    requires Inv(s) && b !in s.open && b !in s.unstored && es != []
    ensures Enabled(Midway(s, b, es), BatchSendStep(b))
    ensures Take(Midway(s, b, es), BatchSendStep(b)) == Take(s, BatchStep(es))
  {
    hide SentOk, OpenOk, FollowerOk, AppendAll;
    AppendAllKeepsLog(s.leader, es);
    var t := Midway(s, b, es);
    var tail := t.open[b];
    assert tail == t.leader.log[|s.leader.log|..];
    assert tail[|tail| - 1] == t.leader.log[|t.leader.log| - 1];
    assert s.open[b := tail] - {b} == s.open;
  }
}
