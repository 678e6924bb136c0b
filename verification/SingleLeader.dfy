/**
 Single-leader replication (internal/node/leader.go, internal/node/follower.go).

 The leader appends to its log, applies locally and broadcasts; it also answers catch-up requests
 with everything from the asked-for index. A message may reach any follower any number of times,
 in any order, or never. No lock covers a whole call: a batch is logged and stored entry by entry and
 then broadcast as one message, and other leader steps may come anywhere between. A single write or
 delete is a batch of one entry, or one step when it runs alone. Timestamps and clocks are arbitrary.
 */
module SingleLeaderModel {
  import opened Storage
  import opened StoreObject
  import opened LogFold

  datatype Message = Message(entries: seq<LogEntry>, ackIndex: nat)

  // ---------------------------------------------------------------- the leader

  datatype Leader = Leader(log: seq<LogEntry>, data: Contents, version: nat)

  /** The leader's own store: a delete keeps the old value under the tombstone. */
  function ApplyLocally(data: Contents, version: nat, e: LogEntry): Contents
  {
    if e.op == OpDelete then AfterDelete(data, version, e.key, e.originId, e.timestamp, e.vclock)
    else AfterSet(data, version, KVOf(e))
  }

  function Indexed(l: Leader, e: LogEntry): LogEntry
  {
    e.(index := |l.log| + 1)
  }

  /** The log's part of a write ... */
  function Logged(l: Leader, e: LogEntry): Leader
  {
    l.(log := l.log + [Indexed(l, e)])
  }

  /** ... and the store's. */
  function Stored(l: Leader, e: LogEntry): Leader
  {
    l.(data := ApplyLocally(l.data, l.version, e), version := l.version + 1)
  }

  function Append(l: Leader, e: LogEntry): Leader
  {
    Stored(Logged(l, e), Indexed(l, e))
  }

  function AppendAll(l: Leader, es: seq<LogEntry>): Leader
  {
    if es == [] then l else Append(AppendAll(l, es[..|es| - 1]), es[|es| - 1])
  }

  /** GetFrom on a log that is never compacted. */
  function From(log: seq<LogEntry>, from: nat): seq<LogEntry>
  {
    if from > |log| then [] else if from == 0 then log else log[from - 1..]
  }

  // ---------------------------------------------------------------- a follower

  datatype Follower = Follower(
    applied: nat, pending: map<nat, LogEntry>, leaderIndex: nat, log: seq<LogEntry>, data: Contents)

  const NEW_FOLLOWER := Follower(0, map[], 0, [], map[])

  /** New entries wait by index; what is applied already is dropped. */
  function Buffer(applied: nat, pending: map<nat, LogEntry>, entries: seq<LogEntry>): map<nat, LogEntry>
  {
    if entries == [] then pending
    else
      var rest := Buffer(applied, pending, entries[..|entries| - 1]);
      var e := entries[|entries| - 1];
      if e.index <= applied then rest else rest[e.index := e]
  }

  function ApplyOne(f: Follower): Follower
    requires f.applied + 1 in f.pending
  {
    var next := f.applied + 1;
    var e := f.pending[next];
    Follower(next, f.pending - {next}, f.leaderIndex, f.log + [e.(index := |f.log| + 1)],
      AfterSet(f.data, |f.log|, KVOf(e)))
  }

  /** Applies everything that is contiguous. */
  function CatchUp(f: Follower): Follower
    decreases |f.pending|
  {
    if f.applied + 1 in f.pending then CatchUp(ApplyOne(f)) else f
  }

  function ApplyEntries(f: Follower, m: Message): Follower
  {
    var g := CatchUp(f.(pending := Buffer(f.applied, f.pending, m.entries)));
    g.(leaderIndex := if m.ackIndex > g.leaderIndex then m.ackIndex else g.leaderIndex)
  }

  // ---------------------------------------------------------------- the cluster

  /** `open` holds what each unsent batch has logged, `unstored` its last entry until that is stored. */
  datatype System = System(
    leader: Leader, open: map<nat, seq<LogEntry>>, unstored: map<nat, LogEntry>, sent: set<Message>,
    followers: map<NodeId, Follower>)

  datatype Step =
    | WriteStep(entry: LogEntry)
    | BatchStep(entries: seq<LogEntry>)
    | BatchAppendStep(batch: nat, entry: LogEntry)
    | BatchStoreStep(batch: nat)
    | BatchSendStep(batch: nat)
    | ResendStep(from: nat)
    | DeliverStep(id: NodeId, m: Message)

  function Init(ids: set<NodeId>): System
  {
    System(Leader([], map[], 0), map[], map[], {}, map id | id in ids :: NEW_FOLLOWER)
  }

  ghost predicate Enabled(s: System, step: Step)
  {
    match step
    case WriteStep(_) => true
    case BatchStep(es) => es != []
    case BatchAppendStep(b, _) => b !in s.unstored
    case BatchStoreStep(b) => b in s.unstored
    case BatchSendStep(b) => b in s.open && s.open[b] != [] && b !in s.unstored
    case ResendStep(from) => From(s.leader.log, from) != []
    case DeliverStep(id, m) => id in s.followers && m in s.sent
  }

  ghost function Take(s: System, step: Step): System
    requires Enabled(s, step)
  {
    match step
    case WriteStep(e) =>
      s.(leader := Append(s.leader, e), sent := s.sent + {Message([Indexed(s.leader, e)], |s.leader.log| + 1)})
    case BatchStep(es) =>
      var l := AppendAll(s.leader, es);
      s.(leader := l, sent := s.sent + {Message(From(l.log, |s.leader.log| + 1), |l.log|)})
    case BatchAppendStep(b, e) =>
      s.(leader := Logged(s.leader, e),
         open := s.open[b := (if b in s.open then s.open[b] else []) + [Indexed(s.leader, e)]],
         unstored := s.unstored[b := Indexed(s.leader, e)])
    case BatchStoreStep(b) => s.(leader := Stored(s.leader, s.unstored[b]), unstored := s.unstored - {b})
    case BatchSendStep(b) =>
      s.(open := s.open - {b}, sent := s.sent + {Message(s.open[b], s.open[b][|s.open[b]| - 1].index)})
    case ResendStep(from) => s.(sent := s.sent + {Message(From(s.leader.log, from), |s.leader.log|)})
    case DeliverStep(id, m) => s.(followers := s.followers[id := ApplyEntries(s.followers[id], m)])
  }

  ghost predicate Next(s: System, step: Step, s': System)
  {
    Enabled(s, step) && s' == Take(s, step)
  }

  ghost predicate IsRun(ids: set<NodeId>, tr: seq<System>, steps: seq<Step>)
  {
    && |tr| == |steps| + 1
    && tr[0] == Init(ids)
    && forall i :: 0 <= i < |steps| ==> Next(tr[i], steps[i], tr[i + 1])
  }

  /** The steps can be taken from here, one after the other. */
  ghost predicate Runs(s: System, steps: seq<Step>)
    decreases |steps|
  {
    steps == [] || (Enabled(s, steps[0]) && Runs(Take(s, steps[0]), steps[1..]))
  }

  ghost function After(s: System, steps: seq<Step>): System
    requires Runs(s, steps)
    decreases |steps|
  {
    if steps == [] then s else After(Take(s, steps[0]), steps[1..])
  }

  lemma {:induction false} RunsOn(s: System, a: seq<Step>, b: seq<Step>)
    requires Runs(s, a) && Runs(After(s, a), b)
    ensures Runs(s, a + b) && After(s, a + b) == After(After(s, a), b)
    decreases |a|
  {
    if a == [] {
      assert a + b == b;
    } else {
      assert (a + b)[1..] == a[1..] + b;
      RunsOn(Take(s, a[0]), a[1..], b);
    }
  }
}

module SingleLeaderSafety {
  import opened Storage
  import opened StoreObject
  import opened LogFold
  import opened SingleLeaderModel

  // ---------------------------------------------------------------- the leader

  ghost predicate IndexedLog(log: seq<LogEntry>)
  {
    forall i :: 0 <= i < |log| ==> log[i].index == i + 1
  }

  lemma AppendKeepsLog(l: Leader, e: LogEntry)
    requires IndexedLog(l.log)
    ensures IndexedLog(Append(l, e).log) && l.log <= Append(l, e).log
  {
  }

  lemma {:induction false} AppendAllKeepsLog(l: Leader, es: seq<LogEntry>)
    requires IndexedLog(l.log)
    ensures IndexedLog(AppendAll(l, es).log) && l.log <= AppendAll(l, es).log
    ensures |AppendAll(l, es).log| == |l.log| + |es|
  {
    if es != [] {
      AppendAllKeepsLog(l, es[..|es| - 1]);
      AppendKeepsLog(AppendAll(l, es[..|es| - 1]), es[|es| - 1]);
    }
  }

  // ---------------------------------------------------------------- messages and followers

  /** Every entry stands in the log at its index. */
  ghost predicate FromLog(entries: seq<LogEntry>, log: seq<LogEntry>)
  {
    forall e :: e in entries ==> InLog(e, log)
  }

  predicate InLog(e: LogEntry, log: seq<LogEntry>)
  {
    1 <= e.index <= |log| && log[e.index - 1] == e
  }

  ghost predicate SentOk(sent: set<Message>, log: seq<LogEntry>)
  {
    forall m :: m in sent ==> FromLog(m.entries, log) && m.ackIndex <= |log|
  }

  ghost predicate OpenOk(open: map<nat, seq<LogEntry>>, log: seq<LogEntry>)
  {
    forall b :: b in open ==> FromLog(open[b], log)
  }

  ghost predicate PendingOk(pending: map<nat, LogEntry>, log: seq<LogEntry>)
  {
    forall i :: i in pending ==> pending[i].index == i && InLog(pending[i], log)
  }

  /** The follower has applied a prefix of the log and nothing else. */
  ghost predicate Prefix(f: Follower, log: seq<LogEntry>)
  {
    f.applied <= |log| && f.log == log[..f.applied] && f.data == Fold(f.log)
  }

  ghost predicate FollowerOk(f: Follower, log: seq<LogEntry>)
  {
    Prefix(f, log) && PendingOk(f.pending, log) && f.leaderIndex <= |log| && f.applied + 1 !in f.pending
  }

  lemma FollowerOkGrows(f: Follower, log: seq<LogEntry>, log': seq<LogEntry>)
    requires FollowerOk(f, log) && log <= log'
    ensures FollowerOk(f, log')
  {
  }

  lemma MessagesGrow(sent: set<Message>, open: map<nat, seq<LogEntry>>, log: seq<LogEntry>, log': seq<LogEntry>)
    requires SentOk(sent, log) && OpenOk(open, log) && log <= log'
    ensures SentOk(sent, log') && OpenOk(open, log')
  {
  }

  lemma {:induction false} BufferOk(applied: nat, pending: map<nat, LogEntry>, entries: seq<LogEntry>,
      log: seq<LogEntry>)
    requires PendingOk(pending, log) && FromLog(entries, log)
    ensures PendingOk(Buffer(applied, pending, entries), log)
  {
    if entries != [] {
      BufferOk(applied, pending, entries[..|entries| - 1], log);
    }
  }

  lemma ApplyOneOk(f: Follower, log: seq<LogEntry>)
    requires Prefix(f, log) && PendingOk(f.pending, log) && f.applied + 1 in f.pending
    ensures Prefix(ApplyOne(f), log) && PendingOk(ApplyOne(f).pending, log)
  {
  }

  lemma {:induction false} CatchUpOk(f: Follower, log: seq<LogEntry>)
    requires Prefix(f, log) && PendingOk(f.pending, log)
    ensures Prefix(CatchUp(f), log) && PendingOk(CatchUp(f).pending, log)
    ensures CatchUp(f).leaderIndex == f.leaderIndex && CatchUp(f).applied + 1 !in CatchUp(f).pending
    decreases |f.pending|
  {
    if f.applied + 1 in f.pending {
      ApplyOneOk(f, log);
      CatchUpOk(ApplyOne(f), log);
    }
  }

  lemma DeliverOk(f: Follower, m: Message, log: seq<LogEntry>)
    requires FollowerOk(f, log) && FromLog(m.entries, log) && m.ackIndex <= |log|
    ensures FollowerOk(ApplyEntries(f, m), log)
  {
    BufferOk(f.applied, f.pending, m.entries, log);
    CatchUpOk(f.(pending := Buffer(f.applied, f.pending, m.entries)), log);
  }

  // ---------------------------------------------------------------- whole runs

  ghost predicate Inv(s: System)
  {
    && IndexedLog(s.leader.log) && SentOk(s.sent, s.leader.log) && OpenOk(s.open, s.leader.log)
    && forall id :: id in s.followers ==> FollowerOk(s.followers[id], s.leader.log)
  }

  lemma FromIsFromLog(log: seq<LogEntry>, from: nat)
    requires IndexedLog(log)
    ensures FromLog(From(log, from), log)
  {
  }

  lemma LeaderStepKeepsInv(s: System, l: Leader, open: map<nat, seq<LogEntry>>, sent: set<Message>)
    requires Inv(s) && IndexedLog(l.log) && s.leader.log <= l.log
    requires OpenOk(open, l.log) && SentOk(sent, l.log)
    ensures forall unstored :: Inv(System(l, open, unstored, s.sent + sent, s.followers))
  {
    hide FollowerOk;
    MessagesGrow(s.sent, s.open, s.leader.log, l.log);
    forall id | id in s.followers
      ensures FollowerOk(s.followers[id], l.log)
    {
      FollowerOkGrows(s.followers[id], s.leader.log, l.log);
    }
  }

  lemma WriteKeepsInv(s: System, e: LogEntry)
    requires Inv(s)
    ensures Inv(Take(s, WriteStep(e)))
  {
    var l := Append(s.leader, e);
    AppendKeepsLog(s.leader, e);
    MessagesGrow(s.sent, s.open, s.leader.log, l.log);
    LeaderStepKeepsInv(s, l, s.open, {Message([Indexed(s.leader, e)], |s.leader.log| + 1)});
  }

  lemma BatchKeepsInv(s: System, es: seq<LogEntry>)
    requires Inv(s) && es != []
    ensures Inv(Take(s, BatchStep(es)))
  {
    var l := AppendAll(s.leader, es);
    AppendAllKeepsLog(s.leader, es);
    MessagesGrow(s.sent, s.open, s.leader.log, l.log);
    FromIsFromLog(l.log, |s.leader.log| + 1);
    LeaderStepKeepsInv(s, l, s.open, {Message(From(l.log, |s.leader.log| + 1), |l.log|)});
  }

  lemma BatchAppendKeepsInv(s: System, b: nat, e: LogEntry)
    requires Inv(s) && b !in s.unstored
    ensures Inv(Take(s, BatchAppendStep(b, e)))
  {
    var l := Logged(s.leader, e);
    MessagesGrow(s.sent, s.open, s.leader.log, l.log);
    LeaderStepKeepsInv(s, l, Take(s, BatchAppendStep(b, e)).open, {});
  }

  lemma BatchSendKeepsInv(s: System, b: nat)
    requires Inv(s) && Enabled(s, BatchSendStep(b))
    ensures Inv(Take(s, BatchSendStep(b)))
  {
    var last := s.open[b][|s.open[b]| - 1];
    assert last in s.open[b] && InLog(last, s.leader.log);
    LeaderStepKeepsInv(s, s.leader, s.open - {b}, {Message(s.open[b], last.index)});
  }

  lemma ResendKeepsInv(s: System, from: nat)
    requires Inv(s) && From(s.leader.log, from) != []
    ensures Inv(Take(s, ResendStep(from)))
  {
  }

  lemma StepKeepsInv(s: System, step: Step, s': System)
    requires Next(s, step, s') && Inv(s)
    ensures Inv(s')
  {
    match step
    case WriteStep(e) => WriteKeepsInv(s, e);
    case BatchStep(es) => BatchKeepsInv(s, es);
    case BatchAppendStep(b, e) => BatchAppendKeepsInv(s, b, e);
    case BatchStoreStep(_) =>
    case BatchSendStep(b) => BatchSendKeepsInv(s, b);
    case ResendStep(from) => ResendKeepsInv(s, from);
    case DeliverStep(id, m) => DeliverOk(s.followers[id], m, s.leader.log);
  }

  lemma {:induction false} RunInv(ids: set<NodeId>, tr: seq<System>, steps: seq<Step>, i: nat)
    requires IsRun(ids, tr, steps) && i < |tr|
    ensures Inv(tr[i])
  {
    hide Next;
    if i == 0 {
      InitInv(ids);
    } else {
      hide Inv;
      RunInv(ids, tr, steps, i - 1);
      assert Next(tr[i - 1], steps[i - 1], tr[i]);
      StepKeepsInv(tr[i - 1], steps[i - 1], tr[i]);
    }
  }

  lemma InitInv(ids: set<NodeId>)
    ensures Inv(Init(ids))
  {
  }

  /**
   Prefix safety. Whatever is lost, repeated or reordered, a follower's log is a prefix of the
   leader's, and its store is the fold of that prefix.
   */
  lemma PrefixSafety(ids: set<NodeId>, tr: seq<System>, steps: seq<Step>, i: nat, id: NodeId)
    requires IsRun(ids, tr, steps) && i < |tr| && id in tr[i].followers
    ensures var f := tr[i].followers[id];
      && f.applied <= |tr[i].leader.log| && f.log == tr[i].leader.log[..f.applied]
      && f.data == Fold(tr[i].leader.log[..f.applied])
  {
    RunInv(ids, tr, steps, i);
  }

  lemma {:induction false} LogOnlyGrows(ids: set<NodeId>, tr: seq<System>, steps: seq<Step>, i: nat, j: nat)
    requires IsRun(ids, tr, steps) && i <= j < |tr|
    ensures tr[i].leader.log <= tr[j].leader.log
  {
    hide Next;
    if i < j {
      LogOnlyGrows(ids, tr, steps, i, j - 1);
      assert Next(tr[j - 1], steps[j - 1], tr[j]);
      RunInv(ids, tr, steps, j - 1);
      StepGrowsLog(tr[j - 1], steps[j - 1], tr[j]);
    }
  }

  lemma StepGrowsLog(s: System, step: Step, s': System)
    requires Next(s, step, s') && Inv(s)
    ensures s.leader.log <= s'.leader.log
  {
    if step.BatchStep? {
      AppendAllKeepsLog(s.leader, step.entries);
    }
  }

  // ---------------------------------------------------------------- catching up

  predicate HasIndex(entries: seq<LogEntry>, i: nat)
  {
    exists e :: e in entries && e.index == i
  }

  lemma {:induction false} BufferKeys(applied: nat, pending: map<nat, LogEntry>, entries: seq<LogEntry>, i: nat)
    ensures i in Buffer(applied, pending, entries) <==> i in pending || (i > applied && HasIndex(entries, i))
  {
    if entries != [] {
      var init, e := entries[..|entries| - 1], entries[|entries| - 1];
      assert entries == init + [e];
      BufferKeys(applied, pending, init, i);
      assert HasIndex(entries, i) <==> HasIndex(init, i) || e.index == i;
    }
  }

  lemma FromHas(log: seq<LogEntry>, from: nat, i: nat)
    requires IndexedLog(log)
    ensures HasIndex(From(log, from), i) <==> from <= i <= |log| && i >= 1
  {
    if from <= i <= |log| && i >= 1 {
      var e := log[i - 1];
      assert e in From(log, from) by {
        if from == 0 {
          assert From(log, from)[i - 1] == e;
        } else {
          assert From(log, from)[i - from] == e;
        }
      }
    }
    if e :| e in From(log, from) && e.index == i {
      var k :| 0 <= k < |From(log, from)| && From(log, from)[k] == e;
      assert from > 0 ==> log[from - 1 + k] == e;
    }
  }

  lemma {:induction false} CatchUpReaches(f: Follower, n: nat)
    requires forall i :: f.applied < i <= n ==> i in f.pending
    ensures CatchUp(f).applied >= n && CatchUp(f).applied >= f.applied
    decreases |f.pending|
  {
    if f.applied + 1 in f.pending {
      CatchUpReaches(ApplyOne(f), n);
    }
  }

  /** A resend that starts no later than the follower's next index brings it up to the log it was made from. */
  lemma ResendCatchesUp(f: Follower, log: seq<LogEntry>, from: nat)
    requires IndexedLog(log) && from <= f.applied + 1
    ensures ApplyEntries(f, Message(From(log, from), |log|)).applied >= |log|
  {
    var buffered := Buffer(f.applied, f.pending, From(log, from));
    forall i | f.applied < i <= |log|
      ensures i in buffered
    {
      FromHas(log, from, i);
      BufferKeys(f.applied, f.pending, From(log, from), i);
    }
    CatchUpReaches(f.(pending := buffered), |log|);
  }

  /** In every run: once a resend from at most applied + 1 arrives, the follower holds all that the leader had then. */
  lemma CatchUpInRun(ids: set<NodeId>, tr: seq<System>, steps: seq<Step>, i: nat, j: nat)
    requires IsRun(ids, tr, steps) && i <= j < |steps| && steps[i].ResendStep? && steps[j].DeliverStep?
    requires steps[j].m == Message(From(tr[i].leader.log, steps[i].from), |tr[i].leader.log|)
    requires steps[j].id in tr[j].followers && steps[i].from <= tr[j].followers[steps[j].id].applied + 1
    ensures steps[j].id in tr[j + 1].followers
    ensures var f := tr[j + 1].followers[steps[j].id]; |tr[i].leader.log| <= f.applied && tr[i].leader.log <= f.log
  {
    assert Next(tr[j], steps[j], tr[j + 1]);
    RunInv(ids, tr, steps, i);
    ResendCatchesUp(tr[j].followers[steps[j].id], tr[i].leader.log, steps[i].from);
    LogOnlyGrows(ids, tr, steps, i, j + 1);
    PrefixSafety(ids, tr, steps, j + 1, steps[j].id);
  }
}
