/**
 What the leader itself serves (internal/node/leader.go). A write is logged and then stored with no lock
 around the two, so writes of one key can be stored in another order than they were logged. Exactly when
 can the leader end up serving something else than its log says?
 */
module SingleLeaderStore {
  import opened Storage
  import opened StoreObject
  import opened LogFold
  import opened SingleLeaderModel
  import opened SingleLeaderSafety

  /** What a reader sees of a key, apart from the store's own version number. */
  function Seen(data: Contents, key: string): Option<KVEntry>
  {
    match Visible(data, key)
    case None => None
    case Some(e) => Some(e.(version := 0))
  }

  /** What a reader sees once the entry is stored. */
  function SeenOf(e: LogEntry): Option<KVEntry>
  {
    if e.op == OpDelete then None else Some(KVEntry(e.key, e.value, e.vclock, e.timestamp, e.originId, false, 0))
  }

  lemma StoredSeen(l: Leader, e: LogEntry, key: string)
    ensures Seen(Stored(l, e).data, key) == if key == e.key then SeenOf(e) else Seen(l.data, key)
  {
  }

  lemma FoldSeen(log: seq<LogEntry>, e: LogEntry, key: string)
    ensures Seen(Fold(log + [e]), key) == if key == e.key then SeenOf(e) else Seen(Fold(log), key)
  {
    assert (log + [e])[..|log|] == log;
  }

  // ---------------------------------------------------------------- what a step logs

  function Logs(step: Step): seq<LogEntry>
  {
    match step
    case WriteStep(e) => [e]
    case BatchStep(es) => es
    case BatchAppendStep(_, e) => [e]
    case _ => []
  }

  /** What entries say of a key: what the last of them that has it shows. */
  function Say(es: seq<LogEntry>, key: string): Option<Option<KVEntry>>
  {
    if es == [] then None
    else if es[|es| - 1].key == key then Some(SeenOf(es[|es| - 1]))
    else Say(es[..|es| - 1], key)
  }

  function Or(said: Option<Option<KVEntry>>, before: Option<KVEntry>): Option<KVEntry>
  {
    if said.Some? then said.value else before
  }

  /** The entries say something of the key of an earlier entry, and not what that one shows. */
  predicate Overtake(es: seq<LogEntry>, earlier: LogEntry)
  {
    Say(es, earlier.key).Some? && Say(es, earlier.key).value != SeenOf(earlier)
  }

  /** The step logs an entry of a key while an earlier one of that key that shows something else is not stored yet. */
  ghost predicate Clashes(s: System, step: Step)
  {
    exists b :: b in s.unstored && Overtake(Logs(step), s.unstored[b])
  }

  // ---------------------------------------------------------------- the invariant of runs without a clash

  /** No entry of the key waits to be stored. */
  ghost predicate Settled(s: System, key: string)
  {
    forall b :: b in s.unstored ==> s.unstored[b].key != key
  }

  ghost predicate Serves(s: System, key: string)
  {
    Seen(s.leader.data, key) == Seen(Fold(s.leader.log), key)
  }

  ghost predicate StoreInv(s: System)
  {
    && (forall b :: b in s.unstored ==> SeenOf(s.unstored[b]) == Seen(Fold(s.leader.log), s.unstored[b].key))
    && (forall key :: Settled(s, key) ==> Serves(s, key))
  }

  /** Logging and storing entries changes log and store by what they say. */
  lemma {:induction false} AppendAllSeen(l: Leader, es: seq<LogEntry>, key: string)
    ensures Seen(Fold(AppendAll(l, es).log), key) == Or(Say(es, key), Seen(Fold(l.log), key))
    ensures Seen(AppendAll(l, es).data, key) == Or(Say(es, key), Seen(l.data, key))
  {
    if es != [] {
      var init, e := es[..|es| - 1], es[|es| - 1];
      var mid := AppendAll(l, init);
      AppendAllSeen(l, init, key);
      hide Seen, SeenOf, Fold;
      StoredSeen(Logged(mid, e), Indexed(mid, e), key);
      FoldSeen(mid.log, Indexed(mid, e), key);
      SameSeen(e, |mid.log| + 1);
    }
  }

  /** A call that runs alone keeps the invariant: it logs and stores its entries. */
  lemma AloneKeepsStore(s: System, s': System, es: seq<LogEntry>)
    requires StoreInv(s) && s'.leader == AppendAll(s.leader, es) && s'.unstored == s.unstored
    requires forall b :: b in s.unstored ==> !Overtake(es, s.unstored[b])
    ensures StoreInv(s')
  {
    hide Seen, SeenOf, Say, AppendAll;
    forall b | b in s'.unstored
      ensures SeenOf(s'.unstored[b]) == Seen(Fold(s'.leader.log), s'.unstored[b].key)
    {
      AppendAllSeen(s.leader, es, s.unstored[b].key);
    }
    forall key | Settled(s', key)
      ensures Serves(s', key)
    {
      assert Settled(s, key);
      AppendAllSeen(s.leader, es, key);
    }
  }

  lemma OneSays(e: LogEntry, key: string)
    ensures Say([e], key) == if e.key == key then Some(SeenOf(e)) else None
  {
    assert [e][..0] == [];
  }

  lemma AppendKeepsStore(s: System, b: nat, e: LogEntry)
    requires StoreInv(s) && b !in s.unstored && !Clashes(s, BatchAppendStep(b, e))
    ensures StoreInv(Take(s, BatchAppendStep(b, e)))
  {
    hide Seen, SeenOf;
    var s' := Take(s, BatchAppendStep(b, e));
    var x := Indexed(s.leader, e);
    assert SeenOf(x) == SeenOf(e) by { SameSeen(e, x.index); }
    forall c | c in s'.unstored
      ensures SeenOf(s'.unstored[c]) == Seen(Fold(s'.leader.log), s'.unstored[c].key)
    {
      FoldSeen(s.leader.log, x, s'.unstored[c].key);
      if c != b {
        OneSays(e, s.unstored[c].key);
        assert !Overtake(Logs(BatchAppendStep(b, e)), s.unstored[c]);
      }
    }
    forall key | Settled(s', key)
      ensures Serves(s', key)
    {
      assert s'.unstored[b].key != key;
      assert Settled(s, key) by {
        forall c | c in s.unstored
          ensures s.unstored[c].key != key
        {
          assert s'.unstored[c] == s.unstored[c];
        }
      }
      FoldSeen(s.leader.log, x, key);
    }
  }

  lemma SameSeen(e: LogEntry, index: nat)
    ensures SeenOf(e.(index := index)) == SeenOf(e)
  {
  }

  lemma StoreKeepsStore(s: System, b: nat)
    requires StoreInv(s) && b in s.unstored
    ensures StoreInv(Take(s, BatchStoreStep(b)))
  {
    hide Seen, SeenOf;
    var s' := Take(s, BatchStoreStep(b));
    forall key | Settled(s', key)
      ensures Serves(s', key)
    {
      StoredSeen(s.leader, s.unstored[b], key);
      if key != s.unstored[b].key {
        assert Settled(s, key) by {
          forall c | c in s.unstored
            ensures s.unstored[c].key != key
          {
            assert c != b ==> c in s'.unstored;
          }
        }
      }
    }
  }

  lemma OneAppended(l: Leader, e: LogEntry)
    ensures AppendAll(l, [e]) == Append(l, e)
  {
    assert [e][..0] == [] && AppendAll(l, []) == l;
  }

  /** Every step that does not clash keeps the leader's store explained. */
  lemma StepKeepsStore(s: System, step: Step)
    requires StoreInv(s) && Enabled(s, step) && !Clashes(s, step)
    ensures StoreInv(Take(s, step))
  {
    hide Seen, SeenOf, Overtake;
    var s' := Take(s, step);
    match step
    case WriteStep(e) =>
      OneAppended(s.leader, e);
      AloneKeepsStore(s, s', [e]);
    case BatchStep(es) => AloneKeepsStore(s, s', es);
    case BatchAppendStep(b, e) => AppendKeepsStore(s, b, e);
    case BatchStoreStep(b) => StoreKeepsStore(s, b);
    case BatchSendStep(_) => SameStore(s, s');
    case ResendStep(_) => SameStore(s, s');
    case DeliverStep(_, _) => SameStore(s, s');
  }

  lemma SameStore(s: System, s': System)
    requires StoreInv(s) && s'.leader == s.leader && s'.unstored == s.unstored
    ensures StoreInv(s')
  {
    hide Seen, SeenOf;
    assert forall key :: Settled(s', key) ==> Settled(s, key) && Serves(s, key);
  }

  ghost predicate ClashFree(tr: seq<System>, steps: seq<Step>)
    requires |tr| == |steps| + 1
  {
    forall i :: 0 <= i < |steps| ==> !Clashes(tr[i], steps[i])
  }

  lemma InitStore(ids: set<NodeId>)
    ensures StoreInv(Init(ids))
  {
  }

  lemma {:induction false} RunStore(ids: set<NodeId>, tr: seq<System>, steps: seq<Step>, i: nat)
    requires IsRun(ids, tr, steps) && ClashFree(tr, steps) && i < |tr|
    ensures StoreInv(tr[i])
  {
    hide StoreInv, Clashes;
    if i == 0 {
      InitStore(ids);
    } else {
      RunStore(ids, tr, steps, i - 1);
      assert Next(tr[i - 1], steps[i - 1], tr[i]);
      StepKeepsStore(tr[i - 1], steps[i - 1]);
    }
  }

  /** In every run without a clash the leader's readers see what the log says of each key with nothing left to store. */
  lemma LeaderServesLog(ids: set<NodeId>, tr: seq<System>, steps: seq<Step>, i: nat, key: string)
    requires IsRun(ids, tr, steps) && ClashFree(tr, steps) && i < |tr| && Settled(tr[i], key)
    ensures Seen(tr[i].leader.data, key) == Seen(Fold(tr[i].leader.log), key)
  {
    RunStore(ids, tr, steps, i);
    assert Serves(tr[i], key);
  }

  // ---------------------------------------------------------------- exactly a clash can mislead

  predicate OnlyStores(steps: seq<Step>)
  {
    forall i :: 0 <= i < |steps| ==> steps[i].BatchStoreStep?
  }

  /** After the step, and once everything logged is stored, the leader serves something else than its log says. */
  ghost predicate Misleads(s: System, step: Step, rest: seq<Step>)
  {
    && OnlyStores(rest) && Runs(s, [step] + rest)
    && var t := After(s, [step] + rest); t.unstored == map[] && exists key :: !Serves(t, key)
  }

  ghost predicate CanMislead(s: System, step: Step)
  {
    exists rest :: Misleads(s, step, rest)
  }

  lemma {:induction false} StoresKeepStore(s: System, steps: seq<Step>)
    requires StoreInv(s) && OnlyStores(steps) && Runs(s, steps)
    ensures StoreInv(After(s, steps))
    decreases |steps|
  {
    hide StoreInv;
    if steps != [] {
      StoreKeepsStore(s, steps[0].batch);
      StoresKeepStore(Take(s, steps[0]), steps[1..]);
    }
  }

  /** Everything in `todo` can be stored, one entry after the other. */
  lemma {:induction false} StoreAll(s: System, todo: set<nat>) returns (steps: seq<Step>)
    requires todo <= s.unstored.Keys
    ensures OnlyStores(steps) && Runs(s, steps)
    ensures After(s, steps).unstored == s.unstored - todo && After(s, steps).leader.log == s.leader.log
    decreases |todo|
  {
    if todo == {} {
      steps := [];
      assert s.unstored - {} == s.unstored;
    } else {
      var b :| b in todo;
      var s1 := Take(s, BatchStoreStep(b));
      var rest := StoreAll(s1, todo - {b});
      steps := [BatchStoreStep(b)] + rest;
      assert steps[1..] == rest;
      assert s.unstored - {b} - (todo - {b}) == s.unstored - todo;
    }
  }

  /** The overtaken entry is stored last. */
  lemma StoredLast(s: System, b: nat) returns (steps: seq<Step>)
    requires b in s.unstored
    ensures OnlyStores(steps) && Runs(s, steps) && After(s, steps).unstored == map[]
    ensures After(s, steps).leader.log == s.leader.log
    ensures Seen(After(s, steps).leader.data, s.unstored[b].key) == SeenOf(s.unstored[b])
  {
    var others := StoreAll(s, s.unstored.Keys - {b});
    var t := After(s, others);
    assert t.unstored[b] == s.unstored[b];
    var last := [BatchStoreStep(b)];
    assert last[1..] == [] && Runs(Take(t, last[0]), []);
    RunsOn(s, others, last);
    steps := others + last;
    assert After(s, steps) == Take(t, BatchStoreStep(b));
    StoredSeen(t.leader, s.unstored[b], s.unstored[b].key);
    assert (t.unstored - {b}).Keys == {};
  }

  /** After the step the log says what the step logs. */
  lemma LogSays(s: System, step: Step, key: string)
    requires Enabled(s, step) && Say(Logs(step), key).Some?
    ensures Seen(Fold(Take(s, step).leader.log), key) == Say(Logs(step), key).value
  {
    hide Seen, SeenOf;
    match step
    case WriteStep(e) =>
      OneAppended(s.leader, e);
      AppendAllSeen(s.leader, [e], key);
    case BatchStep(es) => AppendAllSeen(s.leader, es, key);
    case BatchAppendStep(_, e) =>
      OneSays(e, key);
      FoldSeen(s.leader.log, Indexed(s.leader, e), key);
      SameSeen(e, |s.leader.log| + 1);
  }

  lemma ClashMisleads(s: System, step: Step, b: nat)
    requires Enabled(s, step) && b in s.unstored && Overtake(Logs(step), s.unstored[b])
    ensures CanMislead(s, step)
  {
    hide Seen, SeenOf, AppendAll;
    var s1, key := Take(s, step), s.unstored[b].key;
    assert b in s1.unstored && s1.unstored[b] == s.unstored[b];
    var rest := StoredLast(s1, b);
    LogSays(s, step, key);
    assert ([step] + rest)[1..] == rest;
    var t := After(s, [step] + rest);
    assert t == After(s1, rest);
    assert !Serves(t, key);
    assert Misleads(s, step, rest);
  }

  lemma NoClashServes(s: System, step: Step, rest: seq<Step>)
    requires StoreInv(s) && Enabled(s, step) && !Clashes(s, step)
    ensures !Misleads(s, step, rest)
  {
    hide Clashes, Take, Seen;
    if Misleads(s, step, rest) {
      StepKeepsStore(s, step);
      assert ([step] + rest)[1..] == rest;
      StoresKeepStore(Take(s, step), rest);
      var t := After(s, [step] + rest);
      forall key
        ensures Serves(t, key)
      {
        assert Settled(t, key);
      }
    }
  }

  /**
   After any run without a clash, a step of the leader can make it serve something else than its log
   says, once everything is stored, iff the step clashes.
   */
  lemma MisleadsIffClash(ids: set<NodeId>, tr: seq<System>, steps: seq<Step>, step: Step)
    requires IsRun(ids, tr, steps) && ClashFree(tr, steps) && Enabled(tr[|steps|], step)
    ensures CanMislead(tr[|steps|], step) <==> Clashes(tr[|steps|], step)
  {
    hide StoreInv, Misleads, Overtake, Take, Next;
    var s := tr[|steps|];
    RunStore(ids, tr, steps, |steps|);
    if Clashes(s, step) {
      var b :| b in s.unstored && Overtake(Logs(step), s.unstored[b]);
      ClashMisleads(s, step, b);
    } else {
      forall rest
        ensures !Misleads(s, step, rest)
      {
        NoClashServes(s, step, rest);
      }
    }
  }

  // ---------------------------------------------------------------- a write overtaken by another

  /** Two writes of one key, logged one way round and stored the other. */
  function Overtaken(a: LogEntry, b: LogEntry): seq<Step>
  {
    [BatchAppendStep(0, a), BatchAppendStep(1, b), BatchStoreStep(1), BatchStoreStep(0)]
  }

  /**
   A run of any cluster: the log says what b shows, as every follower that catches up does, and the
   leader serves a with nothing left to store.
   */
  lemma OvertakenWrite(ids: set<NodeId>, a: LogEntry, b: LogEntry) returns (tr: seq<System>)
    requires a.key == b.key && SeenOf(a) != SeenOf(b)
    ensures IsRun(ids, tr, Overtaken(a, b)) && tr[4].unstored == map[]
    ensures Seen(tr[4].leader.data, a.key) == SeenOf(a) && Seen(Fold(tr[4].leader.log), a.key) == SeenOf(b)
  {
    hide Seen, SeenOf, Fold, ApplyLocally;
    var a', b' := a.(index := 1), b.(index := 2);
    var s0 := Init(ids);
    var s1 := Take(s0, BatchAppendStep(0, a));
    var s2 := Take(s1, BatchAppendStep(1, b));
    var s3 := Take(s2, BatchStoreStep(1));
    var s4 := Take(s3, BatchStoreStep(0));
    assert s2.leader.log == [a'] + [b'] && s2.unstored == map[0 := a', 1 := b'];
    assert s4.unstored == map[];
    StoredSeen(s3.leader, a', a.key);
    FoldSeen([a'], b', a.key);
    SameSeen(a, 1);
    SameSeen(b, 2);
    tr := [s0, s1, s2, s3, s4];
    FourSteps(ids, tr, Overtaken(a, b));
  }

  lemma FourSteps(ids: set<NodeId>, tr: seq<System>, steps: seq<Step>)
    requires |steps| == 4 && |tr| == 5 && tr[0] == Init(ids)
    requires Next(tr[0], steps[0], tr[1]) && Next(tr[1], steps[1], tr[2])
    requires Next(tr[2], steps[2], tr[3]) && Next(tr[3], steps[3], tr[4])
    ensures IsRun(ids, tr, steps)
  {
    hide Next;
  }

  lemma CaughtUpServesLog(ids: set<NodeId>, tr: seq<System>, steps: seq<Step>, i: nat, id: NodeId, key: string)
    requires IsRun(ids, tr, steps) && i < |tr| && id in tr[i].followers
    requires tr[i].followers[id].applied == |tr[i].leader.log|
    ensures Seen(tr[i].followers[id].data, key) == Seen(Fold(tr[i].leader.log), key)
  {
    PrefixSafety(ids, tr, steps, i, id);
    assert tr[i].leader.log[..|tr[i].leader.log|] == tr[i].leader.log;
  }

  // ---------------------------------------------------------------- nothing logged before the last is stored

  ghost predicate SameVisible(a: Contents, b: Contents)
  {
    forall k :: Visible(a, k) == Visible(b, k)
  }

  /** Store and log agree, version numbers included, but for the last entry if it is not stored yet. */
  ghost predicate SerialInv(s: System)
  {
    && (s.unstored == map[] ==> s.leader.version == |s.leader.log| && SameVisible(s.leader.data, Fold(s.leader.log)))
    && (forall b :: b in s.unstored ==> s.unstored.Keys == {b} && OneBehind(s.leader, s.unstored[b]))
  }

  ghost predicate OneBehind(l: Leader, e: LogEntry)
  {
    && |l.log| == l.version + 1 && l.log[l.version] == e
    && SameVisible(l.data, Fold(l.log[..l.version]))
  }

  lemma StoredVisible(l: Leader, e: LogEntry)
    requires OneBehind(l, e)
    ensures SameVisible(Stored(l, e).data, Fold(l.log)) && Stored(l, e).version == |l.log|
  {
    var before := l.log[..l.version];
    assert l.log == before + [e] && (before + [e])[..|before|] == before;
    forall k
      ensures Visible(Stored(l, e).data, k) == Visible(Fold(l.log), k)
    {
      assert Visible(l.data, k) == Visible(Fold(before), k);
    }
  }

  lemma AppendVisible(l: Leader, e: LogEntry)
    requires l.version == |l.log| && SameVisible(l.data, Fold(l.log))
    ensures OneBehind(Logged(l, e), Indexed(l, e))
    ensures SameVisible(Append(l, e).data, Fold(Append(l, e).log)) && Append(l, e).version == |Append(l, e).log|
  {
    var l1 := Logged(l, e);
    assert l1.log[..l.version] == l.log;
    StoredVisible(l1, Indexed(l, e));
  }

  lemma {:induction false} AppendAllVisible(l: Leader, es: seq<LogEntry>)
    requires l.version == |l.log| && SameVisible(l.data, Fold(l.log))
    ensures var l' := AppendAll(l, es); SameVisible(l'.data, Fold(l'.log)) && l'.version == |l'.log|
  {
    if es != [] {
      AppendAllVisible(l, es[..|es| - 1]);
      AppendVisible(AppendAll(l, es[..|es| - 1]), es[|es| - 1]);
    }
  }

  /** Nothing is logged while something is not stored. */
  ghost predicate Serial(tr: seq<System>, steps: seq<Step>)
    requires |tr| == |steps| + 1
  {
    forall i :: 0 <= i < |steps| && Logs(steps[i]) != [] ==> tr[i].unstored == map[]
  }

  lemma StepKeepsSerial(s: System, step: Step)
    requires SerialInv(s) && Enabled(s, step) && (Logs(step) != [] ==> s.unstored == map[])
    ensures SerialInv(Take(s, step))
  {
    hide SameVisible, ApplyLocally, OneBehind, AppendAll;
    match step
    case WriteStep(e) => AppendVisible(s.leader, e);
    case BatchStep(es) => AppendAllVisible(s.leader, es);
    case BatchAppendStep(b, e) => AppendVisible(s.leader, e);
    case BatchStoreStep(b) =>
      StoredVisible(s.leader, s.unstored[b]);
      assert (s.unstored - {b}).Keys == {};
    case _ =>
  }

  lemma InitSerial(ids: set<NodeId>)
    ensures SerialInv(Init(ids))
  {
  }

  /** In such runs leader and log agree on everything a reader sees, version numbers included. */
  lemma {:induction false} SerialLeader(ids: set<NodeId>, tr: seq<System>, steps: seq<Step>, i: nat)
    requires IsRun(ids, tr, steps) && Serial(tr, steps) && i < |tr|
    ensures SerialInv(tr[i])
    ensures tr[i].unstored == map[] ==> SameVisible(tr[i].leader.data, Fold(tr[i].leader.log))
  {
    hide SameVisible, Take;
    if i == 0 {
      InitSerial(ids);
    } else {
      SerialLeader(ids, tr, steps, i - 1);
      assert Next(tr[i - 1], steps[i - 1], tr[i]);
      StepKeepsSerial(tr[i - 1], steps[i - 1]);
    }
  }

  // ---------------------------------------------------------------- the log is what was asked for

  function AllLogs(steps: seq<Step>): seq<LogEntry>
  {
    if steps == [] then [] else AllLogs(steps[..|steps| - 1]) + Logs(steps[|steps| - 1])
  }

  /** The entries, numbered from 1 on. */
  ghost predicate NumberedAs(log: seq<LogEntry>, es: seq<LogEntry>)
  {
    |log| == |es| && forall k :: 0 <= k < |log| ==> log[k] == es[k].(index := k + 1)
  }

  lemma {:induction false} AppendAllNumbers(l: Leader, es: seq<LogEntry>, before: seq<LogEntry>)
    requires NumberedAs(l.log, before)
    ensures NumberedAs(AppendAll(l, es).log, before + es)
  {
    hide ApplyLocally;
    if es == [] {
      assert before + es == before;
    } else {
      AppendAllNumbers(l, es[..|es| - 1], before);
      assert before + es == before + es[..|es| - 1] + [es[|es| - 1]];
    }
  }

  lemma StepLogs(s: System, step: Step, before: seq<LogEntry>)
    requires Enabled(s, step) && NumberedAs(s.leader.log, before)
    ensures NumberedAs(Take(s, step).leader.log, before + Logs(step))
  {
    hide ApplyLocally, AppendAll, From;
    match step
    case BatchStep(es) => AppendAllNumbers(s.leader, es, before);
    case _ =>
  }

  /** In every run the leader's log is what its writes, deletes and batches asked for, in their order, numbered. */
  lemma {:induction false} LogIsWhatWasAsked(ids: set<NodeId>, tr: seq<System>, steps: seq<Step>, i: nat)
    requires IsRun(ids, tr, steps) && i < |tr|
    ensures NumberedAs(tr[i].leader.log, AllLogs(steps[..i]))
  {
    hide Take, Logs, NumberedAs;
    if i == 0 {
      assert NumberedAs(tr[0].leader.log, []) by { NothingLogged(ids); }
    } else {
      LogIsWhatWasAsked(ids, tr, steps, i - 1);
      assert Next(tr[i - 1], steps[i - 1], tr[i]);
      assert steps[..i][..i - 1] == steps[..i - 1] && steps[..i][i - 1] == steps[i - 1];
      StepLogs(tr[i - 1], steps[i - 1], AllLogs(steps[..i - 1]));
    }
  }

  lemma NothingLogged(ids: set<NodeId>)
    ensures NumberedAs(Init(ids).leader.log, [])
  {
  }

  // ---------------------------------------------------------------- writes reach the followers

  /**
   From any reachable state, a write or a batch that runs alone sends a message which brings every
   follower that had everything up to the leader's new log.
   */
  lemma WriteReaches(ids: set<NodeId>, tr: seq<System>, steps: seq<Step>, step: Step, id: NodeId)
    returns (m: Message, s': System)
    requires IsRun(ids, tr, steps) && (step.WriteStep? || step.BatchStep?) && Enabled(tr[|steps|], step)
    requires id in tr[|steps|].followers && tr[|steps|].followers[id].applied == |tr[|steps|].leader.log|
    ensures Runs(tr[|steps|], [step, DeliverStep(id, m)]) && s' == After(tr[|steps|], [step, DeliverStep(id, m)])
    ensures id in s'.followers && s'.followers[id].log == s'.leader.log && s'.followers[id].data == Fold(s'.leader.log)
    ensures |s'.leader.log| == |tr[|steps|].leader.log| + |Logs(step)|
  {
    hide Take, From, Fold, ApplyEntries;
    var s := tr[|steps|];
    RunInv(ids, tr, steps, |steps|);
    var s1 := Take(s, step);
    m := SentBy(s, step);
    StepKeepsInv(s, step, s1);
    StepLeaves(s, step, id);
    s' := Take(s1, DeliverStep(id, m));
    StepKeepsInv(s1, DeliverStep(id, m), s');
    Caught(s, s1, s', id, m);
    TwoSteps(s, step, DeliverStep(id, m));
  }

  lemma SentBy(s: System, step: Step) returns (m: Message)
    requires Enabled(s, step) && (step.WriteStep? || step.BatchStep?) && IndexedLog(s.leader.log)
    ensures var l := Take(s, step).leader;
      m in Take(s, step).sent && m == Message(From(l.log, |s.leader.log| + 1), |l.log|)
    ensures |Take(s, step).leader.log| == |s.leader.log| + |Logs(step)|
  {
    hide ApplyLocally;
    var l := Take(s, step).leader;
    m := Message(From(l.log, |s.leader.log| + 1), |l.log|);
    if step.WriteStep? {
      assert l.log[|s.leader.log|..] == [Indexed(s.leader, step.entry)];
    } else {
      Lengths(s.leader, step.entries);
    }
  }

  lemma {:induction false} Lengths(l: Leader, es: seq<LogEntry>)
    ensures |AppendAll(l, es).log| == |l.log| + |es|
  {
    if es != [] {
      Lengths(l, es[..|es| - 1]);
    }
  }

  lemma StepLeaves(s: System, step: Step, id: NodeId)
    requires Enabled(s, step) && (step.WriteStep? || step.BatchStep?) && id in s.followers
    ensures id in Take(s, step).followers && Take(s, step).followers[id] == s.followers[id]
  {
  }

  lemma Caught(s: System, s1: System, s': System, id: NodeId, m: Message)
    requires Inv(s1) && Inv(s') && id in s1.followers && Enabled(s1, DeliverStep(id, m))
    requires s' == Take(s1, DeliverStep(id, m)) && s1.followers[id].applied == |s.leader.log|
    requires m == Message(From(s1.leader.log, |s.leader.log| + 1), |s1.leader.log|)
    ensures s'.leader == s1.leader && id in s'.followers
    ensures s'.followers[id].log == s'.leader.log && s'.followers[id].data == Fold(s'.leader.log)
  {
    hide From, Fold, ApplyEntries;
    ResendCatchesUp(s1.followers[id], s1.leader.log, |s.leader.log| + 1);
    assert s'.leader.log[..|s'.leader.log|] == s'.leader.log;
  }

  lemma TwoSteps(s: System, a: Step, b: Step)
    requires Enabled(s, a) && Enabled(Take(s, a), b)
    ensures Runs(s, [a, b]) && After(s, [a, b]) == Take(Take(s, a), b)
  {
    hide Take, Enabled;
    var mid := Take(s, a);
    assert [b][1..] == [] && Runs(Take(mid, b), []) && After(Take(mid, b), []) == Take(mid, b);
    assert Runs(mid, [b]) && After(mid, [b]) == Take(mid, b);
    assert [a, b][1..] == [b];
  }

  // ---------------------------------------------------------------- what followers know of the leader

  /** The last index of the leader that a follower has heard of. */
  lemma HeardIndex(f: Follower, m: Message)
    ensures ApplyEntries(f, m).leaderIndex >= f.leaderIndex && ApplyEntries(f, m).leaderIndex >= m.ackIndex
    ensures ApplyEntries(f, m).leaderIndex == f.leaderIndex || ApplyEntries(f, m).leaderIndex == m.ackIndex
  {
    hide CatchUp, Buffer;
    SameHeard(f.(pending := Buffer(f.applied, f.pending, m.entries)));
  }

  lemma {:induction false} SameHeard(f: Follower)
    ensures CatchUp(f).leaderIndex == f.leaderIndex
    decreases |f.pending|
  {
    if f.applied + 1 in f.pending {
      SameHeard(ApplyOne(f));
    }
  }

  ghost predicate HeardInv(s: System)
  {
    && (forall m :: m in s.sent ==> m.ackIndex <= |s.leader.log|)
    && (forall id :: id in s.followers ==> s.followers[id].leaderIndex <= |s.leader.log|)
    && (forall b :: b in s.open ==> forall e :: e in s.open[b] ==> e.index <= |s.leader.log|)
  }

  lemma StepKeepsHeard(s: System, step: Step)
    requires HeardInv(s) && Enabled(s, step)
    ensures HeardInv(Take(s, step))
  {
    hide ApplyEntries, ApplyLocally, From, AppendAll;
    if step.DeliverStep? {
      HeardIndex(s.followers[step.id], step.m);
    } else if step.BatchStep? {
      Lengths(s.leader, step.entries);
    }
  }

  /** In every run no follower believes the leader to be ahead of where it is. */
  lemma {:induction false} HeardWithinLog(ids: set<NodeId>, tr: seq<System>, steps: seq<Step>, i: nat)
    requires IsRun(ids, tr, steps) && i < |tr|
    ensures HeardInv(tr[i])
  {
    hide Take, Enabled, HeardInv;
    if i == 0 {
      NothingHeard(ids);
    } else {
      HeardWithinLog(ids, tr, steps, i - 1);
      assert Next(tr[i - 1], steps[i - 1], tr[i]);
      StepKeepsHeard(tr[i - 1], steps[i - 1]);
    }
  }

  lemma NothingHeard(ids: set<NodeId>)
    ensures HeardInv(Init(ids))
  {
  }
}
