/**
 The replicated log with prefix compaction (internal/replication/log.go).

 `Log` is the value a ReplicationLog object holds; the functions on it say what each method
 does. The plain log, a sequence that is never compacted, is the independent reference:
 every run of the compacted log answers as the plain one.
 */
module LogModel {
  import opened Storage

  datatype Log = Log(
    entries: seq<LogEntry>, commitIndex: nat, nextIndex: nat, snapshotIndex: nat, snapshotTerm: nat)

  const EMPTY := Log([], 0, 1, 0, 0)

  /** Absolute index i lives at position i - snapshotIndex - 1, up to nextIndex. */
  ghost predicate WellFormed(l: Log)
  {
    && l.nextIndex == l.snapshotIndex + |l.entries| + 1
    && forall i :: 0 <= i < |l.entries| ==> l.entries[i].index == l.snapshotIndex + i + 1
  }

  function Append(l: Log, e: LogEntry): Log
  {
    l.(entries := l.entries + [e.(index := l.nextIndex)], nextIndex := l.nextIndex + 1)
  }

  function Get(l: Log, index: nat): Option<LogEntry>
    requires WellFormed(l)
  {
    if index == 0 || index <= l.snapshotIndex || index >= l.nextIndex then None
    else Some(l.entries[index - l.snapshotIndex - 1])
  }

  function GetFrom(l: Log, startIndex: nat): seq<LogEntry>
    requires WellFormed(l)
  {
    if startIndex >= l.nextIndex then []
    else if startIndex <= l.snapshotIndex then l.entries
    else l.entries[startIndex - l.snapshotIndex - 1..]
  }

  function TermAt(l: Log, index: nat): nat
    requires WellFormed(l)
  {
    if index == 0 then 0
    else if index == l.snapshotIndex then l.snapshotTerm
    else if index <= l.snapshotIndex || index >= l.nextIndex then 0
    else l.entries[index - l.snapshotIndex - 1].term
  }

  function LastIndexTerm(l: Log): (nat, nat)
    requires WellFormed(l)
  {
    var last := l.nextIndex - 1;
    if last == 0 then (0, 0)
    else if last == l.snapshotIndex then (last, l.snapshotTerm)
    else (last, l.entries[last - l.snapshotIndex - 1].term)
  }

  predicate Matches(l: Log, prevIndex: nat, prevTerm: nat)
    requires WellFormed(l)
  {
    if prevIndex == 0 then true
    else if prevIndex == l.snapshotIndex then prevTerm == l.snapshotTerm
    else if prevIndex < l.snapshotIndex || prevIndex >= l.nextIndex then false
    else l.entries[prevIndex - l.snapshotIndex - 1].term == prevTerm
  }

  /** What one turn of AppendAfter's loop does with one incoming entry. */
  function Receive(l: Log, e: LogEntry): (r: Log)
    requires WellFormed(l)
    ensures WellFormed(r)
    ensures r.snapshotIndex == l.snapshotIndex && r.snapshotTerm == l.snapshotTerm
    ensures r.commitIndex == l.commitIndex
  {
    if e.index <= l.snapshotIndex then l
    else
      var p := e.index - l.snapshotIndex - 1;
      if e.index < l.nextIndex && l.entries[p].term == e.term then l
      else if e.index <= l.nextIndex then
        l.(entries := l.entries[..p] + [e], nextIndex := e.index + 1)
      else l
  }

  function AppendAfter(l: Log, es: seq<LogEntry>): (r: Log)
    requires WellFormed(l)
    ensures WellFormed(r)
    ensures r.snapshotIndex == l.snapshotIndex && r.snapshotTerm == l.snapshotTerm
    ensures r.commitIndex == l.commitIndex
  {
    if es == [] then l
    else Receive(AppendAfter(l, es[..|es| - 1]), es[|es| - 1])
  }

  function SetCommitIndex(l: Log, idx: nat): Log
  {
    if idx > l.commitIndex then l.(commitIndex := idx) else l
  }

  function Compact(l: Log, uptoIndex: nat, term: nat): (r: Log)
    requires WellFormed(l)
    ensures WellFormed(r)
  {
    var upto := if uptoIndex >= l.nextIndex then l.nextIndex - 1 else uptoIndex;
    if upto <= l.snapshotIndex then l
    else
      var drop := upto - l.snapshotIndex;
      l.(entries := l.entries[drop..], snapshotIndex := upto,
         snapshotTerm := if term != 0 then term else l.entries[drop - 1].term)
  }

  function InstallSnapshot(l: Log, index: nat, term: nat): (r: Log)
    requires WellFormed(l)
    ensures WellFormed(r)
  {
    if index <= l.snapshotIndex then l
    else Log([], if l.commitIndex < index then index else l.commitIndex, index + 1, index, term)
  }

  // ---------------------------------------------------------------- the plain log

  ghost predicate Numbered(full: seq<LogEntry>)
  {
    forall i :: 0 <= i < |full| ==> full[i].index == i + 1
  }

  function PlainTermAt(full: seq<LogEntry>, index: nat): nat
  {
    if 1 <= index <= |full| then full[index - 1].term else 0
  }

  /** An entry of another term replaces the entry at its index and everything behind it. */
  function PlainReceive(full: seq<LogEntry>, e: LogEntry): seq<LogEntry>
  {
    if 1 <= e.index <= |full| + 1 && !(e.index <= |full| && full[e.index - 1].term == e.term)
    then full[..e.index - 1] + [e]
    else full
  }

  function PlainAppendAfter(full: seq<LogEntry>, es: seq<LogEntry>): seq<LogEntry>
  {
    if es == [] then full
    else PlainReceive(PlainAppendAfter(full, es[..|es| - 1]), es[|es| - 1])
  }

  /** `l` is what is left of `full` after dropping the prefix up to snapshotIndex. */
  ghost predicate Refines(l: Log, full: seq<LogEntry>)
  {
    && WellFormed(l)
    && Numbered(full)
    && |full| == l.nextIndex - 1
    && l.entries == full[l.snapshotIndex..]
    && (l.snapshotIndex > 0 ==> l.snapshotTerm == full[l.snapshotIndex - 1].term)
  }

  // ---------------------------------------------------------------- runs

  datatype Op =
    | OpAppend(entry: LogEntry)
    | OpAppendAfter(prevIndex: nat, entries: seq<LogEntry>)
    | OpCompact(uptoIndex: nat, term: nat)

  function Apply(l: Log, op: Op): (r: Log)
    requires WellFormed(l)
    ensures WellFormed(r)
  {
    match op
    case OpAppend(e) => Append(l, e)
    case OpAppendAfter(_, es) => AppendAfter(l, es)
    case OpCompact(upto, term) => Compact(l, upto, term)
  }

  function PlainApply(full: seq<LogEntry>, op: Op): seq<LogEntry>
  {
    match op
    case OpAppend(e) => full + [e.(index := |full| + 1)]
    case OpAppendAfter(_, es) => PlainAppendAfter(full, es)
    case OpCompact(_, _) => full
  }

  /**
   What the callers owe: Compact is given the term of the entry that becomes the boundary (or
   0, "look it up"), and an incoming entry at or below the boundary is the one dropped there.
   */
  ghost predicate Honest(full: seq<LogEntry>, snapshotIndex: nat, op: Op)
  {
    match op
    case OpAppend(_) => true
    case OpAppendAfter(_, es) =>
      forall e :: e in es && 1 <= e.index <= snapshotIndex ==> e.term == PlainTermAt(full, e.index)
    case OpCompact(upto, term) =>
      term == 0 || term == PlainTermAt(full, if upto > |full| then |full| else upto)
  }

  function Run(ops: seq<Op>): (r: Log)
    ensures WellFormed(r)
  {
    if ops == [] then EMPTY else Apply(Run(ops[..|ops| - 1]), ops[|ops| - 1])
  }

  function PlainRun(ops: seq<Op>): seq<LogEntry>
  {
    if ops == [] then [] else PlainApply(PlainRun(ops[..|ops| - 1]), ops[|ops| - 1])
  }

  ghost predicate HonestRun(ops: seq<Op>)
  {
    forall i :: 0 <= i < |ops| ==> Honest(PlainRun(ops[..i]), Run(ops[..i]).snapshotIndex, ops[i])
  }

  lemma ReceiveRefines(l: Log, full: seq<LogEntry>, e: LogEntry)
    requires Refines(l, full)
    requires 1 <= e.index <= l.snapshotIndex ==> e.term == PlainTermAt(full, e.index)
    ensures Refines(Receive(l, e), PlainReceive(full, e))
    ensures PlainReceive(full, e)[..l.snapshotIndex] == full[..l.snapshotIndex]
  {
  }

  lemma {:induction false} AppendAfterRefines(l: Log, full: seq<LogEntry>, es: seq<LogEntry>)
    requires Refines(l, full)
    requires forall e :: e in es && 1 <= e.index <= l.snapshotIndex ==> e.term == PlainTermAt(full, e.index)
    ensures Refines(AppendAfter(l, es), PlainAppendAfter(full, es))
    ensures PlainAppendAfter(full, es)[..l.snapshotIndex] == full[..l.snapshotIndex]
  {
    if es != [] {
      var init, last := es[..|es| - 1], es[|es| - 1];
      AppendAfterRefines(l, full, init);
      var mid := PlainAppendAfter(full, init);
      if 1 <= last.index <= l.snapshotIndex {
        assert mid[..l.snapshotIndex][last.index - 1] == full[..l.snapshotIndex][last.index - 1];
      }
      ReceiveRefines(AppendAfter(l, init), mid, last);
    }
  }

  lemma CompactRefines(l: Log, full: seq<LogEntry>, upto: nat, term: nat)
    requires Refines(l, full) && Honest(full, l.snapshotIndex, OpCompact(upto, term))
    ensures Refines(Compact(l, upto, term), full)
  {
  }

  lemma StepRefines(l: Log, full: seq<LogEntry>, op: Op)
    requires Refines(l, full) && Honest(full, l.snapshotIndex, op)
    ensures Refines(Apply(l, op), PlainApply(full, op))
  {
    match op {
      case OpAppend(e) =>
      case OpAppendAfter(_, es) => AppendAfterRefines(l, full, es);
      case OpCompact(upto, term) => CompactRefines(l, full, upto, term);
    }
  }

  lemma HonestPrefix(ops: seq<Op>)
    requires HonestRun(ops) && ops != []
    ensures HonestRun(ops[..|ops| - 1])
  {
    var init := ops[..|ops| - 1];
    forall i | 0 <= i < |init|
      ensures Honest(PlainRun(init[..i]), Run(init[..i]).snapshotIndex, init[i])
    {
      assert ops[..i] == init[..i] && ops[i] == init[i];
    }
  }

  /** Every run of the compacted log is the plain run with a prefix dropped. */
  lemma {:induction false} CompactedRunRefines(ops: seq<Op>)
    requires HonestRun(ops)
    ensures Refines(Run(ops), PlainRun(ops))
  {
    if ops != [] {
      var init, last := ops[..|ops| - 1], ops[|ops| - 1];
      HonestPrefix(ops);
      CompactedRunRefines(init);
      assert Honest(PlainRun(init), Run(init).snapshotIndex, last);
      StepRefines(Run(init), PlainRun(init), last);
    }
  }

  /** The operation compacts the log up to this index, or as far as it goes. */
  ghost predicate CompactsTo(ops: seq<Op>, j: nat, index: nat)
  {
    j < |ops| && ops[j].OpCompact? && index <= ops[j].uptoIndex && index <= |PlainRun(ops[..j])|
  }

  lemma CompactBoundary(l: Log, upto: nat, term: nat)
    requires WellFormed(l)
    ensures var last := l.nextIndex - 1; var bound := if upto > last then last else upto;
      Compact(l, upto, term).snapshotIndex == if bound > l.snapshotIndex then bound else l.snapshotIndex
  {
  }

  ghost predicate Compacted(ops: seq<Op>, index: nat)
  {
    exists j: nat :: CompactsTo(ops, j, index)
  }

  lemma CompactedMore(ops: seq<Op>, op: Op, index: nat)
    ensures Compacted(ops + [op], index) <==>
      Compacted(ops, index) || (op.OpCompact? && index <= op.uptoIndex && index <= |PlainRun(ops)|)
  {
    hide PlainRun;
    var ops' := ops + [op];
    assert ops'[..|ops|] == ops;
    if j: nat :| CompactsTo(ops', j, index) {
      if j < |ops| {
        assert ops'[..j] == ops[..j];
        assert CompactsTo(ops, j, index);
      }
    }
    if j: nat :| CompactsTo(ops, j, index) {
      assert ops'[..j] == ops[..j];
      assert CompactsTo(ops', j, index);
    }
    if op.OpCompact? && index <= op.uptoIndex && index <= |PlainRun(ops)| {
      assert CompactsTo(ops', |ops|, index);
    }
  }

  lemma SameBoundary(l: Log, op: Op)
    requires WellFormed(l) && !op.OpCompact?
    ensures Apply(l, op).snapshotIndex == l.snapshotIndex
  {
  }

  lemma {:induction false} BoundaryIs(ops: seq<Op>, index: nat)
    requires HonestRun(ops) && index > 0
    ensures index <= Run(ops).snapshotIndex <==> Compacted(ops, index)
  {
    hide Compacted, Compact, AppendAfter, HonestRun;
    if ops == [] {
      assert !Compacted(ops, index) by { NeverCompacted(index); }
    } else {
      var init, last := ops[..|ops| - 1], ops[|ops| - 1];
      HonestPrefix(ops);
      BoundaryIs(init, index);
      CompactedRunRefines(init);
      CompactedMore(init, last, index);
      assert init + [last] == ops;
      if last.OpCompact? {
        CompactBoundary(Run(init), last.uptoIndex, last.term);
      } else {
        SameBoundary(Run(init), last);
      }
    }
  }

  lemma NeverCompacted(index: nat)
    ensures !Compacted([], index)
  {
  }

  /** Compaction drops what it says, for good: an entry is gone exactly if some compaction reached it. */
  lemma DroppedIff(ops: seq<Op>, index: nat)
    requires HonestRun(ops) && 1 <= index <= |PlainRun(ops)|
    ensures Get(Run(ops), index).None? <==> Compacted(ops, index)
  {
    BoundaryIs(ops, index);
    CompactedRunRefines(ops);
  }

  /** A snapshot ahead of the boundary replaces the log, which ends there, in that term; commits do not go back. */
  lemma SnapshotInstalled(l: Log, index: nat, term: nat, i: nat)
    requires WellFormed(l) && index > l.snapshotIndex
    ensures var r := InstallSnapshot(l, index, term);
      && LastIndexTerm(r) == (index, term) && Matches(r, index, term) && Get(r, i).None?
      && r.commitIndex >= l.commitIndex && r.commitIndex >= index
      && (r.commitIndex == l.commitIndex || r.commitIndex == index)
  {
  }

  /** Every query answers on `l` as on the plain log, wherever the compacted log still knows. */
  ghost predicate SameAnswers(l: Log, full: seq<LogEntry>, i: nat, t: nat)
    requires WellFormed(l)
  {
    && LastIndexTerm(l) == (|full|, PlainTermAt(full, |full|))
    && (i > l.snapshotIndex ==>
        && Get(l, i) == (if i <= |full| then Some(full[i - 1]) else None)
        && GetFrom(l, i) == (if i <= |full| then full[i - 1..] else []))
    && (i >= l.snapshotIndex || i == 0 ==>
        && TermAt(l, i) == PlainTermAt(full, i)
        && (Matches(l, i, t) <==> i == 0 || (i <= |full| && full[i - 1].term == t)))
  }

  lemma RefinedAnswers(l: Log, full: seq<LogEntry>, i: nat, t: nat)
    requires Refines(l, full)
    ensures SameAnswers(l, full, i, t)
  {
  }

  /** Whatever was appended, overwritten and compacted, no query at or above the boundary can tell. */
  lemma CompactionUnobservable(ops: seq<Op>, i: nat, t: nat)
    requires HonestRun(ops)
    ensures Run(ops).nextIndex == Run(ops).snapshotIndex + |Run(ops).entries| + 1
    ensures SameAnswers(Run(ops), PlainRun(ops), i, t)
  {
    CompactedRunRefines(ops);
    RefinedAnswers(Run(ops), PlainRun(ops), i, t);
  }
}

/** The object the nodes update in place; each method moves it as LogModel's function says. */
module ReplicationLogObject {
  import opened Storage
  import L = LogModel

  class ReplicationLog {
    var entries: seq<LogEntry>
    var commitIndex: nat
    var nextIndex: nat
    var snapshotIndex: nat
    var snapshotTerm: nat

    function State(): L.Log
      reads this
    {
      L.Log(entries, commitIndex, nextIndex, snapshotIndex, snapshotTerm)
    }

    ghost predicate Valid()
      reads this
    {
      L.WellFormed(State())
    }

    constructor ()
      ensures Valid() && State() == L.EMPTY
    {
      entries, commitIndex, nextIndex, snapshotIndex, snapshotTerm := [], 0, 1, 0, 0;
    }

    method Append(entry: LogEntry) returns (index: nat)
      requires Valid()
      modifies this
      ensures Valid() && State() == L.Append(old(State()), entry)
      ensures index == old(nextIndex)
    {
      index := nextIndex;
      nextIndex := nextIndex + 1;
      entries := entries + [entry.(index := index)];
    }

    method SetCommitIndex(idx: nat)
      requires Valid()
      modifies this`commitIndex
      ensures Valid() && State() == L.SetCommitIndex(old(State()), idx)
      ensures commitIndex == if idx > old(commitIndex) then idx else old(commitIndex)
    {
      if idx > commitIndex {
        commitIndex := idx;
      }
    }

    /** One turn of AppendAfter's loop: keep, skip, or truncate and append. */
    method Receive(e: LogEntry)
      requires Valid()
      modifies this
      ensures Valid() && State() == L.Receive(old(State()), e)
    {
      if e.index <= snapshotIndex {
        return;
      }
      if e.index < nextIndex {
        var p := e.index - snapshotIndex - 1;
        if entries[p].term == e.term {
          return;
        }
        entries := entries[..p];
        nextIndex := e.index;
      }
      if e.index == nextIndex {
        entries := entries + [e];
        nextIndex := nextIndex + 1;
      }
    }

    method AppendAfter(prevIndex: nat, es: seq<LogEntry>) returns (last: nat)
      requires Valid()
      modifies this
      ensures Valid() && State() == L.AppendAfter(old(State()), es)
      ensures last == nextIndex - 1
    {
      hide L.Receive;
      for i := 0 to |es|
        invariant Valid()
        invariant State() == L.AppendAfter(old(State()), es[..i])
      {
        assert es[..i + 1][..i] == es[..i];
        Receive(es[i]);
      }
      assert es[..|es|] == es;
      last := nextIndex - 1;
    }

    method Compact(uptoIndex: nat, term: nat)
      requires Valid()
      modifies this
      ensures Valid() && State() == L.Compact(old(State()), uptoIndex, term)
      ensures snapshotIndex >= old(snapshotIndex) && entries == old(entries)[snapshotIndex - old(snapshotIndex)..]
      ensures snapshotIndex >= uptoIndex || snapshotIndex == nextIndex - 1
    {
      if uptoIndex <= snapshotIndex {
        return;
      }
      var upto := uptoIndex;
      if upto >= nextIndex {
        upto := nextIndex - 1;
      }
      if upto <= snapshotIndex {
        return;
      }
      var drop := upto - snapshotIndex;
      snapshotTerm := entries[drop - 1].term;
      if term != 0 {
        snapshotTerm := term;
      }
      entries := entries[drop..];
      snapshotIndex := upto;
    }

    method InstallSnapshot(index: nat, term: nat)
      requires Valid()
      modifies this
      ensures Valid() && State() == L.InstallSnapshot(old(State()), index, term)
    {
      if index <= snapshotIndex {
        return;
      }
      entries, snapshotIndex, snapshotTerm, nextIndex := [], index, term, index + 1;
      if commitIndex < index {
        commitIndex := index;
      }
    }
  }
}
