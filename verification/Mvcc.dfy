/** Multi-version storage with snapshot reads (internal/mvcc/mvcc.go). */
module MvccModel {
  import opened Storage

  datatype Version = Version(value: seq<bv8>, timestamp: int, tombstone: bool)

  /** The versions of one key, oldest first. */
  type Chain = seq<Version>

  ghost predicate Sorted(c: Chain)
  {
    forall i, j :: 0 <= i < j < |c| ==> c[i].timestamp <= c[j].timestamp
  }

  /** The last version at or before ts: the meaning of a snapshot read. */
  function At(c: Chain, ts: int): Option<Version>
  {
    if c == [] then None
    else if c[|c| - 1].timestamp <= ts then Some(c[|c| - 1])
    else At(c[..|c| - 1], ts)
  }

  /** What a reader gets from a version: a tombstone is not found. */
  function Shown(v: Option<Version>): Option<seq<bv8>>
  {
    if v.Some? && !v.value.tombstone then Some(v.value.value) else None
  }

  /** The first position whose version is at or after ts (strictly after, if strict). */
  function First(c: Chain, ts: int, strict: bool): (i: nat)
    ensures i <= |c|
  {
    if c == [] then 0
    else if Beyond(c[0], ts, strict) then 0
    else 1 + First(c[1..], ts, strict)
  }

  predicate Beyond(v: Version, ts: int, strict: bool)
  {
    if strict then v.timestamp > ts else v.timestamp >= ts
  }

  function Insert(c: Chain, v: Version): Chain
  {
    if c == [] || v.timestamp >= c[|c| - 1].timestamp then c + [v]
    else var i := First(c, v.timestamp, false); c[..i] + [v] + c[i..]
  }

  function Compact(c: Chain, before: int): Chain
  {
    var i := First(c, before, false);
    if i == 0 then c else c[i - 1..]
  }

  // ---------------------------------------------------------------- stores and histories

  type Versions = map<string, Chain>

  function ChainOf(s: Versions, key: string): Chain
  {
    if key in s then s[key] else []
  }

  /** Put and Delete, and Compact. */
  datatype Op = Commit(key: string, version: Version) | Trim(key: string, before: int)

  function Do(s: Versions, op: Op): Versions
  {
    match op
    case Commit(key, v) => s[key := Insert(ChainOf(s, key), v)]
    case Trim(key, before) => if ChainOf(s, key) == [] then s else s[key := Compact(ChainOf(s, key), before)]
  }

  function Run(ops: seq<Op>): Versions
  {
    if ops == [] then map[] else Do(Run(ops[..|ops| - 1]), ops[|ops| - 1])
  }

  /** The same history without compaction. */
  function RunUntrimmed(ops: seq<Op>): Versions
  {
    if ops == [] then map[]
    else if ops[|ops| - 1].Trim? then RunUntrimmed(ops[..|ops| - 1])
    else Do(RunUntrimmed(ops[..|ops| - 1]), ops[|ops| - 1])
  }

  /** No compaction of the key went beyond ts. */
  predicate Above(ops: seq<Op>, key: string, ts: int)
  {
    forall i :: 0 <= i < |ops| && ops[i].Trim? && ops[i].key == key ==> ops[i].before <= ts
  }
}

module MvccProofs {
  import opened Storage
  import opened MvccModel

  // ---------------------------------------------------------------- reads

  lemma {:induction false} FirstSplits(c: Chain, ts: int, strict: bool)
    requires Sorted(c)
    ensures forall j :: 0 <= j < First(c, ts, strict) ==> !Beyond(c[j], ts, strict)
    ensures forall j :: First(c, ts, strict) <= j < |c| ==> Beyond(c[j], ts, strict)
  {
    if c != [] && !Beyond(c[0], ts, strict) {
      FirstSplits(c[1..], ts, strict);
      assert forall j :: 1 <= j < |c| ==> c[j] == c[1..][j - 1];
    }
  }

  lemma FirstUnique(c: Chain, ts: int, strict: bool, i: nat)
    requires Sorted(c) && i <= |c|
    requires forall k :: 0 <= k < i ==> !Beyond(c[k], ts, strict)
    requires forall k :: i <= k < |c| ==> Beyond(c[k], ts, strict)
    ensures i == First(c, ts, strict)
  {
    var f := First(c, ts, strict);
    FirstSplits(c, ts, strict);
    assert i < |c| ==> Beyond(c[i], ts, strict);
    assert f < |c| ==> Beyond(c[f], ts, strict);
  }

  /** In a sorted chain a snapshot read is the version just before the first later one. */
  lemma {:induction false} AtIs(c: Chain, ts: int, i: nat)
    requires i <= |c| && (forall j :: 0 <= j < i ==> c[j].timestamp <= ts)
      && (forall j :: i <= j < |c| ==> c[j].timestamp > ts)
    ensures At(c, ts) == if i == 0 then None else Some(c[i - 1])
  {
    if i < |c| {
      AtIs(c[..|c| - 1], ts, i);
    }
  }

  /** Where the snapshot splits a sorted chain. */
  lemma AtSplits(c: Chain, ts: int) returns (i: nat)
    requires Sorted(c)
    ensures i <= |c| && (forall j :: 0 <= j < i ==> c[j].timestamp <= ts)
      && (forall j :: i <= j < |c| ==> c[j].timestamp > ts)
    ensures At(c, ts) == if i == 0 then None else Some(c[i - 1])
  {
    i := First(c, ts, true);
    FirstSplits(c, ts, true);
    AtIs(c, ts, i);
  }

  /** The last version of the chain at or before ts. */
  ghost predicate LastAt(c: Chain, ts: int, i: nat)
  {
    i < |c| && c[i].timestamp <= ts && forall j :: i < j < |c| ==> c[j].timestamp > ts
  }

  /** What a reader is told of a chain at ts: the last version's value, unless there is none or it is a tombstone. */
  ghost predicate Tells(c: Chain, ts: int, r: Option<seq<bv8>>)
  {
    match r
    case Some(x) => exists i: nat :: LastAt(c, ts, i) && !c[i].tombstone && c[i].value == x
    case None => forall i: nat :: LastAt(c, ts, i) ==> c[i].tombstone
  }

  lemma {:induction false} AtIsLast(c: Chain, ts: int)
    ensures At(c, ts).None? ==> forall j :: 0 <= j < |c| ==> c[j].timestamp > ts
    ensures At(c, ts).Some? ==> exists i: nat :: LastAt(c, ts, i) && c[i] == At(c, ts).value
  {
    if c != [] {
      if c[|c| - 1].timestamp <= ts {
        assert LastAt(c, ts, |c| - 1);
      } else {
        var init := c[..|c| - 1];
        AtIsLast(init, ts);
        if At(init, ts).Some? {
          var i: nat :| LastAt(init, ts, i) && init[i] == At(init, ts).value;
          assert LastAt(c, ts, i) && c[i] == init[i];
        }
      }
    }
  }

  lemma ShownTells(c: Chain, ts: int)
    ensures Tells(c, ts, Shown(At(c, ts)))
  {
    AtIsLast(c, ts);
    if At(c, ts).Some? {
      var i: nat :| LastAt(c, ts, i) && c[i] == At(c, ts).value;
      forall j: nat | LastAt(c, ts, j)
        ensures j == i
      {
      }
    }
  }

  // ---------------------------------------------------------------- commits

  lemma InsertSorted(c: Chain, v: Version)
    requires Sorted(c)
    ensures Sorted(Insert(c, v))
  {
    if !AtTail(c, v) {
      FirstSplits(c, v.timestamp, false);
      SplicedSorted(c, v, First(c, v.timestamp, false));
    }
  }

  lemma SplicedSorted(c: Chain, v: Version, i: nat)
    requires Sorted(c) && i <= |c|
    requires (forall j :: 0 <= j < i ==> c[j].timestamp <= v.timestamp)
      && (forall j :: i <= j < |c| ==> v.timestamp <= c[j].timestamp)
    ensures Sorted(c[..i] + [v] + c[i..])
  {
  }

  /** Whether the new version goes to the end of the chain. */
  predicate AtTail(c: Chain, v: Version)
  {
    c == [] || v.timestamp >= c[|c| - 1].timestamp
  }

  lemma TailRead(c: Chain, v: Version, ts: int)
    ensures At(c + [v], ts) == if v.timestamp <= ts then Some(v) else At(c, ts)
  {
    assert (c + [v])[..|c|] == c;
  }

  ghost predicate SplitsAt(c: Chain, ts: int, k: nat)
  {
    k <= |c| && (forall j :: 0 <= j < k ==> c[j].timestamp <= ts) && (forall j :: k <= j < |c| ==> c[j].timestamp > ts)
  }

  lemma SplicedSplit(c: Chain, v: Version, i: nat, ts: int, k: nat)
    requires i <= |c| && SplitsAt(c, ts, k)
    requires (forall j :: 0 <= j < i ==> c[j].timestamp < v.timestamp)
      && (forall j :: i <= j < |c| ==> v.timestamp <= c[j].timestamp)
    ensures v.timestamp <= ts ==> i <= k
    ensures ts < v.timestamp ==> k <= i
    ensures SplitsAt(c[..i] + [v] + c[i..], ts, if v.timestamp <= ts then k + 1 else k)
  {
    var d := c[..i] + [v] + c[i..];
    assert k < i ==> c[k].timestamp < v.timestamp;
    assert i < k ==> v.timestamp <= c[i].timestamp;
    forall j | 0 <= j < |d|
      ensures d[j].timestamp <= ts <==> j < if v.timestamp <= ts then k + 1 else k
    {
      if j < i {
        assert d[j] == c[j];
      } else if j > i {
        assert d[j] == c[j - 1];
      }
    }
  }

  lemma SplicedRead(c: Chain, v: Version, i: nat, ts: int)
    requires Sorted(c) && i <= |c|
    requires (forall j :: 0 <= j < i ==> c[j].timestamp < v.timestamp)
      && (forall j :: i <= j < |c| ==> v.timestamp <= c[j].timestamp)
    ensures At(c[..i] + [v] + c[i..], ts) ==
      if v.timestamp <= ts && (At(c, ts).None? || At(c, ts).value.timestamp < v.timestamp) then Some(v) else At(c, ts)
  {
    hide At, Sorted;
    var k := AtSplits(c, ts);
    var d := c[..i] + [v] + c[i..];
    SplicedSplit(c, v, i, ts, k);
    AtIs(d, ts, if v.timestamp <= ts then k + 1 else k);
    if v.timestamp <= ts {
      assert d[k] == if k == i then v else c[k - 1];
    }
  }

  /** A snapshot after a commit, from the snapshot before it. */
  lemma InsertRead(c: Chain, v: Version, ts: int)
    requires Sorted(c)
    ensures At(Insert(c, v), ts) ==
      if v.timestamp <= ts && (AtTail(c, v) || At(c, ts).None? || At(c, ts).value.timestamp < v.timestamp) then Some(v)
      else At(c, ts)
  {
    hide At;
    if AtTail(c, v) {
      TailRead(c, v, ts);
    } else {
      FirstSplits(c, v.timestamp, false);
      SplicedRead(c, v, First(c, v.timestamp, false), ts);
    }
  }

  /** A commit at t never changes a snapshot below t. */
  lemma SnapshotStable(c: Chain, v: Version, ts: int)
    requires Sorted(c) && ts < v.timestamp
    ensures At(Insert(c, v), ts) == At(c, ts)
  {
    InsertRead(c, v, ts);
  }

  /** A commit is seen at its own timestamp unless it is late and that timestamp is taken. */
  lemma CommitVisible(c: Chain, v: Version)
    requires Sorted(c) && v !in c
    ensures At(Insert(c, v), v.timestamp) == Some(v) <==>
      AtTail(c, v) || forall i :: 0 <= i < |c| ==> c[i].timestamp != v.timestamp
  {
    InsertRead(c, v, v.timestamp);
    var k := AtSplits(c, v.timestamp);
    if k > 0 {
      assert c[k - 1] in c;
    }
  }

  // ---------------------------------------------------------------- compaction

  lemma CompactSorted(c: Chain, before: int)
    requires Sorted(c)
    ensures Sorted(Compact(c, before))
  {
  }

  /** Compaction keeps every snapshot at or after its boundary. */
  lemma CompactKeepsReads(c: Chain, before: int, ts: int)
    requires Sorted(c) && ts >= before
    ensures At(Compact(c, before), ts) == At(c, ts)
  {
    hide At, Sorted, First;
    var i := First(c, before, false);
    FirstSplits(c, before, false);
    var k := AtSplits(c, ts);
    if i > 0 {
      assert !Beyond(c[i - 1], before, false);
      SuffixRead(c, ts, i - 1, k);
    }
  }

  /** Dropping versions before the one that is read does not change the read. */
  lemma SuffixRead(c: Chain, ts: int, from: nat, k: nat)
    requires from < |c| && c[from].timestamp <= ts && SplitsAt(c, ts, k)
    ensures from < k && At(c[from..], ts) == Some(c[k - 1])
  {
    hide At;
    AtIs(c[from..], ts, k - from);
  }

  /** What is left before the boundary is one version at most. */
  lemma CompactDrops(c: Chain, before: int, j: nat)
    requires Sorted(c) && 0 < j < |Compact(c, before)|
    ensures Compact(c, before)[j].timestamp >= before
  {
    FirstSplits(c, before, false);
    var i := First(c, before, false);
    var k := if i == 0 then j else i - 1 + j;
    assert Beyond(c[k], before, false);
  }

  /** Compaction keeps every version at or after the boundary, and the newest one before it. */
  lemma CompactKeepsNew(c: Chain, before: int, j: nat)
    requires Sorted(c) && j < |c| && (c[j].timestamp >= before || At(c, before) == Some(c[j]))
    ensures c[j] in Compact(c, before)
  {
    var i := First(c, before, false);
    FirstSplits(c, before, false);
    var k := AtSplits(c, before);
    if i > 0 {
      assert !Beyond(c[i - 1], before, false);
      assert c[i - 1..][k - i] == c[k - 1];
      if j >= i - 1 {
        assert c[i - 1..][j - (i - 1)] == c[j];
      } else {
        assert !Beyond(c[j], before, false);
      }
    }
  }

  /** From the boundary on, the two chains answer alike. */
  ghost predicate Agree(u: Chain, c: Chain, ts: int)
  {
    forall t :: t >= ts ==> At(u, t) == At(c, t)
  }

  /** A time from which the whole chain is seen. */
  function Late(c: Chain, ts: int): int
  {
    if c == [] || c[|c| - 1].timestamp < ts then ts else c[|c| - 1].timestamp
  }

  lemma AgreeTail(u: Chain, c: Chain, v: Version, ts: int)
    requires Agree(u, c, ts)
    ensures AtTail(u, v) <==> AtTail(c, v)
  {
    var t := Late(u, Late(c, ts));
    assert At(u, t) == At(c, t);
    WholeSeen(u, t);
    WholeSeen(c, t);
  }

  lemma WholeSeen(c: Chain, t: int)
    requires c != [] ==> c[|c| - 1].timestamp <= t
    ensures At(c, t) == if c == [] then None else Some(c[|c| - 1])
  {
  }

  lemma InsertAgrees(u: Chain, c: Chain, v: Version, ts: int)
    requires Sorted(u) && Sorted(c) && Agree(u, c, ts)
    ensures Agree(Insert(u, v), Insert(c, v), ts)
  {
    AgreeTail(u, c, v, ts);
    forall t | t >= ts
      ensures At(Insert(u, v), t) == At(Insert(c, v), t)
    {
      InsertRead(u, v, t);
      InsertRead(c, v, t);
      assert At(u, t) == At(c, t);
    }
  }

  lemma CompactAgrees(u: Chain, c: Chain, before: int, ts: int)
    requires Sorted(c) && Agree(u, c, ts) && before <= ts
    ensures Agree(u, Compact(c, before), ts)
  {
    forall t | t >= ts
      ensures At(u, t) == At(Compact(c, before), t)
    {
      CompactKeepsReads(c, before, t);
    }
  }

  // ---------------------------------------------------------------- whole histories

  lemma {:induction false} RunSorted(ops: seq<Op>, key: string)
    ensures Sorted(ChainOf(Run(ops), key)) && Sorted(ChainOf(RunUntrimmed(ops), key))
  {
    if ops != [] {
      var init, op := ops[..|ops| - 1], ops[|ops| - 1];
      RunSorted(init, key);
      if op.Commit? {
        InsertSorted(ChainOf(Run(init), key), op.version);
        InsertSorted(ChainOf(RunUntrimmed(init), key), op.version);
      } else {
        CompactSorted(ChainOf(Run(init), key), op.before);
      }
    }
  }

  lemma {:induction false} RunAgrees(ops: seq<Op>, key: string, ts: int)
    requires Above(ops, key, ts)
    ensures Agree(ChainOf(RunUntrimmed(ops), key), ChainOf(Run(ops), key), ts)
  {
    if ops != [] {
      var init, op := ops[..|ops| - 1], ops[|ops| - 1];
      assert forall i :: 0 <= i < |init| ==> init[i] == ops[i];
      RunAgrees(init, key, ts);
      RunSorted(init, key);
      var u, c := ChainOf(RunUntrimmed(init), key), ChainOf(Run(init), key);
      if op.key == key {
        if op.Commit? {
          InsertAgrees(u, c, op.version, ts);
        } else {
          CompactAgrees(u, c, op.before, ts);
        }
      }
    }
  }

  /** A commit of the key at or before ts that no other such commit is later than. */
  ghost predicate NewestCommit(ops: seq<Op>, key: string, ts: int, v: Version)
  {
    && Commit(key, v) in ops && v.timestamp <= ts
    && forall w :: Commit(key, w) in ops && w.timestamp <= ts ==> w.timestamp <= v.timestamp
  }

  /** What a history says a read has to answer. */
  ghost predicate Answers(ops: seq<Op>, key: string, ts: int, r: Option<seq<bv8>>)
  {
    match r
    case Some(x) => exists v :: NewestCommit(ops, key, ts, v) && !v.tombstone && v.value == x
    case None =>
      || (forall w :: Commit(key, w) in ops ==> w.timestamp > ts)
      || (exists v :: NewestCommit(ops, key, ts, v) && v.tombstone)
  }

  lemma InsertMember(c: Chain, v: Version, w: Version)
    ensures w in Insert(c, v) <==> w in c || w == v
  {
    var i := First(c, v.timestamp, false);
    assert c == c[..i] + c[i..];
  }

  /** Without compaction the chain of a key holds exactly the versions committed to it. */
  lemma {:induction false} ChainIsCommits(ops: seq<Op>, key: string, w: Version)
    ensures w in ChainOf(RunUntrimmed(ops), key) <==> Commit(key, w) in ops
  {
    if ops != [] {
      var init, op := ops[..|ops| - 1], ops[|ops| - 1];
      assert ops == init + [op];
      ChainIsCommits(init, key, w);
      if op.Commit? && op.key == key {
        InsertMember(ChainOf(RunUntrimmed(init), key), op.version, w);
      }
    }
  }

  /** After any history of commits, in or out of order, and compactions, a read answers as the history says. */
  lemma ReadAnswers(ops: seq<Op>, key: string, ts: int)
    requires Above(ops, key, ts)
    ensures Answers(ops, key, ts, Shown(At(ChainOf(Run(ops), key), ts)))
  {
    hide RunUntrimmed, Run, ChainOf;
    CompactionUnobservable(ops, key, ts);
    RunSorted(ops, key);
    var c := ChainOf(RunUntrimmed(ops), key);
    AtIsLast(c, ts);
    forall w
      ensures w in c <==> Commit(key, w) in ops
    {
      ChainIsCommits(ops, key, w);
    }
    if At(c, ts).Some? {
      var i: nat :| LastAt(c, ts, i) && c[i] == At(c, ts).value;
      assert c[i] in c;
      assert NewestCommit(ops, key, ts, c[i]);
    }
  }

  /**
   Compaction is unobservable: after any history of commits in or out of order and compactions,
   every read at or above the compaction boundaries answers as if nothing had been compacted.
   */
  lemma CompactionUnobservable(ops: seq<Op>, key: string, ts: int)
    requires Above(ops, key, ts)
    ensures Shown(At(ChainOf(Run(ops), key), ts)) == Shown(At(ChainOf(RunUntrimmed(ops), key), ts))
  {
    RunAgrees(ops, key, ts);
  }
}

module MvccObject {
  import opened Storage
  import M = MvccModel
  import P = MvccProofs

  class Store {
    var versions: M.Versions

    ghost predicate Valid()
      reads this
    {
      forall key :: key in versions ==> M.Sorted(versions[key])
    }

    constructor ()
      ensures Valid() && versions == map[]
    {
      versions := map[];
    }

    /** sort.Search over a chain. */
    static method Search(c: M.Chain, ts: int, strict: bool) returns (i: nat)
      requires M.Sorted(c)
      ensures i == M.First(c, ts, strict)
    {
      i := 0;
      var j := |c|;
      while i < j
        invariant 0 <= i <= j <= |c|
        invariant forall k :: 0 <= k < i ==> !M.Beyond(c[k], ts, strict)
        invariant forall k :: j <= k < |c| ==> M.Beyond(c[k], ts, strict)
      {
        var h := (i + j) / 2;
        if !M.Beyond(c[h], ts, strict) {
          i := h + 1;
        } else {
          j := h;
        }
      }
      P.FirstUnique(c, ts, strict, i);
    }

    /** append: in place at the end, or shifted in where it belongs. */
    method Append(key: string, v: M.Version)
      requires Valid()
      modifies this
      ensures Valid() && versions == M.Do(old(versions), M.Commit(key, v))
    {
      var chain := M.ChainOf(versions, key);
      P.InsertSorted(chain, v);
      if |chain| == 0 || v.timestamp >= chain[|chain| - 1].timestamp {
        versions := versions[key := chain + [v]];
        return;
      }
      var i := Search(chain, v.timestamp, false);
      versions := versions[key := chain[..i] + [v] + chain[i..]];
    }

    method Put(key: string, value: seq<bv8>, ts: int)
      requires Valid()
      modifies this
      ensures Valid() && versions == M.Do(old(versions), M.Commit(key, M.Version(value, ts, false)))
    {
      Append(key, M.Version(value, ts, false));
    }

    method Delete(key: string, ts: int)
      requires Valid()
      modifies this
      ensures Valid() && versions == M.Do(old(versions), M.Commit(key, M.Version([], ts, true)))
    {
      Append(key, M.Version([], ts, true));
    }

    /** The binary search finds the last version at or before ts. */
    method ReadAt(key: string, ts: int) returns (r: Option<seq<bv8>>)
      requires Valid()
      ensures r == M.Shown(M.At(M.ChainOf(versions, key), ts)) && P.Tells(M.ChainOf(versions, key), ts, r)
    {
      var chain := M.ChainOf(versions, key);
      P.ShownTells(chain, ts);
      if |chain| == 0 {
        return None;
      }
      var i := Search(chain, ts, true);
      P.FirstSplits(chain, ts, true);
      P.AtIs(chain, ts, i);
      if i == 0 {
        return None;
      }
      var v := chain[i - 1];
      if v.tombstone {
        return None;
      }
      return Some(v.value);
    }

    /** A read at the highest timestamp. */
    method Latest(key: string) returns (r: Option<seq<bv8>>)
      requires Valid()
      ensures forall ts :: (forall i :: 0 <= i < |M.ChainOf(versions, key)| ==>
        M.ChainOf(versions, key)[i].timestamp <= ts) ==>
        r == M.Shown(M.At(M.ChainOf(versions, key), ts))
    {
      var chain := M.ChainOf(versions, key);
      if |chain| == 0 {
        return None;
      }
      var v := chain[|chain| - 1];
      if v.tombstone {
        return None;
      }
      return Some(v.value);
    }

    method Compact(key: string, before: int)
      requires Valid()
      modifies this
      ensures Valid() && versions == M.Do(old(versions), M.Trim(key, before))
    {
      var chain := M.ChainOf(versions, key);
      if |chain| == 0 {
        return;
      }
      P.CompactSorted(chain, before);
      var i := Search(chain, before, false);
      var keepFrom := i;
      if i > 0 {
        keepFrom := i - 1;
      }
      if keepFrom == 0 {
        assert chain[0..] == chain;
        assert versions[key := chain] == versions;
        return;
      }
      versions := versions[key := chain[keepFrom..]];
    }
  }
}
