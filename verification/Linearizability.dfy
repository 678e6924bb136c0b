/** What it means for a history of register operations to be linearizable. */
module RegisterHistories {
  import opened Storage

  /** An int64 timestamp in nanoseconds. */
  const MAX_TIME := 0x7FFF_FFFF_FFFF_FFFF
  type Time = t: int | -MAX_TIME - 1 <= t <= MAX_TIME

  /** OpWrite, OpRead, and the kinds the model leaves without effect. */
  datatype Kind = OpWrite | OpRead | OpOther(code: int)

  datatype Op = Op(clientId: string, kind: Kind, value: string, key: string, invoke: Time, complete: Time)

  /** The register after the operation, or nothing when a read does not observe it. */
  function Apply(op: Op, current: string): Option<string>
  {
    match op.kind
    case OpWrite => Some(op.value)
    case OpRead => if op.value == current then Some(current) else None
    case OpOther(_) => Some(current)
  }

  /** One register: every operation takes effect in turn. */
  predicate Legal(order: seq<Op>, current: string)
  {
    order == [] ||
    (Apply(order[0], current).Some? && Legal(order[1..], Apply(order[0], current).value))
  }

  /** An operation that completes before another is invoked comes first. */
  ghost predicate RealTime(order: seq<Op>)
  {
    forall i, j :: 0 <= i < j < |order| ==> !(order[j].complete < order[i].invoke)
  }

  ghost predicate WellTimed(ops: seq<Op>)
  {
    forall i :: 0 <= i < |ops| ==> ops[i].invoke <= ops[i].complete
  }

  // ---------------------------------------------------------------- all keys at once

  type Registers = map<string, string>

  function Reg(regs: Registers, key: string): string
  {
    if key in regs then regs[key] else ""
  }

  /** Registers by key, each starting as "". */
  predicate LegalAll(order: seq<Op>, regs: Registers)
  {
    order == [] ||
    (var r := Apply(order[0], Reg(regs, order[0].key));
     r.Some? && LegalAll(order[1..], regs[order[0].key := r.value]))
  }

  /** One global order of all operations that respects real time and every register. */
  ghost predicate Linearizable(ops: seq<Op>)
  {
    exists order: seq<Op> :: multiset(order) == multiset(ops) && RealTime(order) && LegalAll(order, map[])
  }

  // ---------------------------------------------------------------- one key at a time

  function OfKey(ops: seq<Op>, key: string): seq<Op>
  {
    if ops == [] then []
    else if ops[0].key == key then [ops[0]] + OfKey(ops[1..], key)
    else OfKey(ops[1..], key)
  }

  /** Real time, and no operation completes before its own invocation. */
  ghost predicate Schedule(order: seq<Op>)
  {
    forall i, j :: 0 <= i <= j < |order| ==> order[i].invoke <= order[j].complete
  }

  ghost predicate Places(order: seq<Op>, left: multiset<Op>, current: string)
  {
    multiset(order) == left && Schedule(order) && Legal(order, current)
  }

  /** The operations left can be placed one after the other from this register value. */
  ghost predicate Placeable(left: multiset<Op>, current: string)
  {
    exists order :: Places(order, left, current)
  }

  ghost predicate Minimal(op: Op, left: multiset<Op>)
  {
    forall x :: x in left ==> op.invoke <= x.complete
  }

  /** op can go next, and the rest can be placed behind it. */
  ghost predicate CanLead(op: Op, left: multiset<Op>, current: string)
  {
    && op in left && Minimal(op, left)
    && Apply(op, current).Some? && Placeable(left - multiset{op}, Apply(op, current).value)
  }

  lemma LeadersPlace(op: Op, left: multiset<Op>, current: string)
    requires CanLead(op, left, current)
    ensures Placeable(left, current)
  {
    hide Legal, Schedule;
    var rest :| Places(rest, left - multiset{op}, Apply(op, current).value);
    var order := [op] + rest;
    OneMore(op, rest, left);
    SchedulePrepend(op, rest);
    LegalPrepend(op, rest, current);
    assert Places(order, left, current);
  }

  lemma OneMore(op: Op, rest: seq<Op>, left: multiset<Op>)
    requires op in left && multiset(rest) == left - multiset{op}
    ensures multiset([op] + rest) == left && forall x :: x in rest ==> x in left
  {
    assert multiset([op] + rest) == multiset{op} + multiset(rest);
    forall x | x in rest
      ensures x in left
    {
      assert x in multiset(rest);
    }
  }

  lemma LegalPrepend(op: Op, rest: seq<Op>, current: string)
    requires Apply(op, current).Some? && Legal(rest, Apply(op, current).value)
    ensures Legal([op] + rest, current)
  {
    assert ([op] + rest)[1..] == rest;
  }

  lemma PlacedHasLeader(left: multiset<Op>, current: string) returns (op: Op)
    requires Placeable(left, current) && |left| > 0
    ensures CanLead(op, left, current)
  {
    var order :| Places(order, left, current);
    assert |order| == |multiset(order)|;
    op := order[0];
    PlacesTail(order, left, current);
  }

  lemma PlacesTail(order: seq<Op>, left: multiset<Op>, current: string)
    requires Places(order, left, current) && order != []
    ensures CanLead(order[0], left, current)
  {
    var op, rest := order[0], order[1..];
    assert order == [op] + rest;
    assert multiset(order) == multiset{op} + multiset(rest);
    assert multiset(rest) == left - multiset{op};
    forall x | x in left
      ensures op.invoke <= x.complete
    {
      assert x in multiset(order);
    }
    assert Places(rest, left - multiset{op}, Apply(op, current).value);
  }

  // ---------------------------------------------------------------- locality

  lemma {:induction false} LegalByKey(order: seq<Op>, regs: Registers)
    ensures LegalAll(order, regs) <==> forall key :: Legal(OfKey(order, key), Reg(regs, key))
  {
    if order != [] {
      var op := order[0];
      var r := Apply(op, Reg(regs, op.key));
      assert OfKey(order, op.key)[1..] == OfKey(order[1..], op.key);
      if r.Some? {
        var regs' := regs[op.key := r.value];
        LegalByKey(order[1..], regs');
        forall key
          ensures Legal(OfKey(order, key), Reg(regs, key)) <==> Legal(OfKey(order[1..], key), Reg(regs', key))
        {
        }
      } else {
        assert !Legal(OfKey(order, op.key), Reg(regs, op.key));
      }
    }
  }

  lemma {:induction false} OfKeyCounts(ops: seq<Op>, key: string, x: Op)
    ensures multiset(OfKey(ops, key))[x] == if x.key == key then multiset(ops)[x] else 0
  {
    if ops != [] {
      assert ops == [ops[0]] + ops[1..];
      OfKeyCounts(ops[1..], key, x);
    }
  }

  lemma OfKeyMultiset(a: seq<Op>, b: seq<Op>, key: string)
    requires multiset(a) == multiset(b)
    ensures multiset(OfKey(a, key)) == multiset(OfKey(b, key))
  {
    forall x: Op
      ensures multiset(OfKey(a, key))[x] == multiset(OfKey(b, key))[x]
    {
      OfKeyCounts(a, key, x);
      OfKeyCounts(b, key, x);
    }
  }

  lemma {:induction false} OfKeyMember(ops: seq<Op>, key: string, x: Op)
    ensures x in OfKey(ops, key) <==> x in ops && x.key == key
  {
    OfKeyCounts(ops, key, x);
    assert x in multiset(ops) <==> x in ops;
    assert x in multiset(OfKey(ops, key)) <==> x in OfKey(ops, key);
  }

  lemma {:induction false} OfKeySchedule(order: seq<Op>, key: string)
    requires Schedule(order)
    ensures Schedule(OfKey(order, key))
  {
    if order != [] {
      assert forall i, j :: 0 <= i <= j < |order[1..]| ==>
        order[1..][i] == order[i + 1] && order[1..][j] == order[j + 1];
      OfKeySchedule(order[1..], key);
      if order[0].key == key {
        var rest := OfKey(order[1..], key);
        forall j | 0 <= j < |rest|
          ensures order[0].invoke <= rest[j].complete
        {
          OfKeyMember(order[1..], key, rest[j]);
          assert rest[j] in order[1..];
        }
      }
    }
  }

  lemma {:induction false} OfKeyAppend(a: seq<Op>, b: seq<Op>, key: string)
    ensures OfKey(a + b, key) == OfKey(a, key) + OfKey(b, key)
  {
    if a == [] {
      assert a + b == b;
    } else {
      assert (a + b)[1..] == a[1..] + b;
      OfKeyAppend(a[1..], b, key);
    }
  }

  /** Takes the head that was invoked first, again and again. */
  function Interleave(a: seq<Op>, b: seq<Op>): seq<Op>
    decreases |a| + |b|
  {
    if a == [] then b
    else if b == [] then a
    else if a[0].invoke <= b[0].invoke then [a[0]] + Interleave(a[1..], b)
    else [b[0]] + Interleave(a, b[1..])
  }

  lemma {:induction false} InterleaveMultiset(a: seq<Op>, b: seq<Op>)
    ensures multiset(Interleave(a, b)) == multiset(a) + multiset(b)
    decreases |a| + |b|
  {
    if a != [] && b != [] {
      assert a == [a[0]] + a[1..] && b == [b[0]] + b[1..];
      if a[0].invoke <= b[0].invoke {
        InterleaveMultiset(a[1..], b);
      } else {
        InterleaveMultiset(a, b[1..]);
      }
    }
  }

  lemma ScheduleTail(a: seq<Op>)
    requires Schedule(a) && a != []
    ensures Schedule(a[1..])
  {
    assert forall i, j :: 0 <= i <= j < |a[1..]| ==> a[1..][i] == a[i + 1] && a[1..][j] == a[j + 1];
  }

  lemma SchedulePrepend(op: Op, rest: seq<Op>)
    requires Schedule(rest) && op.invoke <= op.complete && forall x :: x in rest ==> op.invoke <= x.complete
    ensures Schedule([op] + rest)
  {
  }

  /** Interleaving two schedules is a schedule: the step behind Herlihy and Wing's locality theorem. */
  lemma {:induction false} InterleaveSchedule(a: seq<Op>, b: seq<Op>)
    requires Schedule(a) && Schedule(b)
    ensures Schedule(Interleave(a, b))
    decreases |a| + |b|
  {
    if a != [] && b != [] {
      var fromA := a[0].invoke <= b[0].invoke;
      var op, a', b' := if fromA then a[0] else b[0], if fromA then a[1..] else a, if fromA then b else b[1..];
      if fromA {
        ScheduleTail(a);
      } else {
        ScheduleTail(b);
      }
      InterleaveSchedule(a', b');
      InterleaveMultiset(a', b');
      forall x | x in Interleave(a', b')
        ensures op.invoke <= x.complete
      {
        assert x in multiset(Interleave(a', b'));
        assert x in a' || x in b';
        assert x in a || x in b;
        HeadFirst(a, b, op, x);
      }
      SchedulePrepend(op, Interleave(a', b'));
    }
  }

  lemma HeadFirst(a: seq<Op>, b: seq<Op>, op: Op, x: Op)
    requires Schedule(a) && Schedule(b) && a != [] && b != [] && (x in a || x in b)
    requires op.invoke <= a[0].invoke && op.invoke <= b[0].invoke
    ensures op.invoke <= x.complete
  {
  }

  lemma {:induction false} InterleaveOfKey(a: seq<Op>, b: seq<Op>, key: string)
    requires OfKey(a, key) == [] || OfKey(b, key) == []
    ensures OfKey(Interleave(a, b), key) == OfKey(a, key) + OfKey(b, key)
    decreases |a| + |b|
  {
    if a != [] && b != [] {
      if a[0].invoke <= b[0].invoke {
        InterleaveOfKey(a[1..], b, key);
        assert Interleave(a, b)[1..] == Interleave(a[1..], b);
      } else {
        InterleaveOfKey(a, b[1..], key);
        assert Interleave(a, b)[1..] == Interleave(a, b[1..]);
      }
    }
  }

  // ---------------------------------------------------------------- locality

  ghost predicate KeyPlaceable(ops: seq<Op>, key: string)
  {
    Placeable(multiset(OfKey(ops, key)), "")
  }

  /** The order covers exactly the operations on these keys and is legal for each of them. */
  ghost predicate Covers(order: seq<Op>, ops: seq<Op>, keys: set<string>)
  {
    && Schedule(order)
    && (forall key :: key in keys ==> Places(OfKey(order, key), multiset(OfKey(ops, key)), ""))
    && (forall key :: key !in keys ==> OfKey(order, key) == [])
  }

  lemma AddKey(order: seq<Op>, ops: seq<Op>, keys: set<string>, key: string) returns (wider: seq<Op>)
    requires Covers(order, ops, keys) && key !in keys && KeyPlaceable(ops, key)
    ensures Covers(wider, ops, keys + {key})
  {
    hide Legal, Schedule;
    var one :| Places(one, multiset(OfKey(ops, key)), "");
    wider := Interleave(order, one);
    InterleaveSchedule(order, one);
    forall k
      ensures OfKey(wider, k) == if k == key then one else OfKey(order, k)
    {
      OnlyKey(one, ops, key, k);
      InterleaveOfKey(order, one, k);
    }
  }

  lemma OnlyKey(one: seq<Op>, ops: seq<Op>, key: string, k: string)
    requires multiset(one) == multiset(OfKey(ops, key))
    ensures OfKey(one, k) == if k == key then one else []
  {
    forall x | x in one
      ensures x.key == key
    {
      assert x in multiset(OfKey(ops, key));
      OfKeyMember(ops, key, x);
    }
    SameKey(one, key, k);
  }

  lemma {:induction false} SameKey(one: seq<Op>, key: string, k: string)
    requires forall x :: x in one ==> x.key == key
    ensures OfKey(one, k) == if k == key then one else []
  {
    if one != [] {
      assert one == [one[0]] + one[1..];
      SameKey(one[1..], key, k);
    }
  }

  lemma {:induction false} MergeKeys(ops: seq<Op>, keys: set<string>) returns (order: seq<Op>)
    requires forall key :: key in keys ==> KeyPlaceable(ops, key)
    ensures Covers(order, ops, keys)
  {
    if keys == {} {
      order := [];
    } else {
      var key :| key in keys;
      var fewer := MergeKeys(ops, keys - {key});
      order := AddKey(fewer, ops, keys - {key}, key);
      assert keys - {key} + {key} == keys;
    }
  }

  function KeysOf(ops: seq<Op>): set<string>
  {
    set op | op in ops :: op.key
  }

  lemma CoversAll(order: seq<Op>, ops: seq<Op>)
    requires Covers(order, ops, KeysOf(ops))
    ensures multiset(order) == multiset(ops)
  {
    forall x: Op
      ensures multiset(order)[x] == multiset(ops)[x]
    {
      OfKeyCounts(order, x.key, x);
      OfKeyCounts(ops, x.key, x);
      if x.key !in KeysOf(ops) {
        assert x !in ops;
        assert multiset(ops)[x] == 0;
      }
    }
  }

  lemma ScheduleIff(order: seq<Op>)
    ensures Schedule(order) <==> RealTime(order) && WellTimed(order)
  {
  }

  lemma WellTimedTogether(a: seq<Op>, b: seq<Op>)
    requires multiset(a) == multiset(b) && WellTimed(a)
    ensures WellTimed(b)
  {
    forall i | 0 <= i < |b|
      ensures b[i].invoke <= b[i].complete
    {
      assert b[i] in multiset(a);
    }
  }

  lemma KeysSuffice(ops: seq<Op>)
    requires forall key :: KeyPlaceable(ops, key)
    ensures WellTimed(ops) && Linearizable(ops)
  {
    hide KeyPlaceable, Schedule, RealTime, WellTimed, Legal;
    var order := MergeKeys(ops, KeysOf(ops));
    CoversAll(order, ops);
    ScheduleIff(order);
    WellTimedTogether(order, ops);
    forall key
      ensures Legal(OfKey(order, key), Reg(map[], key))
    {
      EmptyLegal();
    }
    LegalByKey(order, map[]);
  }

  lemma EmptyLegal()
    ensures Legal([], "")
  {
  }

  lemma KeysNecessary(ops: seq<Op>, key: string)
    requires WellTimed(ops) && Linearizable(ops)
    ensures KeyPlaceable(ops, key)
  {
    var order :| multiset(order) == multiset(ops) && RealTime(order) && LegalAll(order, map[]);
    WellTimedTogether(ops, order);
    ScheduleIff(order);
    OfKeySchedule(order, key);
    LegalByKey(order, map[]);
    OfKeyMultiset(order, ops, key);
    assert Legal(OfKey(order, key), Reg(map[], key));
    assert Places(OfKey(order, key), multiset(OfKey(ops, key)), "");
  }

  /** Without Invoke <= Complete the two sides part: one operation alone is always linearizable. */
  lemma IllTimedAlone(op: Op)
    requires op.kind.OpWrite? && op.complete < op.invoke
    ensures Linearizable([op]) && !WellTimed([op]) && !KeyPlaceable([op], op.key)
  {
    var order := [op];
    assert order[1..] == [];
    assert multiset(order) == multiset([op]) && RealTime(order) && LegalAll(order, map[]);
    assert !([op][0].invoke <= [op][0].complete);
    assert OfKey([op], op.key) == [op];
    if KeyPlaceable([op], op.key) {
      PlacedWellTimed(multiset([op]), op);
    }
  }

  lemma PlacedWellTimed(left: multiset<Op>, op: Op)
    requires Placeable(left, "") && op in left
    ensures op.invoke <= op.complete
  {
  }

  /** Herlihy and Wing's locality theorem, for registers. */
  lemma Locality(ops: seq<Op>)
    ensures (forall key :: KeyPlaceable(ops, key)) <==> WellTimed(ops) && Linearizable(ops)
  {
    hide KeyPlaceable, WellTimed, Linearizable;
    if forall key :: KeyPlaceable(ops, key) {
      KeysSuffice(ops);
    }
    if WellTimed(ops) && Linearizable(ops) {
      forall key
        ensures KeyPlaceable(ops, key)
      {
        KeysNecessary(ops, key);
      }
    }
  }
}

/** The search over one key, and the checker that runs it on every key. */
module LinearizabilityChecker {
  import opened Chains
  import opened Storage
  import opened StringLists
  import opened RegisterHistories
  import Sorting
  import StringOrder

  // ---------------------------------------------------------------- operations still to be placed

  /** The operations whose flag is set. */
  ghost function Left(ops: seq<Op>, flags: seq<bool>): multiset<Op>
    requires |ops| == |flags|
  {
    if ops == [] then multiset{}
    else Left(ops[1..], flags[1..]) + (if flags[0] then multiset{ops[0]} else multiset{})
  }

  lemma {:induction false} LeftAll(ops: seq<Op>, flags: seq<bool>)
    requires |ops| == |flags| && forall i :: 0 <= i < |flags| ==> flags[i]
    ensures Left(ops, flags) == multiset(ops)
  {
    if ops != [] {
      LeftAll(ops[1..], flags[1..]);
      assert ops == [ops[0]] + ops[1..];
    }
  }

  lemma {:induction false} LeftHas(ops: seq<Op>, flags: seq<bool>, i: nat)
    requires |ops| == |flags| && i < |flags| && flags[i]
    ensures ops[i] in Left(ops, flags)
  {
    if i > 0 {
      LeftHas(ops[1..], flags[1..], i - 1);
    }
  }

  lemma {:induction false} LeftAt(ops: seq<Op>, flags: seq<bool>, x: Op) returns (i: nat)
    requires |ops| == |flags| && x in Left(ops, flags)
    ensures i < |flags| && flags[i] && ops[i] == x
  {
    if flags[0] && ops[0] == x {
      i := 0;
    } else {
      var j := LeftAt(ops[1..], flags[1..], x);
      i := j + 1;
    }
  }

  lemma {:induction false} LeftWithout(ops: seq<Op>, flags: seq<bool>, i: nat)
    requires |ops| == |flags| && i < |flags| && flags[i]
    ensures Left(ops, flags[i := false]) == Left(ops, flags) - multiset{ops[i]}
  {
    if i == 0 {
      assert flags[i := false][1..] == flags[1..];
    } else {
      assert flags[i := false][1..] == flags[1..][i - 1 := false];
      LeftWithout(ops[1..], flags[1..], i - 1);
      LeftHas(ops[1..], flags[1..], i - 1);
    }
  }

  // ---------------------------------------------------------------- the backtracking search

  ghost predicate Bounds(ops: seq<Op>, flags: seq<bool>, min: Time)
    requires |ops| == |flags|
  {
    && (forall k :: 0 <= k < |ops| && flags[k] ==> min <= ops[k].complete)
    && (min == MAX_TIME || exists k :: 0 <= k < |ops| && flags[k] && ops[k].complete == min)
  }

  method EarliestCompletion(ops: seq<Op>, remaining: array<bool>) returns (minComplete: Time)
    requires remaining.Length == |ops|
    ensures Bounds(ops, remaining[..], minComplete)
  {
    minComplete := MAX_TIME;
    for i := 0 to |ops|
      invariant Bounds(ops[..i], remaining[..i], minComplete)
    {
      if remaining[i] && ops[i].complete < minComplete {
        minComplete := ops[i].complete;
      }
      assert ops[..i + 1] == ops[..i] + [ops[i]] && remaining[..i + 1] == remaining[..i] + [remaining[i]];
    }
    assert ops[..|ops|] == ops && remaining[..|ops|] == remaining[..];
  }

  /** Comparing with the earliest completion is comparing with every completion. */
  lemma MinimalByBound(ops: seq<Op>, flags: seq<bool>, min: Time, op: Op)
    requires |ops| == |flags| && Bounds(ops, flags, min)
    ensures op.invoke <= min <==> Minimal(op, Left(ops, flags))
  {
    var left := Left(ops, flags);
    if op.invoke <= min {
      forall x | x in left
        ensures op.invoke <= x.complete
      {
        var k := LeftAt(ops, flags, x);
      }
    } else {
      var k :| 0 <= k < |ops| && flags[k] && ops[k].complete == min;
      LeftHas(ops, flags, k);
    }
  }

  ghost predicate NoneLeads(ops: seq<Op>, flags: seq<bool>, upto: nat, left: multiset<Op>, current: string)
    requires |ops| == |flags|
  {
    forall k :: 0 <= k < upto && k < |ops| && flags[k] ==> !CanLead(ops[k], left, current)
  }

  /** Blame falls on a read of this history that did not observe the register. */
  predicate Culprit(ops: seq<Op>, blame: Option<Op>)
  {
    blame.Some? ==> blame.value in ops && blame.value.kind.OpRead?
  }

  method Search(ops: seq<Op>, remaining: array<bool>, current: string, count: nat, blamed: Option<Op>)
    returns (ok: bool, blame: Option<Op>)
    requires remaining.Length == |ops| && |Left(ops, remaining[..])| + count == |ops|
    requires Culprit(ops, blamed)
    modifies remaining
    ensures remaining[..] == old(remaining[..])
    ensures ok <==> Placeable(Left(ops, remaining[..]), current)
    ensures Culprit(ops, blame)
    decreases |ops| - count
  {
    hide Minimal, CanLead, Placeable, Left, NoneLeads, Bounds;
    blame := blamed;
    ghost var flags := remaining[..];
    ghost var left := Left(ops, flags);
    if count == |ops| {
      NothingLeft(left, current);
      return true, blame;
    }
    var minComplete := EarliestCompletion(ops, remaining);
    NoneYet(ops, flags, left, current);
    for i := 0 to |ops|
      invariant remaining[..] == flags
      invariant NoneLeads(ops, flags, i, left, current)
      invariant Culprit(ops, blame)
    {
      assert remaining[i] == flags[i];
      NoneNext(ops, flags, i, left, current);
      if !remaining[i] {
        continue;
      }
      MinimalByBound(ops, flags, minComplete, ops[i]);
      LeftHas(ops, flags, i);
      if ops[i].invoke > minComplete {
        NotMinimal(ops[i], left, current);
        continue;
      }
      var next := Apply(ops[i], current);
      if next.None? {
        NotObserved(ops[i], left, current);
        blame := Some(ops[i]);
        continue;
      }
      remaining[i] := false;
      assert remaining[..] == flags[i := false];
      LeftWithout(ops, flags, i);
      ok, blame := Search(ops, remaining, next.value, count + 1, blame);
      remaining[i] := true;
      assert remaining[..] == flags;
      LeadsIff(ops[i], left, current);
      if ok {
        return true, blame;
      }
    }
    SomeoneLeads(ops, flags, current);
    ok := false;
  }

  lemma NoneYet(ops: seq<Op>, flags: seq<bool>, left: multiset<Op>, current: string)
    requires |ops| == |flags|
    ensures NoneLeads(ops, flags, 0, left, current)
  {
  }

  lemma NoneNext(ops: seq<Op>, flags: seq<bool>, i: nat, left: multiset<Op>, current: string)
    requires |ops| == |flags| && i < |ops| && NoneLeads(ops, flags, i, left, current)
    ensures !flags[i] || !CanLead(ops[i], left, current) ==> NoneLeads(ops, flags, i + 1, left, current)
  {
  }

  lemma NothingLeft(left: multiset<Op>, current: string)
    requires |left| == 0
    ensures Placeable(left, current)
  {
    assert Places([], left, current);
  }

  lemma NotMinimal(op: Op, left: multiset<Op>, current: string)
    requires !Minimal(op, left)
    ensures !CanLead(op, left, current)
  {
  }

  lemma NotObserved(op: Op, left: multiset<Op>, current: string)
    requires Apply(op, current).None?
    ensures !CanLead(op, left, current)
  {
  }

  lemma LeadsIff(op: Op, left: multiset<Op>, current: string)
    requires op in left && Minimal(op, left) && Apply(op, current).Some?
    ensures CanLead(op, left, current) <==> Placeable(left - multiset{op}, Apply(op, current).value)
    ensures CanLead(op, left, current) ==> Placeable(left, current)
  {
    if CanLead(op, left, current) {
      LeadersPlace(op, left, current);
    }
  }

  lemma SomeoneLeads(ops: seq<Op>, flags: seq<bool>, current: string)
    requires |ops| == |flags| && |Left(ops, flags)| > 0
    requires NoneLeads(ops, flags, |ops|, Left(ops, flags), current)
    ensures !Placeable(Left(ops, flags), current)
  {
    var left := Left(ops, flags);
    if Placeable(left, current) {
      var op := PlacedHasLeader(left, current);
      var k := LeftAt(ops, flags, op);
    }
  }

  // ---------------------------------------------------------------- one key

  predicate Earlier(a: Op, b: Op)
  {
    if a.invoke != b.invoke then a.invoke < b.invoke else a.complete < b.complete
  }

  method LinearizeKey(sub: seq<Op>) returns (ok: bool, bad: Option<Op>)
    ensures ok <==> Placeable(multiset(sub), "")
    ensures ok ==> bad.None?
    ensures !ok ==> bad.Some? && bad.value in sub
  {
    hide Placeable;
    var ops := Sorting.Sort(sub, Earlier);
    var remaining := new bool[|ops|](_ => true);
    LeftAll(ops, remaining[..]);
    assert |Left(ops, remaining[..])| == |ops|;
    var blame;
    ok, blame := Search(ops, remaining, "", 0, None);
    if ok {
      return true, None;
    }
    assert |multiset(sub)| > 0 by {
      if |multiset(sub)| == 0 {
        NothingLeft(multiset(sub), "");
      }
    }
    if blame.None? {
      assert remaining[0];
      blame := Some(ops[0]);
    }
    assert blame.value in multiset(ops);
    bad := blame;
  }

  // ---------------------------------------------------------------- every key

  /** byKey and keys hold exactly the sub-histories of these operations. */
  ghost predicate Partitioned(byKey: map<string, seq<Op>>, keys: seq<string>, ops: seq<Op>)
  {
    && Different(keys) && (forall key :: key in keys <==> key in byKey)
    && (forall key :: key in byKey ==> byKey[key] == OfKey(ops, key))
    && (forall key :: key !in byKey ==> OfKey(ops, key) == [])
  }

  method Partition(ops: seq<Op>) returns (byKey: map<string, seq<Op>>, keys: seq<string>)
    ensures Partitioned(byKey, keys, ops)
  {
    byKey, keys := map[], [];
    for i := 0 to |ops|
      invariant Partitioned(byKey, keys, ops[..i])
    {
      var op := ops[i];
      forall key
        ensures OfKey(ops[..i + 1], key) == OfKey(ops[..i], key) + if op.key == key then [op] else []
      {
        assert ops[..i + 1] == ops[..i] + [op];
        OfKeyAppend(ops[..i], [op], key);
      }
      if op.key !in byKey {
        keys := keys + [op.key];
        byKey := byKey[op.key := []];
      }
      byKey := byKey[op.key := byKey[op.key] + [op]];
    }
    assert ops[..|ops|] == ops;
  }

  lemma KeyAlone(ops: seq<Op>, key: string)
    ensures KeyPlaceable(ops, key) <==> Placeable(multiset(OfKey(ops, key)), "")
  {
  }

  lemma EmptyKey(ops: seq<Op>, key: string)
    requires OfKey(ops, key) == []
    ensures KeyPlaceable(ops, key)
  {
    NothingLeft(multiset([]), "");
  }

  lemma AllSorted(byKey: map<string, seq<Op>>, keys: seq<string>, sorted: seq<string>, ops: seq<Op>, j: nat)
    requires Partitioned(byKey, keys, ops) && Ascending(sorted) && (forall k :: k in sorted <==> k in keys)
      && j <= |sorted|
    requires forall m :: 0 <= m < j ==> KeyPlaceable(ops, sorted[m])
    ensures forall key :: (j == |sorted| || StringOrder.Less(key, sorted[j])) ==> KeyPlaceable(ops, key)
  {
    hide KeyPlaceable;
    forall key | j == |sorted| || StringOrder.Less(key, sorted[j])
      ensures KeyPlaceable(ops, key)
    {
      if key in keys {
        var m :| 0 <= m < |sorted| && sorted[m] == key;
        assert j < m ==> StringOrder.Less(sorted[j], key);
        if m >= j {
          StringOrder.Trichotomy(key, sorted[j]);
        }
      } else {
        EmptyKey(ops, key);
      }
    }
  }

  /** The checker decides linearizability: no false alarm and no missed anomaly, on every history. */
  method CheckRegister(ops: seq<Op>) returns (ok: bool, bad: Option<Op>)
    ensures ok <==> WellTimed(ops) && Linearizable(ops)
    ensures ok ==> bad.None?
    ensures !ok ==> bad.Some? && bad.value in ops && !KeyPlaceable(ops, bad.value.key)
    ensures !ok ==> forall key :: StringOrder.Less(key, bad.value.key) ==> KeyPlaceable(ops, key)
  {
    hide KeyPlaceable, Placeable, WellTimed, Linearizable, Ascending, StringOrder.Less, OfKey;
    var byKey, keys := Partition(ops);
    var sorted := SortStrings(keys);
    for j := 0 to |sorted|
      invariant forall m :: 0 <= m < j ==> KeyPlaceable(ops, sorted[m])
    {
      var key := sorted[j];
      assert key in keys;
      var one;
      ok, one := LinearizeKey(byKey[key]);
      KeyAlone(ops, key);
      if !ok {
        OfKeyMember(ops, key, one.value);
        AllSorted(byKey, keys, sorted, ops, j);
        Locality(ops);
        return false, one;
      }
    }
    AllSorted(byKey, keys, sorted, ops, |sorted|);
    Locality(ops);
    return true, None;
  }
}
