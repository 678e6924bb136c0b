/** Consistent hashing with virtual nodes (internal/hashring/ring.go), over abstract hash functions. */
module RingModel {
  import opened Storage

  datatype Vnode = Vnode(token: nat, node: NodeId)

  type Tokens = seq<Vnode>

  ghost predicate Sorted(ts: Tokens)
  {
    forall i, j :: 0 <= i < j < |ts| ==> ts[i].token <= ts[j].token
  }

  /** No two physical nodes share a position. */
  ghost predicate OneOwner(ts: Tokens)
  {
    forall v, w :: v in ts && w in ts && v.token == w.token ==> v.node == w.node
  }

  /** The first token at or after h, clockwise. */
  function Start(ts: Tokens, h: nat): (i: nat)
    ensures i <= |ts|
  {
    if ts == [] || ts[0].token >= h then 0 else 1 + Start(ts[1..], h)
  }

  /** The tokens in the order the walk meets them. */
  function Clockwise(ts: Tokens, h: nat): Tokens
  {
    ts[Start(ts, h)..] + ts[..Start(ts, h)]
  }

  /** The nodes in the order they are first met. */
  function Met(ts: Tokens): seq<NodeId>
  {
    if ts == [] then []
    else
      var before := Met(ts[..|ts| - 1]);
      if ts[|ts| - 1].node in before then before else before + [ts[|ts| - 1].node]
  }

  /** Every node, in walk order from h. */
  function FullWalk(ts: Tokens, h: nat): seq<NodeId>
  {
    Met(Clockwise(ts, h))
  }

  function Min(a: int, b: int): int
  {
    if a < b then a else b
  }

  function PreferenceList(ts: Tokens, h: nat, n: int): seq<NodeId>
  {
    if n <= 0 then [] else FullWalk(ts, h)[..Min(n, |FullWalk(ts, h)|)]
  }

  function Without(ts: Tokens, x: NodeId): Tokens
  {
    if ts == [] then []
    else Without(ts[..|ts| - 1], x) + if ts[|ts| - 1].node == x then [] else [ts[|ts| - 1]]
  }

  function Dropped(s: seq<NodeId>, x: NodeId): seq<NodeId>
  {
    if s == [] then []
    else Dropped(s[..|s| - 1], x) + if s[|s| - 1] == x then [] else [s[|s| - 1]]
  }

  /** The virtual nodes of a physical node. */
  function Vnodes(tokenOf: (NodeId, nat) -> nat, x: NodeId, count: nat): Tokens
  {
    if count == 0 then [] else Vnodes(tokenOf, x, count - 1) + [Vnode(tokenOf(x, count - 1), x)]
  }

  /** A sorted rearrangement, whichever sort made it. */
  ghost predicate SortedFrom(ts: Tokens, all: Tokens)
  {
    Sorted(ts) && multiset(ts) == multiset(all)
  }
}

module RingProofs {
  import opened Storage
  import opened RingModel

  // ---------------------------------------------------------------- the walk

  lemma {:induction false} StartSplits(ts: Tokens, h: nat)
    requires Sorted(ts)
    ensures forall j :: 0 <= j < Start(ts, h) ==> ts[j].token < h
    ensures forall j :: Start(ts, h) <= j < |ts| ==> ts[j].token >= h
  {
    if ts != [] && ts[0].token < h {
      StartSplits(ts[1..], h);
      assert forall j :: 1 <= j < |ts| ==> ts[j] == ts[1..][j - 1];
    }
  }

  lemma StartUnique(ts: Tokens, h: nat, i: nat)
    requires Sorted(ts) && i <= |ts|
    requires (forall j :: 0 <= j < i ==> ts[j].token < h) && (forall j :: i <= j < |ts| ==> ts[j].token >= h)
    ensures i == Start(ts, h)
  {
    StartSplits(ts, h);
    var f := Start(ts, h);
    assert i < |ts| ==> ts[i].token >= h;
    assert f < |ts| ==> ts[f].token >= h;
  }

  ghost predicate NoRepeats(s: seq<NodeId>)
  {
    forall i, j :: 0 <= i < j < |s| ==> s[i] != s[j]
  }

  /** Each node that owns a token is met exactly once. */
  lemma {:induction false} MetOnce(ts: Tokens)
    ensures NoRepeats(Met(ts))
    ensures forall x :: x in Met(ts) <==> exists v :: v in ts && v.node == x
  {
    if ts != [] {
      var init, v := ts[..|ts| - 1], ts[|ts| - 1];
      MetOnce(init);
      assert ts == init + [v];
    }
  }

  lemma {:induction false} MetPrefix(ts: Tokens, i: nat)
    requires i <= |ts|
    ensures Met(ts[..i]) <= Met(ts)
    decreases |ts| - i
  {
    if i == |ts| {
      assert ts[..i] == ts;
    } else {
      assert ts[..i + 1][..i] == ts[..i];
      MetPrefix(ts, i + 1);
    }
  }

  function Owners(ts: Tokens): set<NodeId>
  {
    set v | v in ts :: v.node
  }

  lemma {:induction false} SizeOf(s: seq<NodeId>)
    requires NoRepeats(s)
    ensures |set x | x in s| == |s|
  {
    if s != [] {
      var init := s[..|s| - 1];
      SizeOf(init);
      assert (set x | x in s) == (set x | x in init) + {s[|s| - 1]};
    }
  }

  /** The full walk lists every owner once. */
  lemma WalkCovers(ts: Tokens, h: nat)
    ensures NoRepeats(FullWalk(ts, h)) && (set x | x in FullWalk(ts, h)) == Owners(ts)
    ensures |FullWalk(ts, h)| == |Owners(ts)|
  {
    var c := Clockwise(ts, h);
    MetOnce(c);
    SizeOf(Met(c));
    assert ts == ts[..Start(ts, h)] + ts[Start(ts, h)..];
    assert forall v :: v in c <==> v in ts;
    assert forall x :: x in Met(c) <==> x in Owners(ts);
  }

  /** A preference list has min(n, nodes) different nodes. */
  lemma ListLength(ts: Tokens, h: nat, n: nat)
    ensures |PreferenceList(ts, h, n)| == Min(n, |Owners(ts)|)
    ensures NoRepeats(PreferenceList(ts, h, n)) && forall x :: x in PreferenceList(ts, h, n) ==> x in Owners(ts)
    ensures n >= |Owners(ts)| ==> (set x | x in PreferenceList(ts, h, n)) == Owners(ts)
  {
    WalkCovers(ts, h);
    var w := FullWalk(ts, h);
    assert forall x :: x in w <==> x in (set y | y in w);
    if n >= |w| {
      assert w[..|w|] == w;
    }
  }

  /** A shorter list is a prefix of a longer one. */
  lemma ListPrefix(ts: Tokens, h: nat, n: int, m: int)
    requires n <= m
    ensures PreferenceList(ts, h, n) <= PreferenceList(ts, h, m)
  {
  }

  // ---------------------------------------------------------------- removing a node

  lemma {:induction false} WithoutAppend(a: Tokens, b: Tokens, x: NodeId)
    ensures Without(a + b, x) == Without(a, x) + Without(b, x)
  {
    if b == [] {
      assert a + b == a;
    } else {
      assert (a + b)[..|a + b| - 1] == a + b[..|b| - 1];
      WithoutAppend(a, b[..|b| - 1], x);
    }
  }

  lemma {:induction false} WithoutMember(ts: Tokens, x: NodeId, v: Vnode)
    ensures v in Without(ts, x) <==> v in ts && v.node != x
    ensures multiset(Without(ts, x))[v] == if v.node == x then 0 else multiset(ts)[v]
  {
    if ts != [] {
      assert ts == ts[..|ts| - 1] + [ts[|ts| - 1]];
      WithoutMember(ts[..|ts| - 1], x, v);
    }
  }

  lemma {:induction false} WithoutSorted(ts: Tokens, x: NodeId)
    requires Sorted(ts)
    ensures Sorted(Without(ts, x))
  {
    if ts != [] {
      var init, last := ts[..|ts| - 1], ts[|ts| - 1];
      WithoutSorted(init, x);
      var w := Without(init, x);
      forall i | 0 <= i < |w|
        ensures w[i].token <= last.token
      {
        WithoutMember(init, x, w[i]);
        assert w[i] in init;
      }
    }
  }

  lemma WithoutTokens(ts: Tokens, x: NodeId, j: nat)
    requires j < |Without(ts, x)|
    ensures Without(ts, x)[j] in ts
  {
    WithoutMember(ts, x, Without(ts, x)[j]);
  }

  lemma StartOfWithout(low: Tokens, high: Tokens, x: NodeId, h: nat)
    requires Sorted(low + high) && (forall v :: v in low ==> v.token < h) && (forall v :: v in high ==> v.token >= h)
    ensures Start(Without(low + high, x), h) == |Without(low, x)|
  {
    hide Start, Without;
    WithoutAppend(low, high, x);
    WithoutSorted(low + high, x);
    var w, a, b := Without(low + high, x), Without(low, x), Without(high, x);
    forall j | 0 <= j < |a|
      ensures w[j].token < h
    {
      WithoutTokens(low, x, j);
    }
    forall j | |a| <= j < |w|
      ensures w[j].token >= h
    {
      WithoutTokens(high, x, j - |a|);
    }
    StartUnique(w, h, |a|);
  }

  /** Removing a node's tokens commutes with where the walk starts. */
  lemma WithoutClockwise(ts: Tokens, x: NodeId, h: nat)
    requires Sorted(ts)
    ensures Clockwise(Without(ts, x), h) == Without(Clockwise(ts, h), x)
  {
    StartSplits(ts, h);
    hide Start, Without, Sorted;
    var s := Start(ts, h);
    var low, high := ts[..s], ts[s..];
    assert ts == low + high;
    StartOfWithout(low, high, x, h);
    WithoutAppend(low, high, x);
    WithoutAppend(high, low, x);
    var a, b := Without(low, x), Without(high, x);
    assert (a + b)[..|a|] == a && (a + b)[|a|..] == b;
  }

  lemma {:induction false} DroppedMember(s: seq<NodeId>, x: NodeId, y: NodeId)
    ensures y in Dropped(s, x) <==> y in s && y != x
  {
    if s != [] {
      assert s == s[..|s| - 1] + [s[|s| - 1]];
      DroppedMember(s[..|s| - 1], x, y);
    }
  }

  lemma MetMore(ts: Tokens, v: Vnode)
    ensures Met(ts + [v]) == if v.node in Met(ts) then Met(ts) else Met(ts) + [v.node]
  {
    assert (ts + [v])[..|ts|] == ts;
  }

  lemma WithoutMore(ts: Tokens, v: Vnode, x: NodeId)
    ensures Without(ts + [v], x) == if v.node == x then Without(ts, x) else Without(ts, x) + [v]
  {
    assert (ts + [v])[..|ts|] == ts;
  }

  lemma DroppedMore(s: seq<NodeId>, y: NodeId, x: NodeId)
    ensures Dropped(s + [y], x) == if y == x then Dropped(s, x) else Dropped(s, x) + [y]
  {
    assert (s + [y])[..|s|] == s;
  }

  lemma {:induction false} MetWithout(ts: Tokens, x: NodeId)
    ensures Met(Without(ts, x)) == Dropped(Met(ts), x)
  {
    if ts != [] {
      var init, v := ts[..|ts| - 1], ts[|ts| - 1];
      MetWithout(init, x);
      hide Met, Without, Dropped;
      assert ts == init + [v];
      DroppedMember(Met(init), x, v.node);
      MetMore(init, v);
      WithoutMore(init, v, x);
      MetMore(Without(init, x), v);
      DroppedMore(Met(init), v.node, x);
    }
  }

  /** Removing a node deletes it from every walk and changes nothing else. */
  lemma RemoveDeletesNode(ts: Tokens, x: NodeId, h: nat)
    requires Sorted(ts)
    ensures FullWalk(Without(ts, x), h) == Dropped(FullWalk(ts, h), x)
  {
    WithoutClockwise(ts, x, h);
    MetWithout(Clockwise(ts, h), x);
  }

  // ---------------------------------------------------------------- adding a node

  lemma {:induction false} VnodesOwned(tokenOf: (NodeId, nat) -> nat, x: NodeId, count: nat, v: Vnode)
    requires v in Vnodes(tokenOf, x, count)
    ensures v.node == x
  {
    if count > 0 && v in Vnodes(tokenOf, x, count - 1) {
      VnodesOwned(tokenOf, x, count - 1, v);
    }
  }

  /** A node's tokens stand where the hash puts its virtual nodes. */
  lemma {:induction false} VnodesAre(tokenOf: (NodeId, nat) -> nat, x: NodeId, count: nat)
    ensures |Vnodes(tokenOf, x, count)| == count
    ensures forall i :: 0 <= i < count ==> Vnodes(tokenOf, x, count)[i] == Vnode(tokenOf(x, i), x)
  {
    if count > 0 {
      VnodesAre(tokenOf, x, count - 1);
    }
  }

  // ---------------------------------------------------------------- who is nearest

  /** Going clockwise from h, v is met no later than w. */
  predicate Nearer(v: Vnode, w: Vnode, h: nat)
  {
    if v.token >= h then w.token < h || v.token <= w.token else w.token < h && v.token <= w.token
  }

  lemma ClockwiseNearer(ts: Tokens, h: nat, i: nat, j: nat)
    requires Sorted(ts) && i < j < |ts|
    ensures |Clockwise(ts, h)| == |ts| && Nearer(Clockwise(ts, h)[i], Clockwise(ts, h)[j], h)
  {
    hide Start;
    StartSplits(ts, h);
    var s, n := Start(ts, h), |ts|;
    var c := Clockwise(ts, h);
    assert c[i] == ts[if i < n - s then s + i else i - (n - s)];
    assert c[j] == ts[if j < n - s then s + j else j - (n - s)];
  }

  /** A node is met where its first token is, before every token of the nodes met later. */
  lemma {:induction false} MetFirst(c: Tokens, i: nat, j: nat) returns (a: nat)
    requires i < j < |Met(c)|
    ensures a < |c| && c[a].node == Met(c)[i]
    ensures forall b :: 0 <= b < |c| && c[b].node == Met(c)[j] ==> a < b
  {
    var init, v := c[..|c| - 1], c[|c| - 1];
    assert c == init + [v];
    MetMore(init, v);
    MetOnce(c);
    MetOnce(init);
    if j < |Met(init)| {
      a := MetFirst(init, i, j);
    } else {
      assert Met(c)[j] == v.node && v.node !in Met(init);
      assert Met(init)[i] in Met(init);
      var w :| w in init && w.node == Met(init)[i];
      a :| 0 <= a < |init| && init[a] == w;
      assert forall b :: 0 <= b < |init| ==> init[b] in init && init[b].node in Met(init);
    }
  }

  /** The walk lists the nodes by distance: each has a token no farther clockwise than any of a later node's. */
  lemma WalkByDistance(ts: Tokens, h: nat, i: nat, j: nat) returns (v: Vnode)
    requires Sorted(ts) && i < j < |FullWalk(ts, h)|
    ensures v in ts && v.node == FullWalk(ts, h)[i]
    ensures forall w :: w in ts && w.node == FullWalk(ts, h)[j] ==> Nearer(v, w, h)
  {
    hide Met, Sorted;
    var c := Clockwise(ts, h);
    var a := MetFirst(c, i, j);
    v := c[a];
    ClockwiseMembers(ts, h);
    forall w | w in ts && w.node == FullWalk(ts, h)[j]
      ensures Nearer(v, w, h)
    {
      assert w in c;
      var b :| 0 <= b < |c| && c[b] == w;
      ClockwiseNearer(ts, h, a, b);
    }
  }

  lemma ClockwiseMembers(ts: Tokens, h: nat)
    ensures forall v :: v in Clockwise(ts, h) <==> v in ts
    ensures |Clockwise(ts, h)| == |ts|
  {
    assert ts == ts[..Start(ts, h)] + ts[Start(ts, h)..];
  }

  lemma SameFirst(a: Tokens, b: Tokens)
    requires Sorted(a) && OneOwner(a) && Sorted(b) && a != [] && b != [] && a[0] in b && b[0] in a
    ensures a[0] == b[0]
  {
  }

  lemma TailOf(a: Tokens)
    requires a != []
    ensures multiset(a[1..]) == multiset(a) - multiset{a[0]}
    ensures Sorted(a) ==> Sorted(a[1..])
    ensures OneOwner(a) ==> OneOwner(a[1..])
  {
    assert a == [a[0]] + a[1..];
  }

  /** Sorted tokens with the same members are the same list, if no two nodes share a position. */
  lemma {:induction false} SameTokens(a: Tokens, b: Tokens)
    requires Sorted(a) && OneOwner(a) && Sorted(b) && multiset(a) == multiset(b)
    ensures a == b
  {
    hide Sorted, OneOwner;
    assert |a| == |multiset(a)| == |multiset(b)| == |b|;
    if a != [] {
      assert a[0] in multiset(b) && b[0] in multiset(a);
      SameFirst(a, b);
      TailOf(a);
      TailOf(b);
      SameTokens(a[1..], b[1..]);
      assert a == [a[0]] + a[1..] && b == [b[0]] + b[1..];
    }
  }

  /** A ring x is not on, and tokens of x only. */
  ghost predicate Newcomer(ts: Tokens, new_: Tokens, x: NodeId)
  {
    Sorted(ts) && (forall v :: v in ts ==> v.node != x) && (forall v :: v in new_ ==> v.node == x)
  }

  /** Whichever sorted order Add produces, taking the node's tokens out again gives the ring back. */
  lemma AddThenRemove(ts: Tokens, new_: Tokens, ts': Tokens, x: NodeId)
    requires Newcomer(ts, new_, x) && OneOwner(ts) && SortedFrom(ts', ts + new_)
    ensures Without(ts', x) == ts
  {
    WithoutSorted(ts', x);
    forall v: Vnode
      ensures multiset(Without(ts', x))[v] == multiset(ts)[v]
    {
      WithoutMember(ts', x, v);
      if v.node == x {
        assert v !in ts;
        assert v !in multiset(ts);
      } else {
        assert v !in new_;
        assert v !in multiset(new_);
      }
    }
    assert multiset(Without(ts', x)) == multiset(ts);
    SameTokens(ts, Without(ts', x));
  }

  /** Where no two nodes share a position, adding a node only inserts it into every walk. */
  lemma AddInsertsNode(ts: Tokens, new_: Tokens, ts': Tokens, x: NodeId, h: nat)
    requires Newcomer(ts, new_, x) && OneOwner(ts) && SortedFrom(ts', ts + new_)
    ensures Dropped(FullWalk(ts', h), x) == FullWalk(ts, h)
  {
    AddThenRemove(ts, new_, ts', x);
    RemoveDeletesNode(ts', x, h);
  }

  // ---------------------------------------------------------------- two nodes on one position

  lemma BetweenSorted(low: Tokens, v: Vnode, high: Tokens)
    requires Sorted(low + high)
    requires (forall u :: u in low ==> u.token <= v.token) && (forall u :: u in high ==> u.token >= v.token)
    ensures Sorted(low + [v] + high)
  {
    var all, ts := low + [v] + high, low + high;
    forall i, j | 0 <= i < j < |all|
      ensures all[i].token <= all[j].token
    {
      if i != |low| && j != |low| {
        assert all[i] == ts[if i < |low| then i else i - 1] && all[j] == ts[if j < |low| then j else j - 1];
      }
    }
  }

  /** The token put before the first one at or after its position. */
  lemma InsertToken(ts: Tokens, v: Vnode) returns (ts': Tokens)
    requires Sorted(ts)
    ensures SortedFrom(ts', ts + [v]) && Without(ts', v.node) == Without(ts, v.node)
  {
    StartSplits(ts, v.token);
    hide Sorted, Start, Without;
    var k := Start(ts, v.token);
    var low, high := ts[..k], ts[k..];
    assert ts == low + high;
    ts' := low + [v] + high;
    BetweenSorted(low, v, high);
    WithoutAppend(low, high, v.node);
    WithoutAppend(low + [v], high, v.node);
    WithoutMore(low, v, v.node);
  }

  /** Tokens of x can be sorted in without moving the others. */
  lemma {:induction false} InsertTokens(ts: Tokens, new_: Tokens, x: NodeId) returns (ts': Tokens)
    requires Sorted(ts) && forall v :: v in new_ ==> v.node == x
    ensures SortedFrom(ts', ts + new_) && Without(ts', x) == Without(ts, x)
  {
    hide Sorted, Without;
    if new_ == [] {
      ts' := ts;
      assert ts + new_ == ts;
    } else {
      var init, v := new_[..|new_| - 1], new_[|new_| - 1];
      var mid := InsertTokens(ts, init, x);
      ts' := InsertToken(mid, v);
      assert ts + new_ == (ts + init) + [v];
    }
  }

  lemma {:induction false} WithoutNone(ts: Tokens, x: NodeId)
    requires forall v :: v in ts ==> v.node != x
    ensures Without(ts, x) == ts
  {
    if ts != [] {
      WithoutNone(ts[..|ts| - 1], x);
      assert ts == ts[..|ts| - 1] + [ts[|ts| - 1]];
    }
  }

  /** A walk begins at the first token it meets. */
  lemma WalkHead(ts: Tokens, h: nat)
    requires Start(ts, h) < |ts|
    ensures |FullWalk(ts, h)| > 0 && FullWalk(ts, h)[0] == ts[Start(ts, h)].node
  {
    var c := Clockwise(ts, h);
    assert c[..1] == [] + [c[0]];
    MetMore([], c[0]);
    MetPrefix(c, 1);
  }

  function Swap(ts: Tokens, i: nat, j: nat): Tokens
    requires i < |ts| && j < |ts|
  {
    ts[i := ts[j]][j := ts[i]]
  }

  lemma SwapMembers(ts: Tokens, i: nat, j: nat)
    requires i < |ts| && j < |ts|
    ensures multiset(Swap(ts, i, j)) == multiset(ts)
  {
  }

  lemma SwapSorted(ts: Tokens, i: nat, j: nat)
    requires Sorted(ts) && i < |ts| && j < |ts| && ts[i].token == ts[j].token
    ensures Sorted(Swap(ts, i, j))
    ensures forall k :: 0 <= k < |ts| ==> Swap(ts, i, j)[k].token == ts[k].token
  {
    assert forall k :: 0 <= k < |ts| ==> Swap(ts, i, j)[k].token == ts[k].token;
  }

  lemma SwapStart(ts: Tokens, i: nat, j: nat, h: nat)
    requires Sorted(ts) && i < |ts| && j < |ts| && ts[i].token == ts[j].token
    ensures Start(Swap(ts, i, j), h) == Start(ts, h)
  {
    SwapSorted(ts, i, j);
    hide Swap, Start;
    StartSplits(ts, h);
    StartUnique(Swap(ts, i, j), h, Start(ts, h));
  }

  /** The first token on a shared position, and one of another node. */
  lemma Sharers(ts: Tokens, v: Vnode, w: Vnode) returns (j: nat)
    requires Sorted(ts) && v in ts && w in ts && v.token == w.token && v.node != w.node
    ensures var s := Start(ts, v.token);
      s < |ts| && j < |ts| && ts[s].token == ts[j].token == v.token && ts[s].node != ts[j].node
  {
    hide Start;
    StartSplits(ts, v.token);
    var s := Start(ts, v.token);
    var i :| 0 <= i < |ts| && ts[i] == v;
    assert s <= i;
    var other := if ts[s].node == v.node then w else v;
    j :| 0 <= j < |ts| && ts[j] == other;
  }

  /** Two nodes on one position: Add may swap them, and a walk that starts there changes. */
  lemma SharedPositionMoves(ts: Tokens, new_: Tokens, x: NodeId, v: Vnode, w: Vnode) returns (ts': Tokens)
    requires Newcomer(ts, new_, x) && v in ts && w in ts && v.token == w.token && v.node != w.node
    ensures SortedFrom(ts', ts + new_)
    ensures Without(ts', x) != ts && Dropped(FullWalk(ts', v.token), x) != FullWalk(ts, v.token)
  {
    hide Start, FullWalk, Without, Dropped, Sorted, Swap;
    var h, s := v.token, Start(ts, v.token);
    var j := Sharers(ts, v, w);
    var swapped := Swap(ts, s, j);
    SwapMembers(ts, s, j);
    SwapSorted(ts, s, j);
    SwapStart(ts, s, j, h);
    assert forall u :: u in swapped ==> u in multiset(swapped);
    ts' := InsertTokens(swapped, new_, x);
    assert multiset(swapped + new_) == multiset(ts + new_);
    WithoutNone(swapped, x);
    RemoveDeletesNode(ts', x, h);
    WalkHead(ts, h);
    WalkHead(swapped, h);
    assert swapped[s] == ts[j] by { SwapHead(ts, s, j); }
  }

  lemma SwapHead(ts: Tokens, i: nat, j: nat)
    requires i < |ts| && j < |ts|
    ensures |Swap(ts, i, j)| == |ts| && Swap(ts, i, j)[i] == ts[j]
  {
  }

  /** Every way to add x's tokens leaves the order of the other nodes in every walk. */
  ghost predicate AddKeepsWalks(ts: Tokens, new_: Tokens, x: NodeId)
  {
    forall ts', h :: SortedFrom(ts', ts + new_) ==> Dropped(FullWalk(ts', h), x) == FullWalk(ts, h)
  }

  /** Every way to add x's tokens is undone by taking them out. */
  ghost predicate AddUndone(ts: Tokens, new_: Tokens, x: NodeId)
  {
    forall ts' :: SortedFrom(ts', ts + new_) ==> Without(ts', x) == ts
  }

  /** Adding a node only inserts it, and removing it again undoes that, iff no two nodes share a position. */
  lemma AddStableIff(ts: Tokens, new_: Tokens, x: NodeId)
    requires Newcomer(ts, new_, x)
    ensures AddKeepsWalks(ts, new_, x) <==> OneOwner(ts)
    ensures AddUndone(ts, new_, x) <==> OneOwner(ts)
  {
    hide SortedFrom, FullWalk, Newcomer;
    if OneOwner(ts) {
      forall ts', h: nat | SortedFrom(ts', ts + new_)
        ensures Dropped(FullWalk(ts', h), x) == FullWalk(ts, h)
      {
        AddInsertsNode(ts, new_, ts', x, h);
      }
      forall ts' | SortedFrom(ts', ts + new_)
        ensures Without(ts', x) == ts
      {
        AddThenRemove(ts, new_, ts', x);
      }
    } else {
      var v, w :| v in ts && w in ts && v.token == w.token && v.node != w.node;
      var ts' := SharedPositionMoves(ts, new_, x, v, w);
    }
  }
}

module RingObject {
  import opened Storage
  import M = RingModel
  import P = RingProofs
  import Sorting

  predicate TokenLess(v: M.Vnode, w: M.Vnode)
  {
    v.token < w.token
  }

  class Ring {
    var tokens: M.Tokens
    var nodes: set<NodeId>
    const vnodes: nat
    const tokenOf: (NodeId, nat) -> nat
    const hashKey: string -> nat

    ghost predicate Valid()
      reads this
    {
      vnodes > 0 && M.Sorted(tokens) && P.Owners(tokens) == nodes
    }

    constructor (vnodes: int, tokenOf: (NodeId, nat) -> nat, hashKey: string -> nat)
      ensures Valid() && nodes == {} && tokens == []
      ensures this.vnodes == (if vnodes <= 0 then 128 else vnodes) && this.tokenOf == tokenOf && this.hashKey == hashKey
    {
      tokens, nodes := [], {};
      this.vnodes := if vnodes <= 0 then 128 else vnodes;
      this.tokenOf, this.hashKey := tokenOf, hashKey;
    }

    method Add(x: NodeId)
      requires Valid()
      modifies this
      ensures Valid() && nodes == old(nodes) + {x}
      ensures x in old(nodes) ==> tokens == old(tokens)
      ensures x !in old(nodes) ==> M.SortedFrom(tokens, old(tokens) + M.Vnodes(tokenOf, x, vnodes))
      ensures forall v :: v in tokens <==>
        v in old(tokens) || (x !in old(nodes) && v.node == x && exists i: nat :: i < vnodes && v.token == tokenOf(x, i))
    {
      if x in nodes {
        return;
      }
      nodes := nodes + {x};
      var all := tokens;
      for i := 0 to vnodes
        invariant all == tokens + M.Vnodes(tokenOf, x, i)
      {
        all := all + [M.Vnode(tokenOf(x, i), x)];
      }
      var sorted := Sorting.Sort(all, TokenLess);
      Sorting.SortSorted(all, TokenLess);
      OwnersAdded(tokens, tokenOf, x, vnodes, sorted);
      AddedTokens(tokens, tokenOf, x, vnodes, sorted);
      tokens := sorted;
    }

    method Remove(x: NodeId)
      requires Valid()
      modifies this
      ensures Valid() && nodes == old(nodes) - {x} && tokens == M.Without(old(tokens), x)
    {
      OwnersRemoved(tokens, x);
      if x !in nodes {
        NothingRemoved(tokens, x);
        return;
      }
      nodes := nodes - {x};
      var filtered: M.Tokens := [];
      for i := 0 to |tokens|
        modifies {}
        invariant filtered == M.Without(tokens[..i], x)
      {
        assert tokens[..i + 1][..i] == tokens[..i];
        if tokens[i].node != x {
          filtered := filtered + [tokens[i]];
        }
      }
      assert tokens[..|tokens|] == tokens;
      P.WithoutSorted(tokens, x);
      tokens := filtered;
    }

    /** sort.Search for the starting point. */
    method FindStart(h: nat) returns (start: nat)
      requires Valid()
      ensures start == M.Start(tokens, h)
    {
      start := 0;
      var j := |tokens|;
      while start < j
        invariant 0 <= start <= j <= |tokens|
        invariant forall k :: 0 <= k < start ==> tokens[k].token < h
        invariant forall k :: j <= k < |tokens| ==> tokens[k].token >= h
      {
        var mid := (start + j) / 2;
        if tokens[mid].token < h {
          start := mid + 1;
        } else {
          j := mid;
        }
      }
      P.StartUnique(tokens, h, start);
    }

    method PreferenceList(key: string, n: int) returns (result: seq<NodeId>)
      requires Valid()
      ensures result == M.PreferenceList(tokens, hashKey(key), n)
    {
      if n <= 0 || |tokens| == 0 {
        return [];
      }
      var h := hashKey(key);
      P.WalkCovers(tokens, h);
      var cap := n;
      if cap > |nodes| {
        cap := |nodes|;
      }
      OwnerExists(tokens);
      var start := FindStart(h);
      if start == |tokens| {
        start := 0;
      }
      result := Walk(h, start, cap);
    }

    /** The clockwise loop: new nodes are collected until there are enough. */
    method Walk(h: nat, start: nat, cap: nat) returns (result: seq<NodeId>)
      requires |tokens| > 0 && (start == M.Start(tokens, h) || (start == 0 && M.Start(tokens, h) == |tokens|))
      requires 0 < cap <= |M.FullWalk(tokens, h)|
      ensures result == M.FullWalk(tokens, h)[..cap]
    {
      hide M.Met, M.Clockwise;
      ghost var walk := M.Clockwise(tokens, h);
      WalkAt(tokens, h, start, 0);
      result := [];
      var seen: set<NodeId> := {};
      NoneMet(walk);
      var i := 0;
      while i < |tokens|
        invariant 0 <= i <= |tokens| == |walk| && result == M.Met(walk[..i]) && seen == (set x | x in result)
        invariant |result| < cap
      {
        var v := tokens[(start + i) % |tokens|];
        WalkAt(tokens, h, start, i);
        P.MetMore(walk[..i], v);
        assert walk[..i + 1] == walk[..i] + [v];
        i := i + 1;
        if v.node in seen {
          continue;
        }
        seen := seen + {v.node};
        result := result + [v.node];
        if |result| == cap {
          break;
        }
      }
      assert walk[..|walk|] == walk;
      P.MetPrefix(walk, i);
    }
  }

  lemma AddedTokens(ts: M.Tokens, tokenOf: (NodeId, nat) -> nat, x: NodeId, vnodes: nat, ts': M.Tokens)
    requires multiset(ts') == multiset(ts + M.Vnodes(tokenOf, x, vnodes))
    ensures forall v :: v in ts' <==>
      v in ts || (v.node == x && exists i: nat :: i < vnodes && v.token == tokenOf(x, i))
  {
    hide M.Vnodes;
    var new_ := M.Vnodes(tokenOf, x, vnodes);
    P.VnodesAre(tokenOf, x, vnodes);
    forall v
      ensures v in ts' <==> v in ts || v in new_
    {
      assert v in ts' <==> v in multiset(ts');
      assert v in ts + new_ <==> v in multiset(ts + new_);
    }
    forall v: M.Vnode | v.node == x && exists i: nat :: i < vnodes && v.token == tokenOf(x, i)
      ensures v in new_
    {
      var i: nat :| i < vnodes && v.token == tokenOf(x, i);
      assert new_[i] == v;
    }
  }

  lemma NoneMet(walk: M.Tokens)
    ensures M.Met(walk[..0]) == []
  {
  }

  lemma OwnerExists(ts: M.Tokens)
    requires |ts| > 0
    ensures |P.Owners(ts)| > 0
  {
    assert ts[0] in ts;
    assert ts[0].node in P.Owners(ts);
  }

  lemma WalkAt(ts: M.Tokens, h: nat, start: nat, i: nat)
    requires i < |ts| && (start == M.Start(ts, h) || (start == 0 && M.Start(ts, h) == |ts|))
    ensures |M.Clockwise(ts, h)| == |ts| && M.Clockwise(ts, h)[i] == ts[(start + i) % |ts|]
  {
    hide M.Start;
    Rotated(ts, M.Start(ts, h), i);
    Modulo(start + i, |ts|);
  }

  lemma Rotated(ts: M.Tokens, s: nat, i: nat)
    requires i < |ts| && s <= |ts|
    ensures |ts[s..] + ts[..s]| == |ts|
    ensures (ts[s..] + ts[..s])[i] == ts[if s + i < |ts| then s + i else s + i - |ts|]
  {
  }

  lemma Modulo(x: nat, n: nat)
    requires x < 2 * n
    ensures x % n == if x < n then x else x - n
  {
    var q, r := x / n, x % n;
    assert x == q * n + r && 0 <= r < n;
    assert x >= n ==> q >= 1;
    assert q < 2 by { Quotient(q, n, x); }
  }

  lemma Quotient(q: int, n: nat, x: nat)
    requires q * n <= x < 2 * n
    ensures q < 2
  {
    assert q >= 2 ==> q * n >= 2 * n;
  }

  lemma OwnersAdded(ts: M.Tokens, tokenOf: (NodeId, nat) -> nat, x: NodeId, count: nat, sorted: M.Tokens)
    requires count > 0 && multiset(sorted) == multiset(ts + M.Vnodes(tokenOf, x, count))
    ensures P.Owners(sorted) == P.Owners(ts) + {x}
  {
    var added := M.Vnodes(tokenOf, x, count);
    assert added[|added| - 1].node == x && added[|added| - 1] in added;
    forall v | v in added
      ensures v.node == x
    {
      P.VnodesOwned(tokenOf, x, count, v);
    }
    assert forall v :: v in sorted <==> v in multiset(sorted);
    assert forall v :: v in ts + added <==> v in multiset(ts + added);
  }

  lemma OwnersRemoved(ts: M.Tokens, x: NodeId)
    ensures P.Owners(M.Without(ts, x)) == P.Owners(ts) - {x}
  {
    forall v
      ensures v in M.Without(ts, x) <==> v in ts && v.node != x
    {
      P.WithoutMember(ts, x, v);
    }
  }

  lemma {:induction false} NothingRemoved(ts: M.Tokens, x: NodeId)
    requires x !in P.Owners(ts)
    ensures M.Without(ts, x) == ts
  {
    if ts != [] {
      var init, v := ts[..|ts| - 1], ts[|ts| - 1];
      assert ts == init + [v] && v in ts;
      assert forall w :: w in init ==> w in ts;
      NothingRemoved(init, x);
    }
  }
}
