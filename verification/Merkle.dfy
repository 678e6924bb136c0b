/** Merkle trees over a key-value map (internal/antientropy/merkle.go), over an abstract hash. */
module MerkleModel {
  import opened Chains

  const EMPTY_ROOT_HASH := "empty:0000000000000000000000000000000000000000000000000000000000000000"

  datatype Node = Nil | Node(hash: string, left: Node, right: Node, key: string)

  type Hash = string -> string

  type KV = map<string, string>

  const EMPTY := Node(EMPTY_ROOT_HASH, Nil, Nil, "")

  function LeafText(key: string, value: string): string
  {
    key + "=" + value
  }

  function Leaf(h: Hash, key: string, value: string): Node
  {
    Node(h(LeafText(key, value)), Nil, Nil, key)
  }

  function BuildLevel(h: Hash, nodes: seq<Node>): (t: Node)
    requires nodes != [] && forall i :: 0 <= i < |nodes| ==> nodes[i].Node?
    ensures t.Node?
  {
    if |nodes| == 1 then nodes[0]
    else
      var mid := |nodes| / 2;
      var left := BuildLevel(h, nodes[..mid]);
      var right := BuildLevel(h, nodes[mid..]);
      Node(h(left.hash + right.hash), left, right, "")
  }

  // ---------------------------------------------------------------- what a tree stands for

  /** A tree with its keys and values still in it. */
  datatype Shape = L(key: string, value: string) | I(left: Shape, right: Shape)

  function Keys(s: Shape): (r: seq<string>)
    ensures r != []
  {
    match s
    case L(k, _) => [k]
    case I(l, r) => Keys(l) + Keys(r)
  }

  function Values(s: Shape): KV
  {
    match s
    case L(k, v) => map[k := v]
    case I(l, r) => Values(l) + Values(r)
  }

  /** Balanced by leaf count, as buildLevel splits. */
  predicate Even(s: Shape)
  {
    s.I? ==> |Keys(s.left)| == |Keys(s)| / 2 && Even(s.left) && Even(s.right)
  }

  function NodeOf(h: Hash, s: Shape): (t: Node)
    ensures t.Node?
  {
    match s
    case L(k, v) => Leaf(h, k, v)
    case I(l, r) =>
      var left, right := NodeOf(h, l), NodeOf(h, r);
      Node(h(left.hash + right.hash), left, right, "")
  }

  ghost predicate ShapeOf(s: Shape, kv: KV)
  {
    Even(s) && Ascending(Keys(s)) && Values(s) == kv
  }

  /** BuildTree(kv) is t. */
  ghost predicate BuiltFrom(h: Hash, kv: KV, t: Node)
  {
    if kv == map[] then t == EMPTY else exists s :: ShapeOf(s, kv) && t == NodeOf(h, s)
  }

  // ---------------------------------------------------------------- diffing

  predicate IsLeaf(n: Node)
    requires n.Node?
  {
    n.left.Nil? && n.right.Nil? && n.key != ""
  }

  function LeafKeys(n: Node): set<string>
  {
    if n.Nil? then {}
    else if IsLeaf(n) then {n.key}
    else LeafKeys(n.left) + LeafKeys(n.right)
  }

  function LeafHashes(n: Node): KV
  {
    if n.Nil? then map[]
    else if IsLeaf(n) then map[n.key := n.hash]
    else LeafHashes(n.left) + LeafHashes(n.right)
  }

  /** The keys on which two maps differ: in one only, or with different values. */
  function Differing(a: KV, b: KV): set<string>
  {
    (set k | k in a && (k !in b || b[k] != a[k])) + (set k | k in b && k !in a)
  }

  function DiffSet(a: Node, b: Node): set<string>
  {
    if a.Nil? && b.Nil? then {}
    else if a.Node? && b.Node? && a.hash == b.hash then {}
    else if a.Nil? then LeafKeys(b)
    else if b.Nil? then LeafKeys(a)
    else if !IsLeaf(a) && !IsLeaf(b) && LeafKeys(a) == LeafKeys(b) then
      DiffSet(a.left, b.left) + DiffSet(a.right, b.right)
    else Differing(LeafHashes(a), LeafHashes(b))
  }
}

module MerkleProofs {
  import opened Chains
  import opened StringOrder
  import opened MerkleModel

  // ---------------------------------------------------------------- what is assumed of the hash

  /** The texts hashed while building a tree. */
  function Hashed(h: Hash, s: Shape): set<string>
  {
    match s
    case L(k, v) => {LeafText(k, v)}
    case I(l, r) => Hashed(h, l) + Hashed(h, r) + {NodeOf(h, l).hash + NodeOf(h, r).hash}
  }

  /** Sixty-four hexadecimal digits, and no collision among these texts. */
  ghost predicate GoodHash(h: Hash, texts: set<string>)
  {
    && (forall x :: x in texts ==> |h(x)| == 64 && '=' !in h(x))
    && (forall x, y :: x in texts && y in texts && h(x) == h(y) ==> x == y)
  }

  /** The keys and the values that maps may have. */
  datatype Domain = Domain(keys: iset<string>, values: iset<string>)

  /** Key and value read as key' and value': the same leaf text, cut at a later '='. */
  predicate CutLater(k: string, v: string, k': string, v': string)
  {
    k + "=" <= k' && v == k'[|k| + 1..] + "=" + v'
  }

  /** No key is empty, and no key and value can be read as another key and value. */
  ghost predicate Clean(dom: Domain)
  {
    && (forall v :: v in dom.values ==> "" !in dom.keys)
    && forall k, v, k', v' :: k in dom.keys && v in dom.values && k' in dom.keys && v' in dom.values ==>
      !CutLater(k, v, k', v')
  }

  predicate KeysIn(s: Shape, dom: Domain)
  {
    match s
    case L(k, v) => k in dom.keys && v in dom.values
    case I(l, r) => KeysIn(l, dom) && KeysIn(r, dom)
  }

  // ---------------------------------------------------------------- equal roots, equal trees

  lemma LeafTextParts(k: string, v: string)
    ensures LeafText(k, v)[..|k|] == k && LeafText(k, v)[|k|] == '=' && LeafText(k, v)[|k| + 1..] == v
  {
  }

  /** Two leaf texts are equal only for the same key and value, or when one is the other cut at a later '='. */
  lemma LeafTextInjective(k: string, v: string, k': string, v': string)
    requires LeafText(k, v) == LeafText(k', v')
    ensures (k == k' && v == v') || CutLater(k, v, k', v') || CutLater(k', v', k, v)
  {
    LeafTextParts(k, v);
    LeafTextParts(k', v');
    if |k| < |k'| {
      LaterCut(k, v, k', v');
    } else if |k'| < |k| {
      LaterCut(k', v', k, v);
    }
  }

  lemma LaterCut(k: string, v: string, k': string, v': string)
    requires LeafText(k, v) == LeafText(k', v') && |k| < |k'|
    ensures CutLater(k, v, k', v')
  {
    LeafTextParts(k, v);
    assert k + "=" == LeafText(k', v')[..|k| + 1] == k'[..|k| + 1];
    assert v == LeafText(k', v')[|k| + 1..] == k'[|k| + 1..] + "=" + v';
  }

  function RootText(h: Hash, s: Shape): string
  {
    match s
    case L(k, v) => LeafText(k, v)
    case I(l, r) => NodeOf(h, l).hash + NodeOf(h, r).hash
  }

  lemma RootForm(h: Hash, s: Shape, texts: set<string>)
    requires Hashed(h, s) <= texts && GoodHash(h, texts)
    ensures RootText(h, s) in texts && NodeOf(h, s).hash == h(RootText(h, s))
    ensures |NodeOf(h, s).hash| == 64 && '=' !in NodeOf(h, s).hash
  {
    assert RootText(h, s) in Hashed(h, s);
  }

  /** No inner text looks like a leaf text. */
  lemma InnerNotLeaf(h: Hash, s: Shape, texts: set<string>, k: string, v: string)
    requires s.I? && Hashed(h, s) <= texts && GoodHash(h, texts)
    ensures RootText(h, s) != LeafText(k, v)
  {
    RootForm(h, s.left, texts);
    RootForm(h, s.right, texts);
    assert LeafText(k, v)[|k|] == '=';
    assert '=' in LeafText(k, v) && '=' !in RootText(h, s);
  }

  /** Equal root hashes mean equal trees, keys and values included. */
  lemma {:induction false} RootsDecide(h: Hash, s: Shape, t: Shape, dom: Domain, texts: set<string>)
    requires Hashed(h, s) <= texts && Hashed(h, t) <= texts && GoodHash(h, texts)
    requires KeysIn(s, dom) && KeysIn(t, dom) && Clean(dom)
    requires NodeOf(h, s).hash == NodeOf(h, t).hash
    ensures s == t
  {
    hide GoodHash;
    RootForm(h, s, texts);
    RootForm(h, t, texts);
    assert RootText(h, s) == RootText(h, t) by { NoCollision(h, texts, RootText(h, s), RootText(h, t)); }
    match (s, t)
    case (L(k, v), L(k', v')) => LeafTextInjective(k, v, k', v');
    case (L(k, v), I(_, _)) => InnerNotLeaf(h, t, texts, k, v);
    case (I(_, _), L(k, v)) => InnerNotLeaf(h, s, texts, k, v);
    case (I(l, r), I(l', r')) =>
      RootForm(h, l, texts);
      RootForm(h, l', texts);
      SplitText(NodeOf(h, l).hash, NodeOf(h, r).hash, NodeOf(h, l').hash, NodeOf(h, r').hash);
      RootsDecide(h, l, l', dom, texts);
      RootsDecide(h, r, r', dom, texts);
  }

  lemma NoCollision(h: Hash, texts: set<string>, x: string, y: string)
    requires GoodHash(h, texts) && x in texts && y in texts && h(x) == h(y)
    ensures x == y
  {
  }

  lemma SplitText(a: string, b: string, c: string, d: string)
    requires |a| == |c| && a + b == c + d
    ensures a == c && b == d
  {
    assert (a + b)[..|a|] == a && (c + d)[..|c|] == c && (a + b)[|a|..] == b && (c + d)[|c|..] == d;
  }

  // ---------------------------------------------------------------- leaves

  lemma {:induction false} LeavesOf(h: Hash, s: Shape)
    requires "" !in Keys(s)
    ensures IsLeaf(NodeOf(h, s)) <==> s.L?
    ensures LeafKeys(NodeOf(h, s)) == Values(s).Keys == LeafHashes(NodeOf(h, s)).Keys
    ensures forall k :: k in Values(s) ==> LeafHashes(NodeOf(h, s))[k] == h(LeafText(k, Values(s)[k]))
  {
    if s.L? {
      assert Keys(s)[0] == s.key;
    } else {
      LeavesOf(h, s.left);
      LeavesOf(h, s.right);
    }
  }

  lemma {:induction false} KeysAreKeys(s: Shape, k: string)
    ensures k in Keys(s) <==> k in Values(s)
  {
    if s.I? {
      KeysAreKeys(s.left, k);
      KeysAreKeys(s.right, k);
    }
  }

  lemma {:induction false} LeafHashed(h: Hash, s: Shape, k: string)
    requires k in Values(s)
    ensures LeafText(k, Values(s)[k]) in Hashed(h, s)
  {
    if s.I? {
      LeafHashed(h, if k in Values(s.right) then s.right else s.left, k);
    }
  }

  /** Comparing leaf hashes by key is comparing values by key. */
  lemma ReconcileExact(h: Hash, s: Shape, t: Shape, texts: set<string>)
    requires Hashed(h, s) <= texts && Hashed(h, t) <= texts && GoodHash(h, texts)
    requires "" !in Keys(s) && "" !in Keys(t)
    ensures Differing(LeafHashes(NodeOf(h, s)), LeafHashes(NodeOf(h, t))) == Differing(Values(s), Values(t))
  {
    hide GoodHash, LeafHashes, Values, Hashed, NodeOf;
    LeavesOf(h, s);
    LeavesOf(h, t);
    forall k | k in Values(s) && k in Values(t)
      ensures h(LeafText(k, Values(s)[k])) == h(LeafText(k, Values(t)[k])) <==> Values(s)[k] == Values(t)[k]
    {
      LeafHashed(h, s, k);
      LeafHashed(h, t, k);
      if h(LeafText(k, Values(s)[k])) == h(LeafText(k, Values(t)[k])) {
        NoCollision(h, texts, LeafText(k, Values(s)[k]), LeafText(k, Values(t)[k]));
        LeafTextParts(k, Values(s)[k]);
        LeafTextParts(k, Values(t)[k]);
      }
    }
  }

  // ---------------------------------------------------------------- aligned trees

  lemma ChildrenAlign(s: Shape, t: Shape)
    requires s.I? && t.I? && Even(s) && Even(t) && Keys(s) == Keys(t)
    ensures Keys(s.left) == Keys(t.left) && Keys(s.right) == Keys(t.right)
  {
    var n := |Keys(s.left)|;
    assert Keys(s)[..n] == Keys(s.left) && Keys(t)[..n] == Keys(t.left);
    assert Keys(s)[n..] == Keys(s.right) && Keys(t)[n..] == Keys(t.right);
  }

  lemma HalvesAscend(s: Shape)
    requires s.I? && Ascending(Keys(s))
    ensures Ascending(Keys(s.left)) && Ascending(Keys(s.right))
    ensures forall k :: k in Values(s.left) ==> k !in Values(s.right)
  {
    var n := |Keys(s.left)|;
    assert Keys(s)[..n] == Keys(s.left) && Keys(s)[n..] == Keys(s.right);
    forall k | k in Values(s.left) && k in Values(s.right)
      ensures false
    {
      KeysAreKeys(s.left, k);
      KeysAreKeys(s.right, k);
      var i :| 0 <= i < n && Keys(s)[i] == k;
      var j :| n <= j < |Keys(s)| && Keys(s)[j] == k;
      Trichotomy(k, k);
    }
  }

  /** Equal keys on both sides: the difference splits where the trees do. */
  lemma DifferingSplits(a: KV, b: KV, c: KV, d: KV)
    requires a.Keys == c.Keys && b.Keys == d.Keys && a.Keys !! b.Keys
    ensures Differing(a + b, c + d) == Differing(a, c) + Differing(b, d)
  {
  }

  lemma SameKeysSameValues(s: Shape, t: Shape)
    requires Keys(s) == Keys(t)
    ensures Values(s).Keys == Values(t).Keys
  {
    forall k
      ensures k in Values(s) <==> k in Values(t)
    {
      KeysAreKeys(s, k);
      KeysAreKeys(t, k);
    }
  }

  ghost predicate Comparable(h: Hash, s: Shape, dom: Domain, texts: set<string>)
  {
    Hashed(h, s) <= texts && KeysIn(s, dom) && Even(s) && Ascending(Keys(s))
  }

  lemma {:induction false} NoEmptyKey(s: Shape, dom: Domain)
    requires KeysIn(s, dom) && Clean(dom)
    ensures "" !in Keys(s)
  {
    if s.I? {
      NoEmptyKey(s.left, dom);
      NoEmptyKey(s.right, dom);
    }
  }

  lemma ComparableHalves(h: Hash, s: Shape, dom: Domain, texts: set<string>)
    requires Comparable(h, s, dom, texts) && s.I?
    ensures Comparable(h, s.left, dom, texts) && Comparable(h, s.right, dom, texts)
  {
    HalvesAscend(s);
  }

  lemma {:induction false} DiffExact(h: Hash, s: Shape, t: Shape, dom: Domain, texts: set<string>)
    requires Comparable(h, s, dom, texts) && Comparable(h, t, dom, texts) && Clean(dom) && GoodHash(h, texts)
    ensures DiffSet(NodeOf(h, s), NodeOf(h, t)) == Differing(Values(s), Values(t))
    decreases s
  {
    hide GoodHash, LeafHashes, LeafKeys, Ascending, Hashed, Differing, IsLeaf;
    NoEmptyKey(s, dom);
    NoEmptyKey(t, dom);
    LeavesOf(h, s);
    LeavesOf(h, t);
    if NodeOf(h, s).hash == NodeOf(h, t).hash {
      RootsDecide(h, s, t, dom, texts);
      NoDifference(Values(s));
    } else if s.I? && t.I? && LeafKeys(NodeOf(h, s)) == LeafKeys(NodeOf(h, t)) {
      SameKeys(s, t);
      DiffHalves(h, s, t, dom, texts);
    } else {
      ReconcileExact(h, s, t, texts);
    }
  }

  lemma {:induction false} DiffHalves(h: Hash, s: Shape, t: Shape, dom: Domain, texts: set<string>)
    requires Comparable(h, s, dom, texts) && Comparable(h, t, dom, texts) && Clean(dom) && GoodHash(h, texts)
    requires s.I? && t.I? && Keys(s) == Keys(t)
    ensures DiffSet(NodeOf(h, s.left), NodeOf(h, t.left)) + DiffSet(NodeOf(h, s.right), NodeOf(h, t.right))
         == Differing(Values(s), Values(t))
    decreases s, 0
  {
    hide GoodHash, Ascending, Hashed, Differing, DiffSet;
    ChildrenAlign(s, t);
    ComparableHalves(h, s, dom, texts);
    ComparableHalves(h, t, dom, texts);
    DiffExact(h, s.left, t.left, dom, texts);
    DiffExact(h, s.right, t.right, dom, texts);
    HalvesAscend(s);
    SameKeysSameValues(s.left, t.left);
    SameKeysSameValues(s.right, t.right);
    DifferingSplits(Values(s.left), Values(s.right), Values(t.left), Values(t.right));
  }

  lemma SameKeys(s: Shape, t: Shape)
    requires Ascending(Keys(s)) && Ascending(Keys(t)) && Values(s).Keys == Values(t).Keys
    ensures Keys(s) == Keys(t)
  {
    forall k
      ensures k in Keys(s) <==> k in Keys(t)
    {
      KeysAreKeys(s, k);
      KeysAreKeys(t, k);
    }
    SameAscending(Keys(s), Keys(t));
  }

  lemma NoDifference(a: KV)
    ensures Differing(a, a) == {}
  {
  }

  // ---------------------------------------------------------------- whole maps

  ghost predicate Within(kv: KV, dom: Domain)
  {
    forall k :: k in kv ==> k in dom.keys && kv[k] in dom.values
  }

  /** The texts hashed when building the tree of a map are among these. */
  ghost predicate HashedFor(h: Hash, kv: KV, texts: set<string>)
  {
    forall s :: ShapeOf(s, kv) ==> Hashed(h, s) <= texts
  }

  lemma {:induction false} ShapeWithin(s: Shape, dom: Domain)
    requires Within(Values(s), dom) && Ascending(Keys(s))
    ensures KeysIn(s, dom)
  {
    if s.I? {
      HalvesAscend(s);
      assert forall k :: k in Values(s.left) ==> Values(s)[k] == Values(s.left)[k];
      ShapeWithin(s.left, dom);
      ShapeWithin(s.right, dom);
    } else {
      assert s.key in Values(s);
    }
  }

  lemma ShapeComparable(h: Hash, kv: KV, s: Shape, dom: Domain, texts: set<string>)
    requires ShapeOf(s, kv) && Within(kv, dom) && HashedFor(h, kv, texts)
    ensures Comparable(h, s, dom, texts)
  {
    ShapeWithin(s, dom);
  }

  /** Diff of two trees is the difference of the two maps, for every pair of maps, empty ones included. */
  lemma DiffIsMapDifference(h: Hash, a: KV, b: KV, ta: Node, tb: Node, dom: Domain, texts: set<string>)
    requires BuiltFrom(h, a, ta) && BuiltFrom(h, b, tb) && Within(a, dom) && Within(b, dom) && Clean(dom)
    requires HashedFor(h, a, texts) && HashedFor(h, b, texts) && GoodHash(h, texts)
    ensures DiffSet(ta, tb) == Differing(a, b)
  {
    hide GoodHash, Within, HashedFor, Comparable, DiffSet, NodeOf;
    if a != map[] && b != map[] {
      var s :| ShapeOf(s, a) && ta == NodeOf(h, s);
      var t :| ShapeOf(t, b) && tb == NodeOf(h, t);
      ShapeComparable(h, a, s, dom, texts);
      ShapeComparable(h, b, t, dom, texts);
      DiffExact(h, s, t, dom, texts);
    } else if a != map[] {
      var s :| ShapeOf(s, a) && ta == NodeOf(h, s);
      ShapeComparable(h, a, s, dom, texts);
      AgainstEmpty(h, s, dom, texts);
    } else if b != map[] {
      var t :| ShapeOf(t, b) && tb == NodeOf(h, t);
      ShapeComparable(h, b, t, dom, texts);
      AgainstEmpty(h, t, dom, texts);
    } else {
      EmptyAgainstEmpty();
    }
  }

  lemma EmptyAgainstEmpty()
    ensures DiffSet(EMPTY, EMPTY) == {}
  {
  }

  lemma AgainstEmpty(h: Hash, s: Shape, dom: Domain, texts: set<string>)
    requires Comparable(h, s, dom, texts) && Clean(dom) && GoodHash(h, texts)
    ensures DiffSet(NodeOf(h, s), EMPTY) == Values(s).Keys == DiffSet(EMPTY, NodeOf(h, s))
  {
    hide NodeOf, Hashed, Even, Ascending, GoodHash, DiffSet;
    NoEmptyKey(s, dom);
    LeavesOf(h, s);
    RootForm(h, s, texts);
    assert |EMPTY_ROOT_HASH| == 70;
    KeysAreKeys(s, Keys(s)[0]);
    DiffWithEmpty(NodeOf(h, s), Keys(s)[0]);
  }

  lemma DiffWithEmpty(n: Node, k: string)
    requires n.Node? && n.hash != EMPTY_ROOT_HASH && k in LeafKeys(n) && LeafHashes(n).Keys == LeafKeys(n)
    ensures DiffSet(n, EMPTY) == LeafKeys(n) == DiffSet(EMPTY, n)
  {
  }

  lemma {:induction false} ShapeUnique(s: Shape, t: Shape)
    requires Even(s) && Even(t) && Keys(s) == Keys(t) && Values(s) == Values(t) && Ascending(Keys(s))
    ensures s == t
  {
    hide Ascending;
    if s.I? && t.I? {
      ChildrenAlign(s, t);
      HalvesAscend(s);
      SameKeysSameValues(s.left, t.left);
      SameKeysSameValues(s.right, t.right);
      MapSplits(Values(s.left), Values(s.right), Values(t.left), Values(t.right));
      ShapeUnique(s.left, t.left);
      ShapeUnique(s.right, t.right);
    } else if s.L? && t.L? {
      assert Keys(s)[0] == s.key && Keys(t)[0] == t.key;
      assert Values(s)[s.key] == s.value && Values(t)[t.key] == t.value;
    }
  }

  lemma MapSplits(a: KV, b: KV, c: KV, d: KV)
    requires a + b == c + d && a.Keys == c.Keys && b.Keys == d.Keys && a.Keys !! b.Keys
    ensures a == c && b == d
  {
    assert forall k :: k in a ==> (a + b)[k] == a[k] && (c + d)[k] == c[k];
    assert forall k :: k in b ==> (a + b)[k] == b[k] && (c + d)[k] == d[k];
  }

  /** Building twice over the same map gives the same tree. */
  lemma BuildDeterministic(h: Hash, kv: KV, t: Node, t': Node)
    requires BuiltFrom(h, kv, t) && BuiltFrom(h, kv, t')
    ensures t == t'
  {
    if kv != map[] {
      var s :| ShapeOf(s, kv) && t == NodeOf(h, s);
      var s' :| ShapeOf(s', kv) && t' == NodeOf(h, s');
      SameKeys(s, s');
      ShapeUnique(s, s');
    }
  }

  // ---------------------------------------------------------------- why the keys must be good

  lemma SingleTree(h: Hash, k: string, v: string, t: Node)
    requires BuiltFrom(h, map[k := v], t)
    ensures t == Leaf(h, k, v)
  {
    var kv := map[k := v];
    assert k in kv;
    assert kv != map[];
    assert ShapeOf(L(k, v), kv);
    BuildDeterministic(h, kv, t, NodeOf(h, L(k, v)));
  }

  /** Diff is exact for every hash, trusted on what it hashes, and every two maps over these keys. */
  ghost predicate DiffsExactly(dom: Domain)
  {
    forall h, a, b, ta, tb, texts :: Compared(h, a, b, ta, tb, texts) && Within(a, dom) && Within(b, dom) ==>
      DiffSet(ta, tb) == Differing(a, b)
  }

  /** The trees of two maps, over a hash that can be trusted on them. */
  ghost predicate Compared(h: Hash, a: KV, b: KV, ta: Node, tb: Node, texts: set<string>)
  {
    && BuiltFrom(h, a, ta) && BuiltFrom(h, b, tb)
    && HashedFor(h, a, texts) && HashedFor(h, b, texts) && GoodHash(h, texts)
  }

  /** A key that goes on with '=' after another can stand for it: both changes stay hidden, whatever the hash. */
  lemma EqualsHides(h: Hash, k: string, r: string, v: string, ta: Node, tb: Node)
    requires BuiltFrom(h, map[k + "=" + r := v], ta) && BuiltFrom(h, map[k := r + "=" + v], tb)
    ensures DiffSet(ta, tb) == {}
    ensures Differing(map[k + "=" + r := v], map[k := r + "=" + v]) == {k + "=" + r, k}
  {
    SingleTree(h, k + "=" + r, v, ta);
    SingleTree(h, k, r + "=" + v, tb);
    assert LeafText(k + "=" + r, v) == LeafText(k, r + "=" + v);
    assert |k + "=" + r| > |k|;
  }

  /** The empty key is never reported, whatever the trees. */
  lemma {:induction false} EmptyKeyHides(a: Node, b: Node)
    ensures "" !in DiffSet(a, b) && "" !in LeafKeys(a) && "" !in LeafHashes(a)
    ensures "" !in LeafKeys(b) && "" !in LeafHashes(b)
  {
    if a.Node? {
      EmptyKeyHides(a.left, if b.Node? then b.left else b);
      EmptyKeyHides(a.right, if b.Node? then b.right else b);
    } else if b.Node? {
      EmptyKeyHides(a, b.left);
      EmptyKeyHides(a, b.right);
    }
  }

  /** And next to it a key that did not change is reported. */
  lemma EmptyKeyMisreports(
    h: Hash, k: string, m: string, x: string, y: string, z: string, ta: Node, tb: Node, texts: set<string>)
    requires k != "" && m != "" && Less(k, m)
    requires Compared(h, map["" := x, k := y, m := z], map[k := y, m := z], ta, tb, texts)
    ensures Differing(map["" := x, k := y, m := z], map[k := y, m := z]) == {""}
    ensures k in DiffSet(ta, tb)
  {
    hide DiffSet, GoodHash, NodeOf, Hashed, Ascending, Even, Less, ShapeOf, Differing, Keys, Values;
    var a, b := map["" := x, k := y, m := z], map[k := y, m := z];
    var t := I(L(k, y), L(m, z));
    var s := I(L("", x), t);
    assert a != map[] && b != map[] by { assert k in a && k in b; }
    TwoLeaves(k, y, m, z);
    ThreeLeaves("", x, k, y, m, z) by { EmptyFirst(k); EmptyFirst(m); }
    assert ta == NodeOf(h, s) by { BuildDeterministic(h, a, ta, NodeOf(h, s)); }
    assert tb == NodeOf(h, t) by { BuildDeterministic(h, b, tb, NodeOf(h, t)); }
    assert Hashed(h, s) <= texts && Hashed(h, t) <= texts;
    Trichotomy(k, m);
    ShiftedDiff(h, k, m, x, y, z, texts);
    OnlyEmptyDiffers(x, k, y, m, z);
  }

  lemma OnlyEmptyDiffers(x: string, k: string, y: string, m: string, z: string)
    requires k != "" && m != "" && k != m
    ensures Differing(map["" := x, k := y, m := z], map[k := y, m := z]) == {""}
  {
  }

  lemma EmptyFirst(k: string)
    requires k != ""
    ensures Less("", k)
  {
  }

  lemma TwoLeaves(k: string, y: string, m: string, z: string)
    requires Less(k, m)
    ensures ShapeOf(I(L(k, y), L(m, z)), map[k := y, m := z])
  {
    assert k != m by { Trichotomy(k, k); }
    assert Keys(I(L(k, y), L(m, z))) == [k, m];
  }

  lemma ThreeLeaves(j: string, x: string, k: string, y: string, m: string, z: string)
    requires Less(j, k) && Less(j, m) && Less(k, m)
    ensures ShapeOf(I(L(j, x), I(L(k, y), L(m, z))), map[j := x, k := y, m := z])
  {
    Trichotomy(j, k);
    Trichotomy(j, m);
    Trichotomy(k, m);
    hide Less, Ascending;
    var t := I(L(k, y), L(m, z));
    assert Keys(t) == [k] + [m] == [k, m];
    assert Keys(I(L(j, x), t)) == [j] + [k, m] == [j, k, m];
    assert Values(t) == map[k := y, m := z];
    assert Values(I(L(j, x), t)) == map[j := x, k := y, m := z];
    assert Even(t) && Even(I(L(j, x), t));
    Ascending3(j, k, m);
  }

  lemma Ascending3(j: string, k: string, m: string)
    requires Less(j, k) && Less(j, m) && Less(k, m)
    ensures Ascending([j, k, m])
  {
  }

  /** Both trees show the leaf keys k and m, but at the same place one has both and the other only m. */
  lemma ShiftedDiff(h: Hash, k: string, m: string, x: string, y: string, z: string, texts: set<string>)
    requires k != "" && m != "" && k != m && GoodHash(h, texts)
    requires Hashed(h, I(L("", x), I(L(k, y), L(m, z)))) <= texts
    ensures k in DiffSet(NodeOf(h, I(L("", x), I(L(k, y), L(m, z)))), NodeOf(h, I(L(k, y), L(m, z))))
  {
    hide GoodHash, NodeOf, DiffSet, Hashed;
    var t := I(L(k, y), L(m, z));
    var s := I(L("", x), t);
    assert Hashed(h, t) <= texts && Hashed(h, L("", x)) <= texts && Hashed(h, L(k, y)) <= texts
      && Hashed(h, L(m, z)) <= texts by {
      PartsHashed(h, s);
      PartsHashed(h, t);
    }
    HashesApart(h, t, L(m, z), texts);
    RootsApart(h, s, t, texts);
    LeavesOf(h, t) by { assert Keys(t) == [k, m]; }
    LeavesOf(h, L(m, z));
    LeavesOf(h, L(k, y));
    NodeParts(h, s);
    NodeParts(h, t);
    EmptyLeaf(h, x);
    DescendInto(NodeOf(h, s), NodeOf(h, t), k);
  }

  lemma PartsHashed(h: Hash, s: Shape)
    requires s.I?
    ensures Hashed(h, s.left) <= Hashed(h, s) && Hashed(h, s.right) <= Hashed(h, s)
  {
  }

  lemma NodeParts(h: Hash, s: Shape)
    requires s.I?
    ensures NodeOf(h, s).left == NodeOf(h, s.left) && NodeOf(h, s).right == NodeOf(h, s.right)
    ensures NodeOf(h, s).hash == h(NodeOf(h, s.left).hash + NodeOf(h, s.right).hash)
  {
  }

  /** A leaf with the empty key passes for an inner node without leaves. */
  lemma EmptyLeaf(h: Hash, x: string)
    ensures !IsLeaf(NodeOf(h, L("", x))) && LeafKeys(NodeOf(h, L("", x))) == {}
  {
  }

  lemma HashesApart(h: Hash, s: Shape, t: Shape, texts: set<string>)
    requires s.I? && t.L? && Hashed(h, s) <= texts && Hashed(h, t) <= texts && GoodHash(h, texts)
    ensures NodeOf(h, s).hash != NodeOf(h, t).hash
  {
    hide GoodHash, Hashed, NodeOf;
    RootForm(h, s, texts);
    RootForm(h, t, texts);
    InnerNotLeaf(h, s, texts, t.key, t.value);
    if NodeOf(h, s).hash == NodeOf(h, t).hash {
      NoCollision(h, texts, RootText(h, s), RootText(h, t));
    }
  }

  lemma RootsApart(h: Hash, s: Shape, t: Shape, texts: set<string>)
    requires s.I? && t.I? && Hashed(h, s) <= texts && Hashed(h, t) <= texts && GoodHash(h, texts)
    requires NodeOf(h, s.right).hash != NodeOf(h, t.right).hash
    ensures NodeOf(h, s).hash != NodeOf(h, t).hash
  {
    hide GoodHash;
    RootForm(h, s, texts);
    RootForm(h, t, texts);
    RootForm(h, s.left, texts);
    RootForm(h, t.left, texts);
    if NodeOf(h, s).hash == NodeOf(h, t).hash {
      NoCollision(h, texts, RootText(h, s), RootText(h, t));
      SplitText(NodeOf(h, s.left).hash, NodeOf(h, s.right).hash, NodeOf(h, t.left).hash, NodeOf(h, t.right).hash);
    }
  }

  lemma DescendInto(a: Node, b: Node, k: string)
    requires a.Node? && b.Node? && a.hash != b.hash && LeafKeys(a) == LeafKeys(b)
    requires a.left.Node? && a.right.Node? && b.left.Node? && b.right.Node?
    requires a.right.hash != b.right.hash && IsLeaf(b.right)
    requires k in LeafHashes(a.right) && k !in LeafHashes(b.right)
    ensures k in DiffSet(a, b)
  {
  }

  lemma NoEmptyShape(h: Hash)
    ensures HashedFor(h, map[], {})
  {
    forall s | ShapeOf(s, map[])
      ensures false
    {
      KeysAreKeys(s, Keys(s)[0]);
    }
  }

  lemma SingleHashed(h: Hash, k: string, v: string)
    ensures HashedFor(h, map[k := v], {LeafText(k, v)})
  {
    var kv := map[k := v];
    forall s | ShapeOf(s, kv)
      ensures Hashed(h, s) <= {LeafText(k, v)}
    {
      assert ShapeOf(L(k, v), kv);
      SameKeys(s, L(k, v));
      ShapeUnique(s, L(k, v));
    }
  }

  /** Diff is exact on all maps over a set of keys and a set of values iff they are clean. */
  lemma DiffExactIffClean(dom: Domain)
    ensures DiffsExactly(dom) <==> Clean(dom)
  {
    if Clean(dom) {
      forall h, a, b, ta, tb, texts | Compared(h, a, b, ta, tb, texts) && Within(a, dom) && Within(b, dom)
        ensures DiffSet(ta, tb) == Differing(a, b)
      {
        DiffIsMapDifference(h, a, b, ta, tb, dom, texts);
      }
    } else if v :| v in dom.values && "" in dom.keys {
      EmptyKeyFails(dom, v);
    } else {
      var k, v, k', v' :| k in dom.keys && v in dom.values && k' in dom.keys && v' in dom.values
        && CutLater(k, v, k', v');
      assert k + "=" + k'[|k| + 1..] == k';
      EqualsFails(dom, k, k'[|k| + 1..], v');
    }
  }

  /** Where values are arbitrary: no key is empty, and none goes on with '=' after another. */
  lemma CleanForAnyValues(dom: Domain)
    requires forall v :: v in dom.values
    ensures Clean(dom) <==> "" !in dom.keys && forall k, k' :: k in dom.keys && k' in dom.keys ==> !(k + "=" <= k')
  {
    assert "" in dom.values;
    forall k, k' | k in dom.keys && k' in dom.keys && k + "=" <= k'
      ensures !Clean(dom)
    {
      assert CutLater(k, k'[|k| + 1..] + "=" + "", k', "");
    }
  }

  const ZEROS := seq(64, _ => '0')

  lemma EmptyKeyFails(dom: Domain, v: string)
    requires "" in dom.keys && v in dom.values
    ensures !DiffsExactly(dom)
  {
    var h: Hash := _ => ZEROS;
    var a, b: KV := map["" := v], map[];
    SingleHashed(h, "", v);
    NoEmptyShape(h);
    assert ShapeOf(L("", v), a);
    assert a != map[] by { assert "" in a; }
    assert Compared(h, a, b, Leaf(h, "", v), EMPTY, {LeafText("", v)});
    EmptyKeyHides(Leaf(h, "", v), EMPTY);
    assert "" in Differing(a, b);
  }

  lemma EqualsFails(dom: Domain, k: string, r: string, v: string)
    requires k in dom.keys && k + "=" + r in dom.keys && v in dom.values && r + "=" + v in dom.values
    ensures !DiffsExactly(dom)
  {
    var h: Hash := _ => ZEROS;
    var k', v' := k + "=" + r, r + "=" + v;
    var a, b: KV := map[k' := v], map[k := v'];
    SingleHashed(h, k', v);
    SingleHashed(h, k, v');
    assert LeafText(k', v) == LeafText(k, v');
    assert a != map[] && b != map[] by { assert k' in a && k in b; }
    assert ShapeOf(L(k', v), a) && ShapeOf(L(k, v'), b);
    var ta, tb := Leaf(h, k', v), Leaf(h, k, v');
    assert Compared(h, a, b, ta, tb, {LeafText(k', v)});
    EqualsHides(h, k, r, v, ta, tb);
  }
}

/** The source's own form: loops over maps, and collectors that fill a map or set they are given. */
module MerkleObject {
  import opened Chains
  import opened StringLists
  import opened MerkleModel
  import P = MerkleProofs

  method BuildTree(h: Hash, kv: KV) returns (t: Node)
    ensures BuiltFrom(h, kv, t)
  {
    hide BuiltFrom, BuildLevel, Leaves, Pairs, Ascending;
    if |kv| == 0 {
      EmptyBuilt(h, kv);
      return EMPTY;
    }
    var keys := Listed(kv.Keys);
    keys := SortStrings(keys);
    var leaves := MakeLeaves(h, kv, keys);
    LevelBuilt(h, kv, keys);
    t := BuildLevel(h, leaves);
  }

  lemma EmptyBuilt(h: Hash, kv: KV)
    requires |kv| == 0
    ensures BuiltFrom(h, kv, EMPTY)
  {
    assert kv == map[];
  }

  lemma LevelBuilt(h: Hash, kv: KV, keys: seq<string>)
    requires |kv| != 0 && Ascending(keys) && forall k :: k in keys <==> k in kv
    ensures |Leaves(h, Pairs(kv, keys))| > 0
    ensures BuiltFrom(h, kv, BuildLevel(h, Leaves(h, Pairs(kv, keys))))
  {
    hide ShapeOf, Split, BuildLevel, NodeOf;
    assert kv != map[];
    var k :| k in kv;
    assert k in keys;
    LevelIsShape(h, Pairs(kv, keys));
    SplitShape(kv, keys);
  }

  method MakeLeaves(h: Hash, kv: KV, keys: seq<string>) returns (leaves: seq<Node>)
    requires forall k :: k in keys ==> k in kv
    ensures leaves == Leaves(h, Pairs(kv, keys)) && forall i :: 0 <= i < |leaves| ==> leaves[i].Node?
  {
    leaves := [];
    for i := 0 to |keys|
      invariant |leaves| == i && forall j :: 0 <= j < i ==> leaves[j] == Leaf(h, keys[j], kv[keys[j]])
    {
      leaves := leaves + [Leaf(h, keys[i], kv[keys[i]])];
    }
  }

  type Pair = (string, string)

  function Pairs(kv: KV, keys: seq<string>): seq<Pair>
    requires forall k :: k in keys ==> k in kv
  {
    seq(|keys|, i requires 0 <= i < |keys| => (keys[i], kv[keys[i]]))
  }

  function Leaves(h: Hash, pairs: seq<Pair>): seq<Node>
  {
    seq(|pairs|, i requires 0 <= i < |pairs| => Leaf(h, pairs[i].0, pairs[i].1))
  }

  function Split(pairs: seq<Pair>): Shape
    requires pairs != []
  {
    if |pairs| == 1 then L(pairs[0].0, pairs[0].1)
    else
      var mid := |pairs| / 2;
      I(Split(pairs[..mid]), Split(pairs[mid..]))
  }

  function Firsts(pairs: seq<Pair>): seq<string>
  {
    seq(|pairs|, i requires 0 <= i < |pairs| => pairs[i].0)
  }

  lemma FirstsSplit(pairs: seq<Pair>, mid: nat)
    requires mid <= |pairs|
    ensures Firsts(pairs) == Firsts(pairs[..mid]) + Firsts(pairs[mid..])
  {
  }

  lemma {:induction false} SplitKeys(pairs: seq<Pair>)
    requires pairs != []
    ensures Keys(Split(pairs)) == Firsts(pairs) && Even(Split(pairs))
  {
    hide Firsts;
    if |pairs| == 1 {
      assert Firsts(pairs) == [pairs[0].0] by { FirstsOne(pairs); }
    } else {
      var mid := |pairs| / 2;
      SplitKeys(pairs[..mid]);
      SplitKeys(pairs[mid..]);
      FirstsSplit(pairs, mid);
      FirstsLength(pairs[..mid]);
      FirstsLength(pairs);
    }
  }

  lemma FirstsOne(pairs: seq<Pair>)
    requires |pairs| == 1
    ensures Firsts(pairs) == [pairs[0].0]
  {
  }

  lemma FirstsLength(pairs: seq<Pair>)
    ensures |Firsts(pairs)| == |pairs|
  {
  }

  lemma {:induction false} SplitValues(pairs: seq<Pair>, kv: KV)
    requires pairs != [] && forall i :: 0 <= i < |pairs| ==> pairs[i].0 in kv && kv[pairs[i].0] == pairs[i].1
    ensures forall k :: k in Values(Split(pairs)) ==> k in kv && Values(Split(pairs))[k] == kv[k]
  {
    if |pairs| > 1 {
      var mid := |pairs| / 2;
      SplitValues(pairs[..mid], kv);
      SplitValues(pairs[mid..], kv);
    }
  }

  lemma SplitShape(kv: KV, keys: seq<string>)
    requires keys != [] && Ascending(keys) && forall k :: k in keys <==> k in kv
    ensures ShapeOf(Split(Pairs(kv, keys)), kv)
  {
    var s := Split(Pairs(kv, keys));
    SplitKeys(Pairs(kv, keys));
    assert Keys(s) == keys;
    SplitValues(Pairs(kv, keys), kv);
    forall k
      ensures k in Values(s) <==> k in kv
    {
      P.KeysAreKeys(s, k);
    }
  }

  lemma {:induction false} LevelIsShape(h: Hash, pairs: seq<Pair>)
    requires pairs != []
    ensures BuildLevel(h, Leaves(h, pairs)) == NodeOf(h, Split(pairs))
  {
    LeavesSplit(h, pairs, |pairs| / 2);
    if |pairs| > 1 {
      hide Leaves;
      var mid := |pairs| / 2;
      LevelIsShape(h, pairs[..mid]);
      LevelIsShape(h, pairs[mid..]);
    }
  }

  lemma LeavesSplit(h: Hash, pairs: seq<Pair>, mid: nat)
    requires mid <= |pairs|
    ensures |Leaves(h, pairs)| == |pairs| && forall i :: 0 <= i < |pairs| ==> Leaves(h, pairs)[i].Node?
    ensures Leaves(h, pairs)[..mid] == Leaves(h, pairs[..mid]) && Leaves(h, pairs)[mid..] == Leaves(h, pairs[mid..])
  {
  }

  /** A map[string]struct{} that callees fill. */
  class KeySet {
    var keys: set<string>

    constructor ()
      ensures keys == {}
    {
      keys := {};
    }
  }

  /** A map[string]string that callees fill. */
  class HashMap {
    var m: KV

    constructor ()
      ensures m == map[]
    {
      m := map[];
    }
  }

  /** collectLeaves and collectKeySet. */
  method CollectKeys(n: Node, out: KeySet)
    modifies out
    ensures out.keys == old(out.keys) + LeafKeys(n)
    decreases n
  {
    if n.Nil? {
      return;
    }
    if IsLeaf(n) {
      out.keys := out.keys + {n.key};
      return;
    }
    CollectKeys(n.left, out);
    CollectKeys(n.right, out);
  }

  method CollectLeafHashes(n: Node, out: HashMap)
    modifies out
    ensures out.m == old(out.m) + LeafHashes(n)
    decreases n
  {
    if n.Nil? {
      return;
    }
    if IsLeaf(n) {
      out.m := out.m[n.key := n.hash];
      return;
    }
    CollectLeafHashes(n.left, out);
    CollectLeafHashes(n.right, out);
  }

  method SameKeys(a: Node, b: Node) returns (same: bool)
    ensures same <==> LeafKeys(a) == LeafKeys(b)
  {
    var ak := new KeySet();
    var bk := new KeySet();
    CollectKeys(a, ak);
    CollectKeys(b, bk);
    if |ak.keys| != |bk.keys| {
      return false;
    }
    var todo := ak.keys;
    while todo != {}
      invariant todo <= ak.keys && ak.keys - todo <= bk.keys
      decreases |todo|
    {
      var k :| k in todo;
      if k !in bk.keys {
        return false;
      }
      todo := todo - {k};
    }
    assert ak.keys <= bk.keys;
    SameSize(ak.keys, bk.keys);
    return true;
  }

  lemma SameSize(a: set<string>, b: set<string>)
    requires a <= b && |a| == |b|
    ensures a == b
  {
    assert b == a + (b - a);
  }

  method Reconcile(a: Node, b: Node, diffs: KeySet)
    modifies diffs
    ensures diffs.keys == old(diffs.keys) + Differing(LeafHashes(a), LeafHashes(b))
  {
    var aLeaves := new HashMap();
    var bLeaves := new HashMap();
    CollectLeafHashes(a, aLeaves);
    CollectLeafHashes(b, bLeaves);
    AddChanged(aLeaves.m, bLeaves.m, diffs);
    AddMissing(aLeaves.m, bLeaves.m, diffs);
  }

  /** The first loop of reconcile. */
  method AddChanged(a: KV, b: KV, diffs: KeySet)
    modifies diffs
    ensures diffs.keys == old(diffs.keys) + (set k | k in a && (k !in b || b[k] != a[k]))
  {
    ghost var before := diffs.keys;
    var todo := a.Keys;
    while todo != {}
      invariant todo <= a.Keys
      invariant forall k :: k in diffs.keys <==> k in before || (k in a && k !in todo && (k !in b || b[k] != a[k]))
      decreases |todo|
    {
      var k :| k in todo;
      if k !in b || b[k] != a[k] {
        diffs.keys := diffs.keys + {k};
      }
      todo := todo - {k};
    }
  }

  /** The second loop of reconcile. */
  method AddMissing(a: KV, b: KV, diffs: KeySet)
    modifies diffs
    ensures diffs.keys == old(diffs.keys) + (set k | k in b && k !in a)
  {
    ghost var before := diffs.keys;
    var todo := b.Keys;
    while todo != {}
      invariant todo <= b.Keys
      invariant forall k :: k in diffs.keys <==> k in before || (k in b && k !in todo && k !in a)
      decreases |todo|
    {
      var k :| k in todo;
      if k !in a {
        diffs.keys := diffs.keys + {k};
      }
      todo := todo - {k};
    }
  }

  method DiffNodes(a: Node, b: Node, diffs: KeySet)
    modifies diffs
    ensures diffs.keys == old(diffs.keys) + DiffSet(a, b)
    decreases a
  {
    hide Differing;
    if a.Nil? && b.Nil? {
      return;
    }
    if a.Node? && b.Node? && a.hash == b.hash {
      return;
    }
    if a.Nil? {
      CollectKeys(b, diffs);
      return;
    }
    if b.Nil? {
      CollectKeys(a, diffs);
      return;
    }
    if !IsLeaf(a) && !IsLeaf(b) {
      var same := SameKeys(a, b);
      if same {
        DiffNodes(a.left, b.left, diffs);
        DiffNodes(a.right, b.right, diffs);
        return;
      }
    }
    Reconcile(a, b, diffs);
  }

  method Diff(a: Node, b: Node) returns (out: seq<string>)
    ensures Ascending(out) && forall k :: k in out <==> k in DiffSet(a, b)
  {
    hide DiffSet;
    var diffs := new KeySet();
    DiffNodes(a, b, diffs);
    out := Listed(diffs.keys);
    out := SortStrings(out);
  }
}
