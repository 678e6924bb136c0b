/** One anti-entropy round over the online replicas (internal/simulation/antientropy.go). */
module AntiEntropyModel {
  import opened Storage
  import opened Lww
  import M = MerkleModel
  import P = MerkleProofs

  type Versions = map<string, Entry>

  /** What each online replica stores. */
  type Replicas = map<NodeId, Versions>

  type Encoding = seq<bv8> -> string

  /** A nil value and an empty one look the same. */
  function Bytes(v: Value): seq<bv8>
  {
    if v.Some? then v.value else []
  }

  function ReprOf(enc: Encoding, e: Entry): string
  {
    if e.tombstone then "<tomb>" else enc(Bytes(e.value))
  }

  /** mapRepr: key to visible content. */
  function Repr(enc: Encoding, store: Versions): M.KV
  {
    map k | k in store :: ReprOf(enc, store[k])
  }

  /** Base64 is injective and spells none of the markers. */
  ghost predicate GoodEncoding(enc: Encoding)
  {
    && (forall x, y :: enc(x) == enc(y) ==> x == y)
    && (forall x :: enc(x) !in MARKERS)
  }

  const MARKERS := {"<tomb>", "<tombstone>", "<absent>"}

  /** Two stored versions show a reader the same thing. */
  predicate SameVisible(a: Entry, b: Entry)
  {
    a.tombstone == b.tombstone && (a.tombstone || Bytes(a.value) == Bytes(b.value))
  }

  ghost predicate SameAt(a: Versions, b: Versions, key: string)
  {
    (key in a <==> key in b) && (key in a && key in b ==> SameVisible(a[key], b[key]))
  }

  // ---------------------------------------------------------------- what the round does

  /** A greatest version of the key among the replicas. */
  ghost predicate IsNewest(rs: Replicas, key: string, e: Entry)
  {
    && (exists id :: id in rs && key in rs[id] && rs[id][key] == e)
    && (forall id :: id in rs && key in rs[id] ==> AtMost(rs[id][key], e))
  }

  function Raised(store: Versions, key: string, e: Entry): Entry
  {
    if key !in store || Older(store[key], e) then e else store[key]
  }

  ghost predicate ColumnKept(rs: Replicas, rs': Replicas, key: string)
  {
    forall id :: id in rs ==>
      id in rs' && (key in rs[id] <==> key in rs'[id]) && (key in rs[id] ==> rs'[id][key] == rs[id][key])
  }

  /** Every replica ends with the newest version of the key, unless it has one as new. */
  ghost predicate RaisedTo(rs: Replicas, rs': Replicas, key: string, e: Entry)
  {
    IsNewest(rs, key, e) &&
    forall id :: id in rs ==> id in rs' && key in rs'[id] && rs'[id][key] == Raised(rs[id], key, e)
  }

  ghost predicate Absent(rs: Replicas, key: string)
  {
    forall id :: id in rs ==> key !in rs[id]
  }

  ghost predicate ColumnRepaired(rs: Replicas, rs': Replicas, key: string)
  {
    if Absent(rs, key) then ColumnKept(rs, rs', key) else exists e :: RaisedTo(rs, rs', key, e)
  }

  ghost predicate Repaired(rs: Replicas, rs': Replicas, divergent: set<string>)
  {
    && rs'.Keys == rs.Keys
    && (forall key :: key in divergent ==> ColumnRepaired(rs, rs', key))
    && (forall key :: key !in divergent ==> ColumnKept(rs, rs', key))
  }

  /** The keys on which some replica's tree differs from the reference's. */
  ghost predicate DivergentFrom(enc: Encoding, rs: Replicas, ref: NodeId, divergent: set<string>)
    requires ref in rs
  {
    forall key :: key in divergent <==>
      exists id :: id in rs && key in M.Differing(Repr(enc, rs[ref]), Repr(enc, rs[id]))
  }

  // ---------------------------------------------------------------- what it achieves

  /** All replicas show the same for every key. */
  ghost predicate Agree(rs: Replicas)
  {
    forall id, id', key :: id in rs && id' in rs ==> SameAt(rs[id], rs[id'], key)
  }

  /** Newest versions of one key, if there are several, show the same. */
  ghost predicate NewestAgree(rs: Replicas)
  {
    forall id, id', key :: HoldsNewest(rs, id, key) && HoldsNewest(rs, id', key) ==>
      SameVisible(rs[id][key], rs[id'][key])
  }

  ghost predicate HoldsNewest(rs: Replicas, id: NodeId, key: string)
  {
    id in rs && key in rs[id] && IsNewest(rs, key, rs[id][key])
  }

  /** Diffing against one reference, whichever it is, finds every key on which any two replicas differ. */
  lemma ReferenceFindsAll(enc: Encoding, rs: Replicas, ref: NodeId, divergent: set<string>, id: NodeId, id': NodeId,
      key: string)
    requires GoodEncoding(enc) && ref in rs && DivergentFrom(enc, rs, ref, divergent) && id in rs && id' in rs
    requires !SameAt(rs[id], rs[id'], key)
    ensures key in divergent
  {
  }

  lemma RaisedStamp(rs: Replicas, key: string, e: Entry, id: NodeId)
    requires IsNewest(rs, key, e) && id in rs
    ensures SameStamp(Raised(rs[id], key, e), e)
    ensures key in rs[id] ==> AtMost(rs[id][key], Raised(rs[id], key, e))
  {
  }

  /** What a replica ends with is a newest version that some replica held. */
  lemma RaisedIsNewest(rs: Replicas, key: string, e: Entry, id: NodeId) returns (owner: NodeId)
    requires IsNewest(rs, key, e) && id in rs
    ensures HoldsNewest(rs, owner, key) && rs[owner][key] == Raised(rs[id], key, e)
    ensures HoldsNewest(rs, id, key) ==> owner == id
  {
    if key in rs[id] && !Older(rs[id][key], e) {
      owner := id;
      forall j | j in rs && key in rs[j]
        ensures AtMost(rs[j][key], rs[id][key])
      {
        StampsOrdered(rs[id][key], e);
        AtMostTransitive(rs[j][key], e, rs[id][key]);
      }
    } else {
      owner :| owner in rs && key in rs[owner] && rs[owner][key] == e;
      if key in rs[id] {
        StampsOrdered(rs[id][key], e);
      }
    }
  }

  /** Where newest versions agree, one undisturbed round makes all replicas show the same. */
  lemma RoundAgrees(enc: Encoding, rs: Replicas, rs': Replicas, ref: NodeId, divergent: set<string>,
                    id: NodeId, id': NodeId, key: string)
    requires GoodEncoding(enc) && NewestAgree(rs) && ref in rs
    requires DivergentFrom(enc, rs, ref, divergent) && Repaired(rs, rs', divergent) && id in rs' && id' in rs'
    ensures SameAt(rs'[id], rs'[id'], key)
  {
    hide GoodEncoding, DivergentFrom, NewestAgree, IsNewest, Raised;
    assert id in rs.Keys && id' in rs.Keys;
    if key !in divergent {
      if !SameAt(rs[id], rs[id'], key) {
        ReferenceFindsAll(enc, rs, ref, divergent, id, id', key);
      }
      assert ColumnKept(rs, rs', key);
    } else if Absent(rs, key) {
      assert ColumnRepaired(rs, rs', key);
    } else {
      assert ColumnRepaired(rs, rs', key);
      var e :| RaisedTo(rs, rs', key, e);
      var o := RaisedIsNewest(rs, key, e, id);
      var o' := RaisedIsNewest(rs, key, e, id');
      UseNewestAgree(rs, o, o', key);
    }
  }

  lemma UseNewestAgree(rs: Replicas, id: NodeId, id': NodeId, key: string)
    requires NewestAgree(rs) && HoldsNewest(rs, id, key) && HoldsNewest(rs, id', key)
    ensures SameVisible(rs[id][key], rs[id'][key])
  {
  }

  /** A round leaves every newest version where it is. */
  lemma NewestStays(rs: Replicas, rs': Replicas, divergent: set<string>, id: NodeId, key: string)
    requires Repaired(rs, rs', divergent) && HoldsNewest(rs, id, key)
    ensures id in rs' && key in rs'[id] && rs'[id][key] == rs[id][key]
  {
    hide IsNewest, Raised;
    if key in divergent {
      assert ColumnRepaired(rs, rs', key);
      var e :| RaisedTo(rs, rs', key, e);
      var _ := RaisedIsNewest(rs, key, e, id);
    } else {
      assert ColumnKept(rs, rs', key);
    }
  }

  /** One undisturbed round makes all online replicas show the same iff the newest versions of each key did. */
  lemma RoundConverges(enc: Encoding, rs: Replicas, rs': Replicas, ref: NodeId, divergent: set<string>)
    requires GoodEncoding(enc) && ref in rs
    requires DivergentFrom(enc, rs, ref, divergent) && Repaired(rs, rs', divergent)
    ensures Agree(rs') <==> NewestAgree(rs)
  {
    hide GoodEncoding, DivergentFrom, Repaired, IsNewest, SameVisible;
    if NewestAgree(rs) {
      forall id, id', key | id in rs' && id' in rs'
        ensures SameAt(rs'[id], rs'[id'], key)
      {
        RoundAgrees(enc, rs, rs', ref, divergent, id, id', key);
      }
    }
    if Agree(rs') {
      forall id, id', key | HoldsNewest(rs, id, key) && HoldsNewest(rs, id', key)
        ensures SameVisible(rs[id][key], rs[id'][key])
      {
        NewestStays(rs, rs', divergent, id, key);
        NewestStays(rs, rs', divergent, id', key);
        assert SameAt(rs'[id], rs'[id'], key);
      }
    }
  }

  /** With fewer than two replicas there is nothing to disagree on. */
  lemma AloneAgrees(rs: Replicas)
    requires |rs| < 2
    ensures Agree(rs) && NewestAgree(rs)
  {
    forall id, id' | id in rs && id' in rs
      ensures id == id'
    {
      if id != id' {
        TwoAtLeast(rs.Keys, id, id');
      }
    }
  }

  lemma TwoAtLeast<T>(s: set<T>, x: T, y: T)
    requires x in s && y in s && x != y
    ensures |s| >= 2
  {
    assert |s - {x}| == |s| - 1 && y in s - {x};
  }

  /** No replica loses a key or goes back to an older version. */
  lemma RoundNeverDecreases(rs: Replicas, rs': Replicas, divergent: set<string>, id: NodeId, key: string)
    requires Repaired(rs, rs', divergent) && id in rs && key in rs[id]
    ensures id in rs' && key in rs'[id] && AtMost(rs[id][key], rs'[id][key])
  {
    hide IsNewest, Raised;
    if key in divergent {
      assert ColumnRepaired(rs, rs', key);
      var e :| RaisedTo(rs, rs', key, e);
      RaisedStamp(rs, key, e, id);
    } else {
      assert ColumnKept(rs, rs', key);
    }
  }

  // ---------------------------------------------------------------- one key after the other

  lemma KeptThenRepaired(rs: Replicas, mid: Replicas, rs': Replicas, key: string)
    requires rs.Keys == mid.Keys == rs'.Keys && ColumnKept(rs, mid, key) && ColumnRepaired(mid, rs', key)
    ensures ColumnRepaired(rs, rs', key)
  {
    hide Raised, AtMost;
    assert forall id :: id in rs <==> id in mid.Keys;
    assert forall id :: id in rs <==> id in rs'.Keys;
    if Absent(mid, key) {
      assert Absent(rs, key);
    } else {
      var e :| RaisedTo(mid, rs', key, e);
      NewestKept(rs, mid, key, e);
      forall id | id in rs
        ensures Raised(mid[id], key, e) == Raised(rs[id], key, e)
      {
        SameRaise(rs[id], mid[id], key, e);
      }
      assert RaisedTo(rs, rs', key, e);
    }
  }

  lemma NewestKept(rs: Replicas, mid: Replicas, key: string, e: Entry)
    requires rs.Keys == mid.Keys && ColumnKept(rs, mid, key) && IsNewest(mid, key, e)
    ensures IsNewest(rs, key, e) && !Absent(rs, key)
  {
  }

  lemma SameRaise(a: Versions, b: Versions, key: string, e: Entry)
    requires (key in a <==> key in b) && (key in a ==> b[key] == a[key])
    ensures Raised(a, key, e) == Raised(b, key, e)
  {
  }

  lemma RepairedThenKept(rs: Replicas, mid: Replicas, rs': Replicas, key: string)
    requires rs.Keys == mid.Keys == rs'.Keys && ColumnRepaired(rs, mid, key) && ColumnKept(mid, rs', key)
    ensures ColumnRepaired(rs, rs', key)
  {
    hide Raised, IsNewest;
    assert forall id :: id in rs <==> id in mid.Keys;
    if !Absent(rs, key) {
      var e :| RaisedTo(rs, mid, key, e);
      assert RaisedTo(rs, rs', key, e);
    }
  }

  lemma KeptThenKept(rs: Replicas, mid: Replicas, rs': Replicas, key: string)
    requires rs.Keys == mid.Keys == rs'.Keys && ColumnKept(rs, mid, key) && ColumnKept(mid, rs', key)
    ensures ColumnKept(rs, rs', key)
  {
    assert forall id :: id in rs <==> id in mid.Keys;
  }

  ghost predicate KeyRepaired(rs: Replicas, rs': Replicas, key: string)
  {
    rs'.Keys == rs.Keys && ColumnRepaired(rs, rs', key) && forall other :: other != key ==> ColumnKept(rs, rs', other)
  }

  lemma RepairOneMore(rs: Replicas, mid: Replicas, rs': Replicas, done: set<string>, key: string)
    requires Repaired(rs, mid, done) && key !in done && KeyRepaired(mid, rs', key)
    ensures Repaired(rs, rs', done + {key})
  {
    hide ColumnRepaired, ColumnKept;
    forall k
      ensures k in done + {key} ==> ColumnRepaired(rs, rs', k)
      ensures k !in done + {key} ==> ColumnKept(rs, rs', k)
    {
      if k == key {
        KeptThenRepaired(rs, mid, rs', k);
      } else if k in done {
        RepairedThenKept(rs, mid, rs', k);
      } else {
        KeptThenKept(rs, mid, rs', k);
      }
    }
  }

  // ---------------------------------------------------------------- counting repairs

  predicate DiffersAt(store: Versions, store': Versions, key: string)
  {
    key in store' && (key !in store || store'[key] != store[key])
  }

  /** The replicas on which the key changed. */
  ghost function ChangedAt(rs: Replicas, rs': Replicas, key: string): set<NodeId>
  {
    set id | id in rs && id in rs' && DiffersAt(rs[id], rs'[id], key)
  }

  ghost function AllKeys(rs: Replicas): set<string>
  {
    set id, key | id in rs && key in rs[id] :: key
  }

  /** The copies that changed. */
  ghost function Changed(rs: Replicas, rs': Replicas, keys: set<string>): set<(NodeId, string)>
  {
    set id, key | id in rs && id in rs' && key in keys && DiffersAt(rs[id], rs'[id], key) :: (id, key)
  }

  ghost function Copies(ids: set<NodeId>, key: string): set<(NodeId, string)>
  {
    set id | id in ids :: (id, key)
  }

  lemma {:induction false} CopiesCount(ids: set<NodeId>, key: string)
    ensures |Copies(ids, key)| == |ids|
  {
    if ids != {} {
      var id :| id in ids;
      CopiesCount(ids - {id}, key);
      assert Copies(ids, key) == Copies(ids - {id}, key) + {(id, key)};
    }
  }

  lemma ChangedOneMore(rs: Replicas, mid: Replicas, rs': Replicas, done: set<string>, key: string)
    requires Repaired(rs, mid, done) && key !in done && KeyRepaired(mid, rs', key)
    ensures Changed(rs, rs', done + {key}) == Changed(rs, mid, done) + Copies(ChangedAt(mid, rs', key), key)
    ensures |Changed(rs, rs', done + {key})| == |Changed(rs, mid, done)| + |ChangedAt(mid, rs', key)|
  {
    hide ColumnRepaired;
    var all, before, now := Changed(rs, rs', done + {key}), Changed(rs, mid, done),
      Copies(ChangedAt(mid, rs', key), key);
    assert rs.Keys == mid.Keys == rs'.Keys;
    assert forall id :: id in rs <==> id in mid.Keys;
    forall id, k | id in rs
      ensures k == key ==> ((id, k) in all <==> (id, k) in now)
      ensures k in done ==> ((id, k) in all <==> (id, k) in before)
    {
      assert id in mid && id in rs';
      if k == key {
        assert ColumnKept(rs, mid, key);
      } else {
        assert ColumnKept(mid, rs', k);
      }
    }
    assert all == before + now;
    assert before !! now;
    CopiesCount(ChangedAt(mid, rs', key), key);
  }

  // ---------------------------------------------------------------- the trees

  /** These keys, and everything a value can be shown as. */
  ghost function Encoded(enc: Encoding, keys: iset<string>): P.Domain
  {
    P.Domain(keys, iset e: Entry | true :: ReprOf(enc, e))
  }

  ghost function Shared(enc: Encoding, rs: Replicas): P.Domain
  {
    Encoded(enc, iset id, key | id in rs && key in rs[id] :: key)
  }

  /** Text with '=' only as padding at its end. */
  ghost predicate PaddedText(v: string)
  {
    (v == "" || v[0] != '=') && forall i, j :: 0 <= i < j < |v| && v[i] == '=' ==> v[j] == '='
  }

  /** Base64 pads, and encodes nothing as nothing. */
  ghost predicate Padding(enc: Encoding)
  {
    enc([]) == "" && forall x :: PaddedText(enc(x))
  }

  /** A key that is another key with an encoded value, but for the last '=' of its padding. */
  ghost predicate Mimics(enc: Encoding, k: string, k': string)
  {
    exists x :: enc(x) != "" && k' + "=" == k + "=" + enc(x)
  }

  /** Over encoded values the trees are exact iff no key is empty and none is another key with a padded value. */
  lemma RoundExactIff(enc: Encoding, keys: iset<string>)
    requires Padding(enc)
    ensures P.DiffsExactly(Encoded(enc, keys)) <==>
      "" !in keys && forall k, k' :: k in keys && k' in keys ==> !Mimics(enc, k, k')
  {
    hide P.DiffsExactly;
    var dom := Encoded(enc, keys);
    P.DiffExactIffClean(dom);
    EmptyShown(enc, keys);
    forall k, k' | k in keys && k' in keys && Mimics(enc, k, k')
      ensures !P.Clean(dom)
    {
      MimicCollides(enc, keys, k, k');
    }
    forall k, v, k', v' | k in keys && k' in keys && v in dom.values && v' in dom.values && P.CutLater(k, v, k', v')
      ensures Mimics(enc, k, k')
    {
      CollisionMimics(enc, keys, k, v, k', v');
    }
  }

  lemma EmptyShown(enc: Encoding, keys: iset<string>)
    requires Padding(enc)
    ensures "" in Encoded(enc, keys).values
  {
    assert ReprOf(enc, Entry(None, map[], 0, NOBODY, false)) == "";
  }

  lemma MimicCollides(enc: Encoding, keys: iset<string>, k: string, k': string)
    requires Padding(enc) && k in keys && k' in keys && Mimics(enc, k, k')
    ensures !P.Clean(Encoded(enc, keys))
  {
    var x :| enc(x) != "" && k' + "=" == k + "=" + enc(x);
    var v := enc(x);
    assert ReprOf(enc, Entry(Some(x), map[], 0, NOBODY, false)) == v;
    EmptyShown(enc, keys);
    assert k' == (k' + "=")[..|k'|] == k + "=" + v[..|v| - 1];
    assert v == v[..|v| - 1] + [v[|v| - 1]] && v[|v| - 1] == (k' + "=")[|k'|];
    assert P.CutLater(k, v, k', "");
  }

  lemma AfterPadding(v: string, r: string, v': string)
    requires PaddedText(v) && v == r + "=" + v' && v' != ""
    ensures v'[0] == '='
  {
    assert v[|r|] == '=' && v[|r| + 1] == v'[0];
  }

  lemma CollisionMimics(enc: Encoding, keys: iset<string>, k: string, v: string, k': string, v': string)
    requires Padding(enc) && P.CutLater(k, v, k', v')
    requires v in Encoded(enc, keys).values && v' in Encoded(enc, keys).values
    ensures Mimics(enc, k, k')
  {
    var e: Entry :| ReprOf(enc, e) == v;
    var e': Entry :| ReprOf(enc, e') == v';
    var r := k'[|k| + 1..];
    assert v[|r|] == '=';
    assert "<tomb>"[0] != '=' && '=' !in "<tomb>";
    assert v == enc(Bytes(e.value));
    if v' != "" {
      AfterPadding(v, r, v');
    }
    assert k' + "=" == k + "=" + v;
  }

  lemma ReprWithin(enc: Encoding, rs: Replicas, id: NodeId)
    requires id in rs
    ensures P.Within(Repr(enc, rs[id]), Shared(enc, rs))
  {
  }

  /** The hash can be trusted on everything hashed this round, and no key and encoded value reads as another. */
  ghost predicate Trusted(h: M.Hash, enc: Encoding, rs: Replicas, texts: set<string>)
  {
    && P.GoodHash(h, texts) && P.Clean(Shared(enc, rs))
    && forall id :: id in rs ==> P.HashedFor(h, Repr(enc, rs[id]), texts)
  }

  ghost predicate TreesOf(h: M.Hash, enc: Encoding, rs: Replicas, trees: map<NodeId, M.Node>)
  {
    trees.Keys == rs.Keys && forall id :: id in rs ==> M.BuiltFrom(h, Repr(enc, rs[id]), trees[id])
  }

  ghost predicate DiffedAgainst(trees: map<NodeId, M.Node>, ref: NodeId, others: set<NodeId>, divergent: set<string>)
    requires ref in trees && others <= trees.Keys
  {
    forall key :: key in divergent <==> exists id :: id in others && key in M.DiffSet(trees[ref], trees[id])
  }

  lemma TreesFindDifferences(h: M.Hash, enc: Encoding, rs: Replicas, texts: set<string>, trees: map<NodeId, M.Node>,
      ref: NodeId, divergent: set<string>)
    requires Trusted(h, enc, rs, texts) && TreesOf(h, enc, rs, trees) && ref in rs
    requires DiffedAgainst(trees, ref, trees.Keys - {ref}, divergent)
    ensures DivergentFrom(enc, rs, ref, divergent)
  {
    hide Repr, M.BuiltFrom, P.GoodHash, P.Clean, P.HashedFor, M.DiffSet, M.Differing;
    forall id | id in rs
      ensures M.DiffSet(trees[ref], trees[id]) == M.Differing(Repr(enc, rs[ref]), Repr(enc, rs[id]))
    {
      ReprWithin(enc, rs, ref);
      ReprWithin(enc, rs, id);
      P.DiffIsMapDifference(h, Repr(enc, rs[ref]), Repr(enc, rs[id]), trees[ref], trees[id], Shared(enc, rs), texts);
    }
    P.NoDifference(Repr(enc, rs[ref]));
    forall key
      ensures key in divergent <==> exists id :: id in rs && key in M.Differing(Repr(enc, rs[ref]), Repr(enc, rs[id]))
    {
      if id :| id in rs && key in M.Differing(Repr(enc, rs[ref]), Repr(enc, rs[id])) {
        assert id in rs.Keys;
        assert id in trees.Keys - {ref} && key in M.DiffSet(trees[ref], trees[id]);
      }
    }
  }
}

module AntiEntropyObject {
  import opened Storage
  import opened StoreObject
  import opened StoredVersions
  import opened Lww
  import A = AntiEntropyModel
  import M = MerkleModel
  import Merkle = MerkleObject
  import opened Chains

  type Online = map<NodeId, Store>

  /** Every replica has its own store. */
  ghost predicate Separate(online: Online)
  {
    forall id, id' :: id in online && id' in online && id != id' ==> online[id] != online[id']
  }

  ghost predicate Ready(online: Online)
    reads online.Values
  {
    Separate(online) && forall id :: id in online ==> online[id].Valid()
  }

  ghost function View(online: Online): A.Replicas
    reads online.Values
  {
    map id | id in online :: Versions(online[id].data)
  }

  method MapRepr(enc: A.Encoding, store: Store) returns (out: M.KV)
    ensures out == A.Repr(enc, Versions(store.data))
  {
    out := map[];
    var todo := store.data.Keys;
    while todo != {}
      invariant todo <= store.data.Keys && out.Keys == store.data.Keys - todo
      invariant forall k :: k in out ==> out[k] == A.ReprOf(enc, Content(store.data[k]))
      decreases |todo|
    {
      var k :| k in todo;
      var raw := store.GetRaw(k);
      if raw.value.tombstone {
        out := out[k := "<tomb>"];
      } else {
        out := out[k := enc(A.Bytes(raw.value.value))];
      }
      todo := todo - {k};
    }
  }

  method NewestEntry(online: Online, key: string) returns (best: Option<KVEntry>)
    requires Ready(online)
    ensures best.None? ==> A.Absent(View(online), key)
    ensures best.Some? ==> A.IsNewest(View(online), key, Content(best.value)) && best.value.key == key
  {
    best := None;
    var todo := online.Keys;
    while todo != {}
      invariant todo <= online.Keys
      invariant best.None? ==> forall id :: id in online && id !in todo ==> key !in online[id].data
      invariant best.Some? ==> best.value.key == key
      invariant best.Some? ==>
        exists id :: id in online && key in online[id].data && online[id].data[key] == best.value
      invariant best.Some? ==> forall id :: id in online && id !in todo && key in online[id].data ==>
        AtMost(Content(online[id].data[key]), Content(best.value))
      decreases |todo|
    {
      var id :| id in todo;
      var raw := online[id].GetRaw(key);
      if raw.Some? {
        if best.None? {
          best := raw;
        } else {
          StampsOrdered(Content(best.value), Content(raw.value));
          if Wins(Content(raw.value), Content(best.value)) {
            Climb(online, key, best.value, raw.value);
            best := raw;
          }
        }
      }
      todo := todo - {id};
    }
    if best.Some? {
      var id :| id in online && key in online[id].data && online[id].data[key] == best.value;
      assert View(online)[id][key] == Content(best.value);
    }
  }

  lemma Climb(online: Online, key: string, low: KVEntry, high: KVEntry)
    requires AtMost(Content(low), Content(high))
    ensures forall id ::
      id in online && key in online[id].data && AtMost(Content(online[id].data[key]), Content(low)) ==>
      AtMost(Content(online[id].data[key]), Content(high))
  {
    forall id | id in online && key in online[id].data && AtMost(Content(online[id].data[key]), Content(low))
      ensures AtMost(Content(online[id].data[key]), Content(high))
    {
      AtMostTransitive(Content(online[id].data[key]), Content(low), Content(high));
    }
  }

  // ---------------------------------------------------------------- the round

  predicate Behind(store: A.Versions, key: string, e: Entry)
  {
    key !in store || Older(store[key], e)
  }

  function Lifted(store: A.Versions, key: string, e: Entry): A.Versions
  {
    if Behind(store, key, e) then store[key := e] else store
  }

  lemma LiftedDiffers(store: A.Versions, key: string, e: Entry)
    ensures A.DiffersAt(store, Lifted(store, key, e), key) <==> Behind(store, key, e)
  {
    if key in store {
      StampsOrdered(store[key], e);
      StampsOrdered(e, e);
    }
  }

  lemma StaleAreChanged(rs: A.Replicas, rs': A.Replicas, key: string, e: Entry, stale: set<NodeId>)
    requires rs'.Keys == rs.Keys && stale <= rs.Keys
    requires forall id :: id in rs ==> rs'[id] == Lifted(rs[id], key, e) && (id in stale <==> Behind(rs[id], key, e))
    ensures A.ChangedAt(rs, rs', key) == stale
  {
    hide Lifted, Behind, A.DiffersAt;
    assert forall id :: id in rs <==> id in rs'.Keys;
    forall id | id in rs
      ensures A.DiffersAt(rs[id], rs'[id], key) <==> Behind(rs[id], key, e)
    {
      LiftedDiffers(rs[id], key, e);
    }
  }

  /** Sets the newest version on a replica, if its own is stale. */
  method RepairReplica(store: Store, best: KVEntry) returns (stale: bool)
    requires store.Valid()
    modifies store
    ensures store.Valid() && Settled(old(Versions(store.data)), Versions(store.data), best, stale)
  {
    var raw := store.GetRaw(best.key);
    stale := raw.None? || raw.value.timestamp < best.timestamp
      || (raw.value.timestamp == best.timestamp && S.Less(raw.value.nodeId.name, best.nodeId.name));
    if stale {
      VersionsAfterSet(store.data, store.version, best);
      store.Set(best);
    }
  }

  predicate Settled(store: A.Versions, store': A.Versions, best: KVEntry, stale: bool)
  {
    store' == Lifted(store, best.key, Content(best)) && (stale <==> Behind(store, best.key, Content(best)))
  }

  /** Sets the newest version on every stale replica. */
  method RepairReplicas(online: Online, best: KVEntry) returns (count: nat, ghost stale: set<NodeId>)
    requires Ready(online)
    modifies online.Values
    ensures Ready(online) && count == |stale| && stale <= online.Keys
    ensures forall id :: id in online ==>
      Settled(old(Versions(online[id].data)), Versions(online[id].data), best, id in stale)
  {
    hide Settled, Versions, Content, Separate, Filed;
    count, stale := 0, {};
    var todo := online.Keys;
    while todo != {}
      invariant forall id :: id in online ==> online[id].Valid()
      invariant todo <= online.Keys && stale <= online.Keys && stale !! todo && count == |stale|
      invariant forall id :: id in todo ==> online[id].data == old(online[id].data)
      invariant forall id :: id in online && id !in todo ==>
        Settled(old(Versions(online[id].data)), Versions(online[id].data), best, id in stale)
      decreases |todo|
    {
      var id :| id in todo;
      label L:
      var late := RepairReplica(online[id], best);
      forall j | j in online && j != id
        ensures online[j].data == old@L(online[j].data)
      {
        OwnStore(online, id, j);
      }
      if late {
        count, stale := count + 1, stale + {id};
      }
      todo := todo - {id};
    }
  }

  lemma OwnStore(online: Online, id: NodeId, j: NodeId)
    requires Separate(online) && id in online && j in online && id != j
    ensures online[id] != online[j]
  {
  }

  /** One divergent key. */
  method RepairKey(online: Online, key: string) returns (count: nat)
    requires Ready(online)
    modifies online.Values
    ensures Ready(online) && A.KeyRepaired(old(View(online)), View(online), key)
    ensures count == |A.ChangedAt(old(View(online)), View(online), key)|
  {
    hide A.KeyRepaired, A.IsNewest, A.Absent, Lifted, Versions, Behind, A.ChangedAt;
    count := 0;
    var best := NewestEntry(online, key);
    ghost var before := View(online);
    if best.None? {
      NothingToRepair(before, key);
      return;
    }
    ghost var stale;
    count, stale := RepairReplicas(online, best.value);
    StaleAreChanged(before, View(online), key, Content(best.value), stale);
    LiftedRepairs(before, View(online), key, Content(best.value));
  }

  lemma NothingToRepair(rs: A.Replicas, key: string)
    requires A.Absent(rs, key)
    ensures A.KeyRepaired(rs, rs, key) && A.ChangedAt(rs, rs, key) == {}
  {
  }

  lemma LiftedRepairs(rs: A.Replicas, rs': A.Replicas, key: string, e: Entry)
    requires rs'.Keys == rs.Keys && A.IsNewest(rs, key, e)
    requires forall id :: id in rs ==> rs'[id] == Lifted(rs[id], key, e)
    ensures A.KeyRepaired(rs, rs', key)
  {
    assert forall id :: id in rs ==> id in rs'.Keys;
    assert A.RaisedTo(rs, rs', key, e);
    var owner :| owner in rs && key in rs[owner] && rs[owner][key] == e;
    assert !A.Absent(rs, key);
  }

  /** A tree for every replica. */
  method BuildTrees(h: M.Hash, enc: A.Encoding, online: Online)
      returns (trees: map<NodeId, M.Node>, allKeys: set<string>)
    requires Ready(online)
    ensures A.TreesOf(h, enc, View(online), trees)
    ensures allKeys == A.AllKeys(View(online))
  {
    hide M.BuiltFrom, A.Repr;
    trees, allKeys := map[], {};
    var todo := online.Keys;
    while todo != {}
      invariant todo <= online.Keys && trees.Keys == online.Keys - todo
      invariant forall id :: id in trees ==> M.BuiltFrom(h, A.Repr(enc, View(online)[id]), trees[id])
      invariant forall key :: key in allKeys <==>
        exists id :: id in View(online) && id !in todo && key in View(online)[id]
      decreases |todo|
    {
      var id :| id in todo;
      var repr := MapRepr(enc, online[id]);
      var t := Merkle.BuildTree(h, repr);
      trees := trees[id := t];
      ReprKeys(enc, Versions(online[id].data));
      allKeys := allKeys + repr.Keys;
      todo := todo - {id};
    }
  }

  lemma ReprKeys(enc: A.Encoding, store: A.Versions)
    ensures A.Repr(enc, store).Keys == store.Keys
  {
  }

  /** Every other tree is diffed against an arbitrary one. */
  method DiffTrees(trees: map<NodeId, M.Node>) returns (ref: NodeId, divergent: set<string>)
    requires |trees| > 0
    ensures ref in trees && A.DiffedAgainst(trees, ref, trees.Keys - {ref}, divergent)
  {
    hide M.DiffSet;
    ref :| ref in trees;
    divergent := {};
    var todo := trees.Keys - {ref};
    ghost var done := {};
    while todo != {}
      invariant todo !! done && todo + done == trees.Keys - {ref}
      invariant A.DiffedAgainst(trees, ref, done, divergent)
      decreases |todo|
    {
      var id :| id in todo;
      var ks := Merkle.Diff(trees[ref], trees[id]);
      divergent := divergent + (set k | k in ks);
      todo, done := todo - {id}, done + {id};
    }
  }

  method RepairAll(online: Online, divergent: set<string>) returns (reconciled: nat)
    requires Ready(online)
    modifies online.Values
    ensures Ready(online) && A.Repaired(old(View(online)), View(online), divergent)
    ensures reconciled == |A.Changed(old(View(online)), View(online), divergent)|
  {
    hide A.Repaired, A.KeyRepaired, A.Changed, A.ChangedAt;
    reconciled := 0;
    ghost var before := View(online);
    NoneRepaired(before);
    var todo := divergent;
    ghost var done := {};
    while todo != {}
      invariant Ready(online) && todo !! done && todo + done == divergent
      invariant A.Repaired(before, View(online), done)
      invariant reconciled == |A.Changed(before, View(online), done)|
      decreases |todo|
    {
      var key :| key in todo;
      ghost var mid := View(online);
      var n := RepairKey(online, key);
      A.RepairOneMore(before, mid, View(online), done, key);
      A.ChangedOneMore(before, mid, View(online), done, key);
      reconciled := reconciled + n;
      todo, done := todo - {key}, done + {key};
    }
  }

  lemma NoneRepaired(rs: A.Replicas)
    ensures A.Repaired(rs, rs, {}) && A.Changed(rs, rs, {}) == {}
  {
  }

  // ---------------------------------------------------------------- the convergence check

  /** nodeValueRepr. */
  function Shown(enc: A.Encoding, store: A.Versions, key: string): string
  {
    if key !in store then "<absent>"
    else if store[key].tombstone then "<tombstone>"
    else enc(A.Bytes(store[key].value))
  }

  lemma ShownDecides(enc: A.Encoding, a: A.Versions, b: A.Versions, key: string)
    requires A.GoodEncoding(enc)
    ensures Shown(enc, a, key) == Shown(enc, b, key) <==> A.SameAt(a, b, key)
  {
    assert "<absent>" in A.MARKERS && "<tombstone>" in A.MARKERS;
  }

  ghost predicate ShownAlike(enc: A.Encoding, rs: A.Replicas, key: string)
  {
    forall id, id' :: id in rs && id' in rs ==> Shown(enc, rs[id], key) == Shown(enc, rs[id'], key)
  }

  method KeyDiverged(enc: A.Encoding, online: Online, key: string) returns (diverged: bool)
    requires Ready(online)
    ensures diverged <==> !ShownAlike(enc, View(online), key)
  {
    hide Shown;
    diverged := false;
    var first: Option<string> := None;
    ghost var ref := NOBODY;
    var todo := online.Keys;
    while todo != {}
      invariant todo <= online.Keys && (first.None? ==> todo == online.Keys && !diverged)
      invariant first.Some? ==> ref in online && first.value == Shown(enc, View(online)[ref], key)
      invariant first.Some? && !diverged ==>
        forall id :: id in online && id !in todo ==> Shown(enc, View(online)[id], key) == first.value
      invariant diverged ==> !ShownAlike(enc, View(online), key)
      decreases |todo|
    {
      var id :| id in todo;
      var v := ValueRepr(enc, online[id], key);
      if first.None? {
        first, ref := Some(v), id;
      } else if v != first.value {
        assert View(online)[id] == Versions(online[id].data);
        diverged := true;
      }
      todo := todo - {id};
    }
  }

  method ValueRepr(enc: A.Encoding, store: Store, key: string) returns (v: string)
    ensures v == Shown(enc, Versions(store.data), key)
  {
    var raw := store.GetRaw(key);
    if raw.None? {
      return "<absent>";
    }
    if raw.value.tombstone {
      return "<tombstone>";
    }
    return enc(A.Bytes(raw.value.value));
  }

  /** A key nobody has is shown alike. */
  lemma AbsentAlike(enc: A.Encoding, rs: A.Replicas, key: string)
    requires key !in A.AllKeys(rs)
    ensures ShownAlike(enc, rs, key)
  {
  }

  lemma AlikeIsAgreed(enc: A.Encoding, rs: A.Replicas)
    requires A.GoodEncoding(enc)
    ensures A.Agree(rs) <==> forall key :: ShownAlike(enc, rs, key)
  {
    hide A.GoodEncoding, A.SameAt, Shown;
    forall id, id', key | id in rs && id' in rs
      ensures Shown(enc, rs[id], key) == Shown(enc, rs[id'], key) <==> A.SameAt(rs[id], rs[id'], key)
    {
      ShownDecides(enc, rs[id], rs[id'], key);
    }
    if forall key :: ShownAlike(enc, rs, key) {
      forall id, id', key | id in rs && id' in rs
        ensures A.SameAt(rs[id], rs[id'], key)
      {
        assert ShownAlike(enc, rs, key);
      }
    }
  }

  /** CheckConvergence decides whether all online replicas show the same. */
  method CheckConvergence(enc: A.Encoding, online: Online) returns (converged: bool, diverged: set<string>)
    requires Ready(online)
    ensures A.GoodEncoding(enc) ==> (converged <==> A.Agree(View(online)))
    ensures |online| >= 2 ==> forall key :: key in diverged <==> !ShownAlike(enc, View(online), key)
  {
    hide ShownAlike, A.Agree;
    converged, diverged := true, {};
    var keys := CollectKeys(online);
    if |online| < 2 {
      A.AloneAgrees(View(online)) by { ViewSize(online); }
      return;
    }
    var todo := keys;
    while todo != {}
      invariant todo <= keys && (converged <==> diverged == {})
      invariant forall key :: key in diverged <==> key in keys - todo && !ShownAlike(enc, View(online), key)
      decreases |todo|
    {
      var key :| key in todo;
      var split := KeyDiverged(enc, online, key);
      if split {
        converged, diverged := false, diverged + {key};
      }
      todo := todo - {key};
    }
    forall key
      ensures key in diverged <==> !ShownAlike(enc, View(online), key)
    {
      if key !in keys {
        AbsentAlike(enc, View(online), key);
      }
    }
    if A.GoodEncoding(enc) {
      AlikeIsAgreed(enc, View(online));
    }
  }

  lemma ViewSize(online: Online)
    ensures |View(online)| == |online|
  {
    assert View(online).Keys == online.Keys;
    assert |View(online)| == |View(online).Keys| && |online| == |online.Keys|;
  }

  method CollectKeys(online: Online) returns (keys: set<string>)
    requires Ready(online)
    ensures keys == A.AllKeys(View(online))
  {
    keys := {};
    var todo := online.Keys;
    while todo != {}
      invariant todo <= online.Keys
      invariant forall key :: key in keys <==> exists id :: id in View(online) && id !in todo && key in View(online)[id]
      decreases |todo|
    {
      var id :| id in todo;
      keys := keys + online[id].data.Keys;
      todo := todo - {id};
    }
  }

  /**
   RunAntiEntropy: with fewer than two online replicas there is nothing to do. Otherwise all replicas
   end up showing the same exactly when the newest versions of each key did.
   */
  method RunAntiEntropy(h: M.Hash, enc: A.Encoding, online: Online, ghost texts: set<string>)
    returns (totalKeys: nat, divergent: set<string>, reconciled: nat, convergedAfter: bool)
    requires Ready(online)
    modifies online.Values
    ensures Ready(online)
    ensures |online| < 2 ==> divergent == {} && View(online) == old(View(online))
    ensures |online| >= 2 && A.Trusted(h, enc, old(View(online)), texts) ==>
      exists ref :: ref in old(View(online)) && A.DivergentFrom(enc, old(View(online)), ref, divergent)
    ensures A.Repaired(old(View(online)), View(online), divergent)
    ensures reconciled == |A.Changed(old(View(online)), View(online), divergent)|
    ensures |online| >= 2 ==> totalKeys == |A.AllKeys(old(View(online)))|
    ensures A.GoodEncoding(enc) ==> (convergedAfter <==> A.Agree(View(online)))
    ensures A.GoodEncoding(enc) && A.Trusted(h, enc, old(View(online)), texts) ==>
      (convergedAfter <==> A.NewestAgree(old(View(online))))
  {
    hide A.Changed, A.Agree, A.NewestAgree, A.GoodEncoding;
    hide A.Repaired, A.Trusted, A.TreesOf, A.DivergentFrom, A.DiffedAgainst;
    ghost var before := View(online);
    if |online| < 2 {
      NoneRepaired(before);
      A.AloneAgrees(before) by { ViewSize(online); }
      return 0, {}, 0, true;
    }
    var trees, allKeys := BuildTrees(h, enc, online);
    assert trees.Keys == online.Keys by { TreeKeys(h, enc, before, trees); }
    TreeCount(trees, online);
    var ref;
    ref, divergent := DiffTrees(trees);
    totalKeys := |allKeys|;
    reconciled := RepairAll(online, divergent);
    var left;
    convergedAfter, left := CheckConvergence(enc, online);
    if A.Trusted(h, enc, before, texts) {
      assert ref in before;
      A.TreesFindDifferences(h, enc, before, texts, trees, ref, divergent);
      if A.GoodEncoding(enc) {
        A.RoundConverges(enc, before, View(online), ref, divergent);
      }
    }
  }

  lemma TreeKeys(h: M.Hash, enc: A.Encoding, rs: A.Replicas, trees: map<NodeId, M.Node>)
    requires A.TreesOf(h, enc, rs, trees)
    ensures trees.Keys == rs.Keys
  {
  }

  lemma TreeCount(trees: map<NodeId, M.Node>, online: Online)
    requires trees.Keys == online.Keys
    ensures |trees| == |online|
  {
    assert |trees| == |trees.Keys| && |online| == |online.Keys|;
  }
}
