/** The replicated growable array (internal/conflict/rga.go), as values. */
module RgaModel {
  import opened StringOrder
  import Sorting

  datatype Elem = Elem(id: string, value: string, after: string, deleted: bool)

  predicate Above(x: Elem, y: Elem)
  {
    Less(y.id, x.id)
  }

  predicate Below(x: Elem, y: Elem)
  {
    Less(x.id, y.id)
  }

  function Ids(s: seq<Elem>): seq<string>
  {
    seq(|s|, i requires 0 <= i < |s| => s[i].id)
  }

  function IdSet(s: seq<Elem>): set<string>
  {
    set e | e in s :: e.id
  }

  ghost predicate Unique(s: seq<Elem>)
  {
    forall i, j :: 0 <= i < j < |s| ==> s[i].id != s[j].id
  }

  // ---------------------------------------------------------------- the order

  function Anchored(elems: seq<Elem>, anchor: string): (r: seq<Elem>)
    ensures forall e :: e in r <==> e in elems && e.after == anchor
  {
    if elems == [] then []
    else
      var e := elems[|elems| - 1];
      Anchored(elems[..|elems| - 1], anchor) + if e.after == anchor then [e] else []
  }

  /** The elements inserted after an anchor, higher ids first. */
  function Kids(elems: seq<Elem>, anchor: string): (r: seq<Elem>)
    ensures forall e :: e in r <==> e in elems && e.after == anchor
  {
    var r := Sorting.Sort(Anchored(elems, anchor), Above);
    assert forall e :: e in r <==> e in multiset(r);
    r
  }

  datatype Walked = Walked(out: seq<Elem>, visited: set<string>)

  /** The depth-first walk over a list of siblings: each new element, then what was inserted after it. */
  function Walk(elems: seq<Elem>, siblings: seq<Elem>, visited: set<string>): (w: Walked)
    requires forall e :: e in siblings ==> e in elems
    ensures visited <= w.visited
    decreases IdSet(elems) - visited, |siblings|
  {
    if siblings == [] then Walked([], visited)
    else
      var e := siblings[0];
      if e.id in visited then Walk(elems, siblings[1..], visited)
      else
        assert e.id in IdSet(elems);
        var below := Walk(elems, Kids(elems, e.id), visited + {e.id});
        var beside := Walk(elems, siblings[1..], below.visited);
        Walked([e] + below.out + beside.out, beside.visited)
  }

  /** The elements the walk did not reach, the first of each id. */
  function Rest(elems: seq<Elem>, visited: set<string>): seq<Elem>
  {
    if elems == [] then []
    else if elems[0].id in visited then Rest(elems[1..], visited)
    else [elems[0]] + Rest(elems[1..], visited + {elems[0].id})
  }

  function Order(elems: seq<Elem>): seq<Elem>
  {
    var w := Walk(elems, Kids(elems, ""), {});
    if |w.out| == |elems| then w.out
    else w.out + Sorting.Sort(Rest(elems, w.visited), Above)
  }

  /** Value: the text a reader sees. */
  function Text(s: seq<Elem>): string
  {
    if s == [] then ""
    else Text(s[..|s| - 1]) + if s[|s| - 1].deleted then "" else s[|s| - 1].value
  }

  // ---------------------------------------------------------------- merging

  function Put(m: map<string, Elem>, e: Elem): map<string, Elem>
  {
    if e.id in m then m[e.id := m[e.id].(deleted := m[e.id].deleted || e.deleted)] else m[e.id := e]
  }

  /** The state by id: the first element of each id, deleted if any of them is. */
  function ById(s: seq<Elem>): map<string, Elem>
  {
    if s == [] then map[] else Put(ById(s[..|s| - 1]), s[|s| - 1])
  }

  ghost predicate AscendingIds(s: seq<Elem>)
  {
    forall i, j :: 0 <= i < j < |s| ==> Below(s[i], s[j])
  }

  /** r is what merging a and b stores. */
  ghost predicate IsMerge(a: seq<Elem>, b: seq<Elem>, r: seq<Elem>)
  {
    AscendingIds(r) && ById(r) == ById(a + b)
  }
}

module RgaProofs {
  import opened Chains
  import opened StringOrder
  import opened RgaModel
  import Quorums
  import Sorting

  // ---------------------------------------------------------------- descending ids

  predicate Over(x: string, y: string)
  {
    Less(y, x)
  }

  ghost predicate Descending(s: seq<string>)
  {
    Chain(s, Over)
  }

  lemma SameDescending(s: seq<string>, t: seq<string>)
    requires Descending(s) && Descending(t) && forall x :: x in s <==> x in t
    ensures s == t
  {
    forall x, y | Over(x, y)
      ensures !Over(y, x)
    {
      Trichotomy(x, y);
    }
    SameChain(s, t, Over);
  }

  function Keep(s: seq<string>, ids: set<string>): (r: seq<string>)
    ensures forall x :: x in r <==> x in s && x in ids
  {
    if s == [] then []
    else (if s[0] in ids then [s[0]] else []) + Keep(s[1..], ids)
  }

  lemma {:induction false} KeepDescending(s: seq<string>, ids: set<string>)
    requires Descending(s)
    ensures Descending(Keep(s, ids))
  {
    if s != [] {
      KeepDescending(s[1..], ids);
      var r := Keep(s[1..], ids);
      forall j | 0 <= j < |r|
        ensures Less(r[j], s[0])
      {
        assert r[j] in s[1..];
      }
    }
  }

  lemma {:induction false} KeepAppend(s: seq<string>, t: seq<string>, ids: set<string>)
    ensures Keep(s + t, ids) == Keep(s, ids) + Keep(t, ids)
  {
    if s == [] {
      assert s + t == t;
    } else {
      assert (s + t)[1..] == s[1..] + t;
      KeepAppend(s[1..], t, ids);
    }
  }

  lemma IdsAppend(s: seq<Elem>, t: seq<Elem>)
    ensures Ids(s + t) == Ids(s) + Ids(t)
  {
  }

  lemma IdsMember(s: seq<Elem>, x: string)
    ensures x in Ids(s) <==> x in IdSet(s)
    ensures x in Ids(s) <==> exists e :: e in s && e.id == x
  {
    if x in Ids(s) {
      var i :| 0 <= i < |Ids(s)| && Ids(s)[i] == x;
      assert s[i] in s && s[i].id == x;
    }
    if e :| e in s && e.id == x {
      var i :| 0 <= i < |s| && s[i] == e;
      assert Ids(s)[i] == x;
    }
  }

  lemma AboveIsWeak()
    ensures Sorting.WeakOrder(Above)
  {
    StrictTotalOrder();
  }

  /** Sorting elements of different ids by Above makes the ids strictly descend. */
  lemma SortDescends(s: seq<Elem>)
    requires Unique(s)
    ensures Descending(Ids(Sorting.Sort(s, Above))) && Unique(Sorting.Sort(s, Above))
    ensures forall e :: e in Sorting.Sort(s, Above) <==> e in s
  {
    var r := Sorting.Sort(s, Above);
    AboveIsWeak();
    Sorting.SortSorted(s, Above);
    UniquePermuted(s, r);
    forall i, j | 0 <= i < j < |r|
      ensures Less(r[j].id, r[i].id)
    {
      Trichotomy(r[j].id, r[i].id);
    }
    assert forall e :: e in r <==> e in multiset(r);
    assert forall e :: e in s <==> e in multiset(s);
  }

  lemma {:induction false} UniqueCount(s: seq<Elem>, e: Elem)
    requires Unique(s)
    ensures multiset(s)[e] == if e in s then 1 else 0
  {
    if s != [] {
      assert s == s[..|s| - 1] + [s[|s| - 1]];
      UniqueCount(s[..|s| - 1], e);
    }
  }

  lemma UniquePermuted(s: seq<Elem>, r: seq<Elem>)
    requires Unique(s) && multiset(s) == multiset(r)
    ensures Unique(r)
  {
    forall i, j | 0 <= i < j < |r|
      ensures r[i].id != r[j].id
    {
      assert r[i] in multiset(s) && r[j] in multiset(s);
      UniqueCount(s, r[i]);
      OneElement(s, r[i], r[j]);
      Twice(r, i, j);
    }
  }

  /** Different ids and the same elements: the same multiset. */
  lemma SameElements(s: seq<Elem>, t: seq<Elem>)
    requires Unique(s) && Unique(t) && forall e :: e in s <==> e in t
    ensures multiset(s) == multiset(t)
  {
    forall e
      ensures multiset(s)[e] == multiset(t)[e]
    {
      UniqueCount(s, e);
      UniqueCount(t, e);
    }
  }

  // ---------------------------------------------------------------- what the walk visits

  ghost predicate WalkOk(elems: seq<Elem>, visited: set<string>, w: Walked)
  {
    && Unique(w.out)
    && (forall e :: e in w.out ==> e in elems && e.id !in visited)
    && w.visited == visited + IdSet(w.out)
  }

  lemma {:induction false} WalkVisits(elems: seq<Elem>, siblings: seq<Elem>, visited: set<string>)
    requires forall e :: e in siblings ==> e in elems
    ensures WalkOk(elems, visited, Walk(elems, siblings, visited))
    decreases IdSet(elems) - visited, |siblings|
  {
    if siblings != [] {
      var e := siblings[0];
      if e.id in visited {
        WalkVisits(elems, siblings[1..], visited);
      } else {
        assert e.id in IdSet(elems);
        WalkVisits(elems, Kids(elems, e.id), visited + {e.id});
        var below := Walk(elems, Kids(elems, e.id), visited + {e.id});
        WalkVisits(elems, siblings[1..], below.visited);
        var beside := Walk(elems, siblings[1..], below.visited);
        JoinWalks(elems, visited, e, below, beside);
      }
    }
  }

  lemma JoinWalks(elems: seq<Elem>, visited: set<string>, e: Elem, below: Walked, beside: Walked)
    requires e in elems && e.id !in visited
    requires WalkOk(elems, visited + {e.id}, below) && WalkOk(elems, below.visited, beside)
    ensures WalkOk(elems, visited, Walked([e] + below.out + beside.out, beside.visited))
  {
  }

  lemma UniqueJoin(s: seq<Elem>, t: seq<Elem>)
    requires Unique(s) && Unique(t) && forall x, y :: x in s && y in t ==> x.id != y.id
    ensures Unique(s + t)
  {
  }

  lemma {:induction false} RestIs(elems: seq<Elem>, visited: set<string>)
    requires Unique(elems)
    ensures Unique(Rest(elems, visited))
    ensures forall e :: e in Rest(elems, visited) <==> e in elems && e.id !in visited
  {
    if elems != [] {
      var e := elems[0];
      assert elems == [e] + elems[1..];
      assert forall x :: x in elems[1..] ==> x.id != e.id;
      if e.id in visited {
        RestIs(elems[1..], visited);
      } else {
        RestIs(elems[1..], visited + {e.id});
        UniqueJoin([e], Rest(elems[1..], visited + {e.id}));
      }
    }
  }

  /** The order is always the walk followed by the unreached elements. */
  lemma OrderIs(elems: seq<Elem>)
    requires Unique(elems)
    ensures var w := Walk(elems, Kids(elems, ""), {});
      Order(elems) == w.out + Sorting.Sort(Rest(elems, w.visited), Above)
  {
    hide Walk, Rest, Kids, Sorting.Sort, Unique;
    var w := Walk(elems, Kids(elems, ""), {});
    WalkVisits(elems, Kids(elems, ""), {});
    RestIs(elems, w.visited);
    if |w.out| == |elems| {
      AllOut(w.out, elems);
      assert forall e :: e in elems ==> e.id in IdSet(w.out);
      NoElements(Rest(elems, w.visited));
      SortEmpty();
      assert w.out + [] == w.out;
    }
  }

  lemma SortEmpty()
    ensures Sorting.Sort([], Above) == []
  {
  }

  lemma NoElements(s: seq<Elem>)
    requires forall e :: e !in s
    ensures s == []
  {
    HeadIn(s);
  }

  /** As many different elements as there are: all of them. */
  lemma AllOut(out: seq<Elem>, elems: seq<Elem>)
    requires Unique(out) && Unique(elems) && |out| == |elems| && forall e :: e in out ==> e in elems
    ensures forall e :: e in elems ==> e in out
  {
    var o := set e | e in out;
    var s := set e | e in elems;
    SetSize(out);
    SetSize(elems);
    if e :| e in elems && e !in out {
      assert o <= s - {e};
      Quorums.SubsetSize(o, s - {e});
      assert false;
    }
  }

  lemma {:induction false} SetSize(s: seq<Elem>)
    requires Unique(s)
    ensures |set e | e in s| == |s|
  {
    if s != [] {
      var init := s[..|s| - 1];
      SetSize(init);
      assert (set e | e in s) == (set e | e in init) + {s[|s| - 1]};
    }
  }

  // ---------------------------------------------------------------- the order is a permutation

  /** Whatever the anchors are, cyclic or dangling, every element is placed exactly once. */
  lemma OrderIsPermutation(elems: seq<Elem>)
    requires Unique(elems)
    ensures multiset(Order(elems)) == multiset(elems) && Unique(Order(elems))
  {
    hide Walk, Rest, Kids, Order;
    var w := Walk(elems, Kids(elems, ""), {});
    WalkVisits(elems, Kids(elems, ""), {});
    OrderIs(elems);
    var rest := Rest(elems, w.visited);
    RestIs(elems, w.visited);
    SortDescends(rest);
    Placed(elems, w, Sorting.Sort(rest, Above));
  }

  lemma Placed(elems: seq<Elem>, w: Walked, rest: seq<Elem>)
    requires Unique(elems) && WalkOk(elems, {}, w) && Unique(rest)
    requires forall e :: e in rest <==> e in elems && e.id !in w.visited
    ensures multiset(w.out + rest) == multiset(elems) && Unique(w.out + rest)
  {
    hide Unique;
    assert forall e :: e in w.out ==> e.id in IdSet(w.out);
    UniqueJoin(w.out, rest);
    forall e
      ensures e in w.out + rest <==> e in elems
    {
      if e in elems && e.id in w.visited {
        var x :| x in w.out && x.id == e.id;
        OneElement(elems, x, e);
      }
    }
    SameElements(w.out + rest, elems);
  }

  lemma OneElement(elems: seq<Elem>, x: Elem, y: Elem)
    requires Unique(elems) && x in elems && y in elems
    ensures x.id == y.id ==> x == y
  {
  }

  // ---------------------------------------------------------------- a replica's order inside a larger state

  /**
   a is a part of m: shared ids have the same anchor, and nothing in a hangs on an element that m
   has and a lacks.
   */
  ghost predicate PartOf(a: seq<Elem>, m: seq<Elem>)
  {
    && IdSet(a) <= IdSet(m)
    && (forall x, y :: x in a && y in m && x.id == y.id ==> x.after == y.after)
    && (forall x :: x in a ==> x.after in IdSet(a) || x.after !in IdSet(m))
  }

  lemma AnchoredUnique(elems: seq<Elem>, anchor: string)
    requires Unique(elems)
    ensures Unique(Anchored(elems, anchor))
  {
  }

  lemma KidsDescend(elems: seq<Elem>, anchor: string)
    requires Unique(elems)
    ensures Descending(Ids(Kids(elems, anchor)))
  {
    AnchoredUnique(elems, anchor);
    SortDescends(Anchored(elems, anchor));
  }

  lemma SharedElement(a: seq<Elem>, m: seq<Elem>, x: string) returns (ea: Elem, em: Elem)
    requires PartOf(a, m) && x in IdSet(a)
    ensures ea in a && em in m && ea.id == em.id == x && ea.after == em.after
  {
    ea :| ea in a && ea.id == x;
    assert x in IdSet(m);
    em :| em in m && em.id == x;
  }

  /** The siblings a replica knows are the siblings of the larger state, without the unknown ones. */
  lemma KidsKeep(a: seq<Elem>, m: seq<Elem>, anchor: string)
    requires Unique(a) && Unique(m) && PartOf(a, m)
    ensures Ids(Kids(a, anchor)) == Keep(Ids(Kids(m, anchor)), IdSet(a))
  {
    KidsDescend(a, anchor);
    KidsDescend(m, anchor);
    KeepDescending(Ids(Kids(m, anchor)), IdSet(a));
    forall x
      ensures x in Ids(Kids(a, anchor)) <==> x in Keep(Ids(Kids(m, anchor)), IdSet(a))
    {
      IdsMember(Kids(a, anchor), x);
      IdsMember(Kids(m, anchor), x);
      if x in IdSet(a) {
        var ea, em := SharedElement(a, m, x);
        forall e | (e in a || e in m) && e.id == x
          ensures e.after == ea.after
        {
          if e in a {
            OneElement(a, e, ea);
          } else {
            OneElement(m, e, em);
          }
        }
      } else {
        assert forall e :: e in Kids(a, anchor) ==> e.id in IdSet(a);
      }
    }
    SameDescending(Ids(Kids(a, anchor)), Keep(Ids(Kids(m, anchor)), IdSet(a)));
  }

  lemma NoKids(a: seq<Elem>, m: seq<Elem>, anchor: string)
    requires PartOf(a, m) && anchor in IdSet(m) && anchor !in IdSet(a)
    ensures Kids(a, anchor) == []
  {
    NoElements(Kids(a, anchor));
  }

  ghost predicate Aligned(a: seq<Elem>, m: seq<Elem>, ids: set<string>)
  {
    Ids(a) == Keep(Ids(m), ids)
  }

  lemma AlignedJoin(a: seq<Elem>, m: seq<Elem>, b: seq<Elem>, n: seq<Elem>, ids: set<string>)
    requires Aligned(a, m, ids) && Aligned(b, n, ids)
    ensures Aligned(a + b, m + n, ids)
  {
    IdsAppend(a, b);
    IdsAppend(m, n);
    KeepAppend(Ids(m), Ids(n), ids);
  }

  lemma AlignedHead(la: seq<Elem>, lm: seq<Elem>, ids: set<string>)
    requires Aligned(la, lm, ids) && lm != []
    ensures lm[0].id !in ids ==> Aligned(la, lm[1..], ids)
    ensures lm[0].id in ids ==> la != [] && la[0].id == lm[0].id && Aligned(la[1..], lm[1..], ids)
    ensures Aligned(if lm[0].id in ids then la[..1] else [], [lm[0]], ids)
  {
    assert Ids(lm)[0] == lm[0].id && Ids(lm)[1..] == Ids(lm[1..]);
    if lm[0].id in ids {
      assert Ids(la)[0] == la[0].id && Ids(la)[1..] == Ids(la[1..]);
      assert Ids(la[..1]) == [la[0].id];
    }
    assert Ids([lm[0]]) == [lm[0].id];
    assert Keep([lm[0].id], ids) == if lm[0].id in ids then [lm[0].id] else [] by {
      assert [lm[0].id][1..] == [];
    }
  }

  /** Walking the part and walking the whole go in step. */
  lemma {:induction false} WalksAlign(a: seq<Elem>, m: seq<Elem>, la: seq<Elem>, lm: seq<Elem>, va: set<string>,
      vm: set<string>)
    requires Unique(a) && Unique(m) && PartOf(a, m)
    requires forall e :: e in la ==> e in a
    requires forall e :: e in lm ==> e in m
    requires Aligned(la, lm, IdSet(a)) && va == vm * IdSet(a)
    ensures Aligned(Walk(a, la, va).out, Walk(m, lm, vm).out, IdSet(a))
    ensures Walk(a, la, va).visited == Walk(m, lm, vm).visited * IdSet(a)
    decreases IdSet(m) - vm, |lm|
  {
    hide Unique, PartOf, Aligned, IdSet, Kids;
    var ids := IdSet(a);
    if lm == [] {
      AlignedNil(la, ids);
    } else {
      var e := lm[0];
      AlignedHead(la, lm, ids);
      assert e in m;
      IdKnown(m, e);
      if e.id in vm {
        WalksAlign(a, m, if e.id in ids then la[1..] else la, lm[1..], va, vm);
      } else {
        KidsKeepAligned(a, m, e.id);
        var below := Walk(m, Kids(m, e.id), vm + {e.id});
        if e.id in ids {
          assert la[..1] == [la[0]];
          WalksAlign(a, m, Kids(a, e.id), Kids(m, e.id), va + {e.id}, vm + {e.id});
          var belowA := Walk(a, Kids(a, e.id), va + {e.id});
          WalksAlign(a, m, la[1..], lm[1..], belowA.visited, below.visited);
          AlignedJoin3([la[0]], [e], belowA.out, below.out, Walk(a, la[1..], belowA.visited).out,
            Walk(m, lm[1..], below.visited).out, ids);
        } else {
          NoKids(a, m, e.id);
          WalksAlign(a, m, [], Kids(m, e.id), va, vm + {e.id});
          WalksAlign(a, m, la, lm[1..], va, below.visited);
          AlignedJoin3([], [e], [], below.out, Walk(a, la, va).out, Walk(m, lm[1..], below.visited).out, ids);
          assert [] + [] + Walk(a, la, va).out == Walk(a, la, va).out;
        }
      }
    }
  }

  lemma IdKnown(m: seq<Elem>, e: Elem)
    requires e in m
    ensures e.id in IdSet(m)
  {
  }

  lemma AlignedJoin3(a: seq<Elem>, m: seq<Elem>, b: seq<Elem>, n: seq<Elem>, c: seq<Elem>, o: seq<Elem>,
      ids: set<string>)
    requires Aligned(a, m, ids) && Aligned(b, n, ids) && Aligned(c, o, ids)
    ensures Aligned(a + b + c, m + n + o, ids)
  {
    AlignedJoin(a, m, b, n, ids);
    AlignedJoin(a + b, m + n, c, o, ids);
  }

  lemma AlignedNil(la: seq<Elem>, ids: set<string>)
    ensures Aligned(la, [], ids) <==> la == []
  {
    assert |Ids(la)| == |la| && Ids([]) == [];
  }

  lemma KidsKeepAligned(a: seq<Elem>, m: seq<Elem>, anchor: string)
    requires Unique(a) && Unique(m) && PartOf(a, m)
    ensures Aligned(Kids(a, anchor), Kids(m, anchor), IdSet(a))
  {
    KidsKeep(a, m, anchor);
  }

  lemma RestsAlign(a: seq<Elem>, m: seq<Elem>, va: set<string>, vm: set<string>)
    requires Unique(a) && Unique(m) && IdSet(a) <= IdSet(m) && va == vm * IdSet(a)
    ensures Aligned(Sorting.Sort(Rest(a, va), Above), Sorting.Sort(Rest(m, vm), Above), IdSet(a))
  {
    hide Unique, Sorting.Sort, Rest;
    var ra, rm := Sorting.Sort(Rest(a, va), Above), Sorting.Sort(Rest(m, vm), Above);
    RestIs(a, va);
    RestIs(m, vm);
    SortDescends(Rest(a, va));
    SortDescends(Rest(m, vm));
    KeepDescending(Ids(rm), IdSet(a));
    forall x
      ensures x in Ids(ra) <==> x in Keep(Ids(rm), IdSet(a))
    {
      IdsMember(ra, x);
      IdsMember(rm, x);
      if x in Ids(ra) {
        var e :| e in ra && e.id == x;
        assert x in IdSet(a) && x in IdSet(m);
        var f :| f in m && f.id == x;
        assert f in rm;
      }
      if x in Keep(Ids(rm), IdSet(a)) {
        var f :| f in a && f.id == x;
        assert f in ra;
      }
    }
    SameDescending(Ids(ra), Keep(Ids(rm), IdSet(a)));
  }

  /** Intention preservation: a replica's order is the order of the larger state without the rest. */
  lemma OrderIsSubsequence(a: seq<Elem>, m: seq<Elem>)
    requires Unique(a) && Unique(m) && PartOf(a, m)
    ensures Ids(Order(a)) == Keep(Ids(Order(m)), IdSet(a))
  {
    hide Unique, PartOf, Walk, Rest, Sorting.Sort, Order;
    KidsKeepAligned(a, m, "");
    WalksAlign(a, m, Kids(a, ""), Kids(m, ""), {}, {});
    var wa, wm := Walk(a, Kids(a, ""), {}), Walk(m, Kids(m, ""), {});
    PartIds(a, m);
    RestsAlign(a, m, wa.visited, wm.visited);
    AlignedJoin(wa.out, wm.out, Sorting.Sort(Rest(a, wa.visited), Above), Sorting.Sort(Rest(m, wm.visited), Above),
      IdSet(a));
    OrderIs(a);
    OrderIs(m);
  }

  lemma PartIds(a: seq<Elem>, m: seq<Elem>)
    requires PartOf(a, m)
    ensures IdSet(a) <= IdSet(m)
  {
  }

  /** The order depends on the elements, not on how they are stored. */
  lemma OrderIgnoresStorage(a: seq<Elem>, b: seq<Elem>)
    requires Unique(a) && multiset(a) == multiset(b)
    ensures Order(a) == Order(b)
  {
    hide Order, PartOf, Unique;
    UniquePermuted(a, b);
    SameIsPart(a, b);
    OrderIsSubsequence(a, b);
    OrderIsPermutation(a);
    OrderIsPermutation(b);
    KeepAll(Order(b), a);
    SameIdsSame(Order(a), Order(b));
  }

  lemma SameIsPart(a: seq<Elem>, b: seq<Elem>)
    requires Unique(a) && multiset(a) == multiset(b)
    ensures PartOf(a, b)
  {
    assert forall e :: e in a <==> e in multiset(a);
    assert forall e :: e in b <==> e in multiset(b);
    forall x, y | x in a && y in b && x.id == y.id
      ensures x.after == y.after
    {
      OneElement(a, x, y);
    }
  }

  lemma {:induction false} KeepEvery(s: seq<string>, ids: set<string>)
    requires forall x :: x in s ==> x in ids
    ensures Keep(s, ids) == s
  {
    if s != [] {
      KeepEvery(s[1..], ids);
      assert s == [s[0]] + s[1..];
    }
  }

  lemma KeepAll(order: seq<Elem>, elems: seq<Elem>)
    requires multiset(order) == multiset(elems)
    ensures Keep(Ids(order), IdSet(elems)) == Ids(order)
  {
    forall x | x in Ids(order)
      ensures x in IdSet(elems)
    {
      IdsMember(order, x);
      var e :| e in order && e.id == x;
      assert e in multiset(elems);
    }
    KeepEvery(Ids(order), IdSet(elems));
  }

  lemma SameIdsSame(s: seq<Elem>, t: seq<Elem>)
    requires Ids(s) == Ids(t) && Unique(s) && multiset(s) == multiset(t)
    ensures s == t
  {
    assert |s| == |Ids(s)| == |t|;
    forall i | 0 <= i < |s|
      ensures s[i] == t[i]
    {
      assert Ids(s)[i] == s[i].id && Ids(t)[i] == t[i].id;
      assert t[i] in multiset(s);
      OneElement(s, s[i], t[i]);
    }
  }

  // ---------------------------------------------------------------- merging

  function Either(x: Elem, y: Elem): Elem
  {
    x.(deleted := x.deleted || y.deleted)
  }

  function Join(m: map<string, Elem>, n: map<string, Elem>): map<string, Elem>
  {
    map id | id in m.Keys + n.Keys ::
      if id in m && id in n then Either(m[id], n[id]) else if id in m then m[id] else n[id]
  }

  lemma {:induction false} ByIdAppend(a: seq<Elem>, b: seq<Elem>)
    ensures ById(a + b) == Join(ById(a), ById(b))
  {
    if b == [] {
      assert a + b == a;
    } else {
      var init, e := b[..|b| - 1], b[|b| - 1];
      assert (a + b)[..|a + b| - 1] == a + init;
      ByIdAppend(a, init);
      JoinPut(ById(a), ById(init), e);
    }
  }

  lemma JoinPut(m: map<string, Elem>, n: map<string, Elem>, e: Elem)
    ensures Put(Join(m, n), e) == Join(m, Put(n, e))
  {
  }

  lemma JoinAssociates(m: map<string, Elem>, n: map<string, Elem>, o: map<string, Elem>)
    ensures Join(Join(m, n), o) == Join(m, Join(n, o))
  {
  }

  lemma {:induction false} ByIdUnique(s: seq<Elem>)
    requires Unique(s)
    ensures ById(s).Keys == IdSet(s)
    ensures forall e :: e in s <==> e.id in ById(s) && ById(s)[e.id] == e
  {
    if s != [] {
      var init := s[..|s| - 1];
      assert s == init + [s[|s| - 1]];
      ByIdUnique(init);
    }
  }

  lemma AscendingUnique(s: seq<Elem>)
    requires AscendingIds(s)
    ensures Unique(s)
  {
    forall i, j | 0 <= i < j < |s|
      ensures s[i].id != s[j].id
    {
      Trichotomy(s[i].id, s[j].id);
    }
  }

  lemma SameStorage(r: seq<Elem>, s: seq<Elem>)
    requires AscendingIds(r) && AscendingIds(s) && ById(r) == ById(s)
    ensures r == s
  {
    AscendingUnique(r);
    AscendingUnique(s);
    ByIdUnique(r);
    ByIdUnique(s);
    forall x, y | Below(x, y)
      ensures !Below(y, x)
    {
      Trichotomy(x.id, y.id);
    }
    SameChain(r, s, Below);
  }

  /** There is one way to store a merge, so identical states are stored identically. */
  lemma MergeDetermined(a: seq<Elem>, b: seq<Elem>, r: seq<Elem>, s: seq<Elem>)
    requires IsMerge(a, b, r) && IsMerge(a, b, s)
    ensures r == s
  {
    SameStorage(r, s);
  }

  /** Each id fixes its value and its anchor. */
  ghost predicate Agree(a: seq<Elem>, b: seq<Elem>)
  {
    forall x, y :: x in a && y in b && x.id == y.id ==> x.value == y.value && x.after == y.after
  }

  /** Merging commutes exactly when the two sides agree on what each id means. */
  lemma MergeCommutes(a: seq<Elem>, b: seq<Elem>, r: seq<Elem>, s: seq<Elem>)
    requires Unique(a) && Unique(b) && IsMerge(a, b, r) && IsMerge(b, a, s)
    ensures r == s <==> Agree(a, b)
  {
    hide AscendingIds, Unique;
    ByIdAppend(a, b);
    ByIdAppend(b, a);
    ByIdUnique(a);
    ByIdUnique(b);
    if Agree(a, b) {
      JoinCommutes(ById(a), ById(b), a, b);
      SameStorage(r, s);
    }
    if r == s {
      forall x, y | x in a && y in b && x.id == y.id
        ensures x.value == y.value && x.after == y.after
      {
        assert Join(ById(a), ById(b))[x.id] == Either(x, y);
        assert Join(ById(b), ById(a))[x.id] == Either(y, x);
      }
    }
  }

  lemma JoinCommutes(m: map<string, Elem>, n: map<string, Elem>, a: seq<Elem>, b: seq<Elem>)
    requires Agree(a, b)
    requires forall e :: e in a <==> e.id in m && m[e.id] == e
    requires forall e :: e in b <==> e.id in n && n[e.id] == e
    requires m.Keys == IdSet(a) && n.Keys == IdSet(b)
    ensures Join(m, n) == Join(n, m)
  {
  }

  /** Merging is associative, whatever the states hold. */
  lemma MergeAssociates(a: seq<Elem>, b: seq<Elem>, c: seq<Elem>, ab: seq<Elem>, bc: seq<Elem>, left: seq<Elem>,
      right: seq<Elem>)
    requires IsMerge(a, b, ab) && IsMerge(ab, c, left)
    requires IsMerge(b, c, bc) && IsMerge(a, bc, right)
    ensures left == right
  {
    hide ById, Join, AscendingIds;
    ByIdAppend(a, b);
    ByIdAppend(ab, c);
    ByIdAppend(b, c);
    ByIdAppend(a, bc);
    JoinAssociates(ById(a), ById(b), ById(c));
    SameStorage(left, right);
  }

  /** Merging a state with itself changes at most the storage order. */
  lemma MergeIdempotent(a: seq<Elem>, r: seq<Elem>)
    requires Unique(a) && IsMerge(a, a, r)
    ensures multiset(r) == multiset(a) && Order(r) == Order(a)
  {
    hide Order;
    ByIdAppend(a, a);
    assert Join(ById(a), ById(a)) == ById(a);
    AscendingUnique(r);
    ByIdUnique(a);
    ByIdUnique(r);
    SameElements(r, a);
    OrderIgnoresStorage(a, r);
  }

  /** Every element hangs on the head or on another element of the state. */
  ghost predicate Closed(s: seq<Elem>)
  {
    forall e :: e in s ==> e.after == "" || e.after in IdSet(s)
  }

  /** Each merged element is the one of its id on the left, or else on the right, up to the flag. */
  lemma MergeElement(a: seq<Elem>, b: seq<Elem>, r: seq<Elem>, e: Elem) returns (x: Elem)
    requires Unique(a) && Unique(b) && IsMerge(a, b, r) && e in r
    ensures Alike(x, e) && (x in a || (x in b && x.id !in IdSet(a)))
  {
    hide AscendingIds, Unique, ById;
    AscendingUnique(r);
    ByIdUnique(r);
    ByIdAppend(a, b);
    ByIdUnique(a);
    ByIdUnique(b);
    assert e == Join(ById(a), ById(b))[e.id];
    if e.id in ById(a) {
      MapElement(a, e.id);
      x := ById(a)[e.id];
    } else {
      MapElement(b, e.id);
      x := ById(b)[e.id];
    }
  }

  lemma MergeIds(a: seq<Elem>, b: seq<Elem>, r: seq<Elem>)
    requires Unique(a) && Unique(b) && IsMerge(a, b, r)
    ensures Unique(r) && IdSet(r) == IdSet(a) + IdSet(b)
  {
    hide AscendingIds, Unique, ById, IdSet;
    AscendingUnique(r);
    ByIdUnique(r);
    ByIdAppend(a, b);
    ByIdUnique(a);
    ByIdUnique(b);
  }

  lemma MergeAgrees(a: seq<Elem>, b: seq<Elem>, r: seq<Elem>)
    requires Unique(a) && Unique(b) && Agree(a, b) && IsMerge(a, b, r)
    ensures Agree(a, r) && Agree(b, r)
  {
    hide Unique, IsMerge;
    forall y, e | (y in a || y in b) && e in r && y.id == e.id
      ensures Alike(y, e)
    {
      var x := MergeElement(a, b, r, e);
      if x in a && y in a {
        OneElement(a, x, y);
      } else if x in b {
        OneElement(b, x, y);
      }
    }
  }

  lemma MergeCloses(a: seq<Elem>, b: seq<Elem>, r: seq<Elem>)
    requires Unique(a) && Unique(b) && IsMerge(a, b, r) && Closed(a) && Closed(b)
    ensures Closed(r)
  {
    hide Unique, IsMerge;
    MergeIds(a, b, r);
    forall e | e in r
      ensures e.after == "" || e.after in IdSet(r)
    {
      var x := MergeElement(a, b, r, e);
    }
  }

  lemma MapElement(s: seq<Elem>, id: string)
    requires Unique(s) && id in ById(s)
    ensures ById(s)[id] in s && ById(s)[id].id == id
  {
  }

  /** The same element, up to the deleted flag. */
  predicate Alike(x: Elem, y: Elem)
  {
    x.id == y.id && x.value == y.value && x.after == y.after
  }

  /** Merging keeps both sides' orders, and the result can be merged again. */
  lemma MergeKeepsOrders(a: seq<Elem>, b: seq<Elem>, r: seq<Elem>)
    requires Unique(a) && Unique(b) && Agree(a, b) && IsMerge(a, b, r)
    requires Closed(a) && Closed(b) && "" !in IdSet(a) && "" !in IdSet(b)
    ensures Ids(Order(a)) == Keep(Ids(Order(r)), IdSet(a))
    ensures Ids(Order(b)) == Keep(Ids(Order(r)), IdSet(b))
    ensures Unique(r) && Closed(r) && IdSet(r) == IdSet(a) + IdSet(b)
  {
    hide Order, Unique, Keep, IsMerge;
    MergeIds(a, b, r);
    MergeAgrees(a, b, r);
    MergeCloses(a, b, r);
    OrderIsSubsequence(a, r);
    OrderIsSubsequence(b, r);
  }
}
