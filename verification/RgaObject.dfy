/** RGA as the source runs it: maps, a visited set and an output list filled step by step. */
module RgaObject {
  import opened StringOrder
  import M = RgaModel
  import P = RgaProofs
  import R = RgaReading
  import Sorting

  type Elem = M.Elem

  type Groups = map<string, seq<Elem>>

  function Group(children: Groups, anchor: string): seq<Elem>
  {
    if anchor in children then children[anchor] else []
  }

  /** The walk's captured variables. */
  class Walker {
    ghost const elems: seq<Elem>
    const children: Groups
    var visited: set<string>
    var out: seq<Elem>

    constructor (ghost elems: seq<Elem>, children: Groups)
      ensures this.elems == elems && this.children == children && visited == {} && out == []
    {
      this.elems, this.children, visited, out := elems, children, {}, [];
    }

    ghost predicate Valid()
    {
      forall anchor :: Group(children, anchor) == M.Kids(elems, anchor)
    }

    method Walk(anchor: string)
      requires Valid()
      modifies this
      ensures visited == M.Walk(elems, M.Kids(elems, anchor), old(visited)).visited
      ensures out == old(out) + M.Walk(elems, M.Kids(elems, anchor), old(visited)).out
      decreases M.IdSet(elems) - visited
    {
      hide M.Walk, M.Kids, M.IdSet;
      var kids := Group(children, anchor);
      ghost var goal := M.Walk(elems, kids, visited);
      ghost var before := out;
      assert kids[0..] == kids;
      for i := 0 to |kids|
        invariant old(visited) <= visited
        invariant M.Walk(elems, kids[i..], visited).visited == goal.visited
        invariant out + M.Walk(elems, kids[i..], visited).out == before + goal.out
      {
        WalkNext(elems, kids, i, visited);
        var e := kids[i];
        if e.id in visited {
          continue;
        }
        P.IdKnown(elems, e);
        ghost var below := M.Walk(elems, M.Kids(elems, e.id), visited + {e.id});
        ghost var beside := M.Walk(elems, kids[i + 1..], below.visited);
        assert out + ([e] + below.out + beside.out) == out + [e] + below.out + beside.out;
        visited := visited + {e.id};
        out := out + [e];
        Walk(e.id);
      }
      WalkNone(elems, kids[|kids|..], visited);
    }
  }

  lemma WalkNone(elems: seq<Elem>, none: seq<Elem>, visited: set<string>)
    requires none == []
    ensures M.Walk(elems, none, visited) == M.Walked([], visited)
  {
  }

  lemma WalkNext(elems: seq<Elem>, kids: seq<Elem>, i: nat, visited: set<string>)
    requires i < |kids| && forall e :: e in kids ==> e in elems
    ensures kids[i].id in visited ==> M.Walk(elems, kids[i..], visited) == M.Walk(elems, kids[i + 1..], visited)
    ensures kids[i].id !in visited ==>
      var below := M.Walk(elems, M.Kids(elems, kids[i].id), visited + {kids[i].id});
      var beside := M.Walk(elems, kids[i + 1..], below.visited);
      M.Walk(elems, kids[i..], visited) == M.Walked([kids[i]] + below.out + beside.out, beside.visited)
  {
    assert kids[i..][0] == kids[i] && kids[i..][1..] == kids[i + 1..];
  }

  /** What sorts each sibling group does not disturb: the groups hold the same elements. */
  ghost predicate Grouped(children: Groups, elems: seq<Elem>)
  {
    forall anchor :: Group(children, anchor) == M.Anchored(elems, anchor)
  }

  method GroupByAnchor(elems: seq<Elem>) returns (children: Groups)
    ensures Grouped(children, elems)
  {
    children := map[];
    for i := 0 to |elems|
      invariant Grouped(children, elems[..i])
    {
      var e := elems[i];
      assert elems[..i + 1][..i] == elems[..i];
      children := children[e.after := Group(children, e.after) + [e]];
    }
    assert elems[..|elems|] == elems;
  }

  method SortGroups(groups: Groups, ghost elems: seq<Elem>) returns (children: Groups)
    requires Grouped(groups, elems)
    ensures forall anchor :: Group(children, anchor) == M.Kids(elems, anchor)
  {
    hide M.Kids, M.Anchored, Sorting.Sort;
    children := groups;
    var todo := groups.Keys;
    while todo != {}
      invariant children.Keys == groups.Keys && todo <= groups.Keys
      invariant forall anchor :: anchor in todo ==> children[anchor] == groups[anchor]
      invariant forall anchor :: anchor in groups.Keys - todo ==> children[anchor] == M.Kids(elems, anchor)
      decreases |todo|
    {
      var anchor :| anchor in todo;
      KidsSorted(elems, anchor);
      children := children[anchor := Sorting.Sort(children[anchor], M.Above)];
      todo := todo - {anchor};
    }
    forall anchor | anchor !in groups
      ensures M.Kids(elems, anchor) == []
    {
      KidsSorted(elems, anchor);
      P.SortEmpty();
    }
  }

  lemma KidsSorted(elems: seq<Elem>, anchor: string)
    ensures M.Kids(elems, anchor) == Sorting.Sort(M.Anchored(elems, anchor), M.Above)
  {
  }

  class RGA {
    var elems: seq<Elem>

    constructor (elems: seq<Elem>)
      ensures this.elems == elems
    {
      this.elems := elems;
    }

    method Order() returns (out: seq<Elem>)
      ensures out == M.Order(elems)
    {
      hide M.Walk, M.Kids, M.Rest;
      var groups := GroupByAnchor(elems);
      var children := SortGroups(groups, elems);
      var w := new Walker(elems, children);
      w.Walk("");
      out := w.out;
      assert out == M.Walk(elems, M.Kids(elems, ""), {}).out;
      if |out| != |elems| {
        var rest := Unreached(w.visited);
        rest := Sorting.Sort(rest, M.Above);
        out := out + rest;
      }
    }

    method Unreached(visited: set<string>) returns (rest: seq<Elem>)
      ensures rest == M.Rest(elems, visited)
    {
      rest := [];
      var seen := visited;
      for i := 0 to |elems|
        invariant rest + M.Rest(elems[i..], seen) == M.Rest(elems, visited)
      {
        var e := elems[i];
        assert elems[i..][0] == e && elems[i..][1..] == elems[i + 1..];
        if e.id !in seen {
          seen := seen + {e.id};
          rest := rest + [e];
        }
      }
    }

    method Value() returns (text: string)
      ensures text == M.Text(M.Order(elems))
      ensures exists cuts :: R.Spells(M.Order(elems), text, cuts)
    {
      hide M.Order;
      var order := Order();
      text := "";
      for i := 0 to |order|
        invariant text == M.Text(order[..i])
      {
        assert order[..i + 1][..i] == order[..i];
        if !order[i].deleted {
          text := text + order[i].value;
        }
      }
      assert order[..|order|] == order;
      ghost var cuts := R.TextSpelled(order);
    }

    method Merge(b: RGA) returns (r: RGA)
      ensures fresh(r) && M.IsMerge(elems, b.elems, r.elems)
      ensures forall e :: e in r.elems ==>
        (e.deleted <==> R.DeletedIn(elems, e.id) || R.DeletedIn(b.elems, e.id))
    {
      var byId := Collect(map[], [], elems);
      assert [] + elems == elems;
      byId := Collect(byId, elems, b.elems);
      KeyedById(elems + b.elems);
      var merged := Listing(byId);
      forall e | e in merged
        ensures e.deleted <==> R.DeletedIn(elems, e.id) || R.DeletedIn(b.elems, e.id)
      {
        R.MergeFlags(elems, b.elems, merged, e);
      }
      r := new RGA(merged);
    }

    /** One pass of Merge over one side. */
    method Collect(start: map<string, Elem>, ghost before: seq<Elem>, src: seq<Elem>) returns (byId: map<string, Elem>)
      requires start == M.ById(before)
      ensures byId == M.ById(before + src)
    {
      byId := start;
      hide M.ById;
      assert before + src[..0] == before;
      for i := 0 to |src|
        invariant byId == M.ById(before + src[..i])
      {
        var e := src[i];
        assert before + src[..i + 1] == before + src[..i] + [e];
        ByIdNext(before + src[..i], e);
        if e.id in byId {
          byId := byId[e.id := byId[e.id].(deleted := byId[e.id].deleted || e.deleted)];
        } else {
          byId := byId[e.id := e];
        }
      }
      assert src[..|src|] == src;
    }

    /** The elements in any order, then sorted by id. */
    method Listing(byId: map<string, Elem>) returns (sorted: seq<Elem>)
      requires forall id :: id in byId ==> byId[id].id == id
      ensures M.AscendingIds(sorted) && M.ById(sorted) == byId
    {
      var todo := byId.Keys;
      var elems: seq<Elem> := [];
      while todo != {}
        invariant todo <= byId.Keys && M.Unique(elems)
        invariant forall e :: e in elems <==> e.id in byId.Keys - todo && e == byId[e.id]
        decreases |todo|
      {
        var id :| id in todo;
        elems := elems + [byId[id]];
        todo := todo - {id};
      }
      sorted := Sorting.Sort(elems, M.Below);
      SortAscends(elems, sorted);
      P.ByIdUnique(sorted);
    }
  }

  lemma ByIdNext(s: seq<Elem>, e: Elem)
    ensures M.ById(s + [e]) == M.Put(M.ById(s), e)
  {
    assert (s + [e])[..|s|] == s;
  }

  lemma {:induction false} KeyedById(s: seq<Elem>)
    ensures forall id :: id in M.ById(s) ==> M.ById(s)[id].id == id
  {
    if s != [] {
      KeyedById(s[..|s| - 1]);
    }
  }

  lemma SortAscends(elems: seq<Elem>, sorted: seq<Elem>)
    requires M.Unique(elems) && sorted == Sorting.Sort(elems, M.Below)
    ensures M.AscendingIds(sorted) && M.Unique(sorted) && forall e :: e in sorted <==> e in elems
  {
    StrictTotalOrder();
    assert Sorting.WeakOrder(M.Below);
    Sorting.SortSorted(elems, M.Below);
    P.UniquePermuted(elems, sorted);
    forall i, j | 0 <= i < j < |sorted|
      ensures M.Below(sorted[i], sorted[j])
    {
      Trichotomy(sorted[i].id, sorted[j].id);
    }
    assert forall e :: e in sorted <==> e in multiset(sorted);
    assert forall e :: e in elems <==> e in multiset(elems);
  }
}
