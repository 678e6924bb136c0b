/**
 What a reader of the replicated growable array sees (internal/conflict/rga.go): where each element
 stands, and which text that spells.
 */
module RgaReading {
  import opened StringOrder
  import opened RgaModel
  import P = RgaProofs
  import Sorting

  // ---------------------------------------------------------------- the order by paths

  /** The ids from the head down to an element, each inserted after the one before. */
  ghost predicate IsPath(elems: seq<Elem>, p: seq<string>, id: string)
  {
    && p != [] && p[|p| - 1] == id
    && forall k :: 0 <= k < |p| ==> LinkAt(elems, p, k)
  }

  ghost predicate LinkAt(elems: seq<Elem>, p: seq<string>, k: nat)
    requires k < |p|
  {
    Link(elems, if k == 0 then "" else p[k - 1], p[k])
  }

  ghost predicate Link(elems: seq<Elem>, anchor: string, id: string)
  {
    exists e :: e in elems && e.id == id && e.after == anchor
  }

  ghost predicate HasPath(elems: seq<Elem>, id: string)
  {
    exists p :: IsPath(elems, p, id)
  }

  /** An element stands before what was inserted below it, and below one anchor the higher id goes first. */
  ghost predicate Before(p: seq<string>, q: seq<string>)
  {
    p < q || exists k :: Splits(p, q, k)
  }

  predicate Splits(p: seq<string>, q: seq<string>, k: nat)
  {
    k < |p| && k < |q| && p[..k] == q[..k] && Less(q[k], p[k])
  }

  lemma PathMore(elems: seq<Elem>, p: seq<string>, e: Elem)
    requires e in elems && (if p == [] then e.after == "" else IsPath(elems, p, e.after))
    ensures IsPath(elems, p + [e.id], e.id)
  {
    var q := p + [e.id];
    forall k | 0 <= k < |q|
      ensures LinkAt(elems, q, k)
    {
      if k < |p| {
        assert LinkAt(elems, p, k);
      } else {
        assert e in elems && e.id == q[k];
      }
    }
  }

  lemma PathLess(elems: seq<Elem>, p: seq<string>, id: string)
    requires IsPath(elems, p, id) && |p| > 1
    ensures IsPath(elems, p[..|p| - 1], p[|p| - 2])
  {
    var q := p[..|p| - 1];
    forall k | 0 <= k < |q|
      ensures LinkAt(elems, q, k)
    {
      assert LinkAt(elems, p, k);
    }
  }

  lemma LastLink(elems: seq<Elem>, p: seq<string>, e: Elem)
    requires Unique(elems) && IsPath(elems, p, e.id) && e in elems
    ensures e.after == if |p| == 1 then "" else p[|p| - 2]
  {
    var k := |p| - 1;
    assert LinkAt(elems, p, k);
    var x :| x in elems && x.id == p[k] && x.after == if k == 0 then "" else p[k - 1];
    P.OneElement(elems, x, e);
  }

  /** An element has one path. */
  lemma {:induction false} OnePath(elems: seq<Elem>, p: seq<string>, q: seq<string>, id: string)
    requires Unique(elems) && "" !in IdSet(elems) && IsPath(elems, p, id) && IsPath(elems, q, id)
    ensures p == q
    decreases |p|
  {
    assert LinkAt(elems, p, |p| - 1);
    var e :| e in elems && e.id == id;
    LastLink(elems, p, e);
    LastLink(elems, q, e);
    NotHead(elems, p);
    NotHead(elems, q);
    if |p| > 1 && |q| > 1 {
      PathLess(elems, p, id);
      PathLess(elems, q, id);
      OnePath(elems, p[..|p| - 1], q[..|q| - 1], e.after);
      assert p == p[..|p| - 1] + [id] && q == q[..|q| - 1] + [id];
    }
  }

  lemma NotHead(elems: seq<Elem>, p: seq<string>)
    requires "" !in IdSet(elems) && p != [] && IsPath(elems, p, p[|p| - 1])
    ensures forall k :: 0 <= k < |p| ==> p[k] != ""
  {
    forall k | 0 <= k < |p|
      ensures p[k] != ""
    {
      assert LinkAt(elems, p, k);
    }
  }

  // ---------------------------------------------------------------- the walk goes by paths

  /** The path goes through the anchor's path and one of these siblings. */
  ghost predicate Through(p: seq<string>, anchor: seq<string>, siblings: seq<Elem>)
  {
    |p| > |anchor| && p[..|anchor|] == anchor && p[|anchor|] in Ids(siblings)
  }

  ghost predicate PathOf(elems: seq<Elem>, p: seq<string>, anchor: seq<string>, siblings: seq<Elem>, e: Elem)
  {
    IsPath(elems, p, e.id) && Through(p, anchor, siblings)
  }

  ghost predicate Reached(elems: seq<Elem>, anchor: seq<string>, siblings: seq<Elem>, e: Elem)
  {
    exists p :: PathOf(elems, p, anchor, siblings, e)
  }

  /** Any path of the one is before any path of the other. */
  ghost predicate Precedes(elems: seq<Elem>, x: Elem, y: Elem)
  {
    forall p, q :: IsPath(elems, p, x.id) && IsPath(elems, q, y.id) ==> Before(p, q)
  }

  ghost predicate ByPaths(elems: seq<Elem>, out: seq<Elem>)
  {
    forall i, j :: 0 <= i < j < |out| ==> Precedes(elems, out[i], out[j])
  }

  ghost predicate Walks(elems: seq<Elem>, anchor: seq<string>, siblings: seq<Elem>, out: seq<Elem>)
  {
    ByPaths(elems, out) && forall e :: e in out ==> Reached(elems, anchor, siblings, e)
  }

  /** The siblings are elements below the end of the path, higher ids first. */
  ghost predicate Row(elems: seq<Elem>, anchor: seq<string>, siblings: seq<Elem>)
  {
    && (forall e :: e in siblings ==> e in elems && e.after == if anchor == [] then "" else anchor[|anchor| - 1])
    && (anchor != [] ==> IsPath(elems, anchor, anchor[|anchor| - 1]))
    && P.Descending(Ids(siblings))
  }

  lemma RowRest(elems: seq<Elem>, anchor: seq<string>, siblings: seq<Elem>)
    requires Row(elems, anchor, siblings) && siblings != []
    ensures Row(elems, anchor, siblings[1..])
    ensures forall x :: x in Ids(siblings[1..]) ==> Less(x, siblings[0].id)
  {
    var ids, rest := Ids(siblings), Ids(siblings[1..]);
    assert forall i :: 0 <= i < |rest| ==> rest[i] == ids[i + 1];
    forall x | x in rest
      ensures Less(x, siblings[0].id)
    {
      var i :| 0 <= i < |rest| && rest[i] == x;
      assert P.Over(ids[0], ids[i + 1]);
    }
  }

  lemma RowBelow(elems: seq<Elem>, anchor: seq<string>, e: Elem)
    requires Unique(elems) && e in elems && (if anchor == [] then e.after == "" else IsPath(elems, anchor, e.after))
    ensures Row(elems, anchor + [e.id], Kids(elems, e.id))
  {
    P.KidsDescend(elems, e.id);
    PathMore(elems, anchor, e);
  }

  lemma ThroughBelow(elems: seq<Elem>, anchor: seq<string>, siblings: seq<Elem>, kids: seq<Elem>, x: Elem)
    requires siblings != [] && Reached(elems, anchor + [siblings[0].id], kids, x)
    ensures Reached(elems, anchor, siblings, x)
    ensures exists p :: PathOf(elems, p, anchor, siblings, x) && anchor + [siblings[0].id] < p
  {
    var a := anchor + [siblings[0].id];
    var p :| PathOf(elems, p, a, kids, x);
    assert p[..|anchor|] == p[..|a|][..|anchor|];
    assert p[|anchor|] == p[..|a|][|anchor|];
    assert Ids(siblings)[0] == siblings[0].id;
    assert PathOf(elems, p, anchor, siblings, x);
  }

  lemma ThroughBeside(elems: seq<Elem>, anchor: seq<string>, siblings: seq<Elem>, x: Elem)
    requires siblings != [] && Reached(elems, anchor, siblings[1..], x)
    ensures Reached(elems, anchor, siblings, x)
  {
    var p :| PathOf(elems, p, anchor, siblings[1..], x);
    var i :| 0 <= i < |Ids(siblings[1..])| && Ids(siblings[1..])[i] == p[|anchor|];
    assert Ids(siblings)[i + 1] == p[|anchor|];
    assert PathOf(elems, p, anchor, siblings, x);
  }

  lemma HeadFirst(elems: seq<Elem>, anchor: seq<string>, e: Elem, kids: seq<Elem>, x: Elem)
    requires Unique(elems) && "" !in IdSet(elems) && IsPath(elems, anchor + [e.id], e.id)
    requires Reached(elems, anchor + [e.id], kids, x)
    ensures Precedes(elems, e, x)
  {
    var a := anchor + [e.id];
    var q0 :| PathOf(elems, q0, a, kids, x);
    forall p, q | IsPath(elems, p, e.id) && IsPath(elems, q, x.id)
      ensures Before(p, q)
    {
      OnePath(elems, p, a, e.id);
      OnePath(elems, q, q0, x.id);
      assert p == q[..|p|];
    }
  }

  /** What goes through the first sibling is before what goes through a later one. */
  lemma BranchFirst(elems: seq<Elem>, anchor: seq<string>, siblings: seq<Elem>, x: Elem, y: Elem, px: seq<string>)
    requires Unique(elems) && "" !in IdSet(elems) && siblings != [] && Row(elems, anchor, siblings)
    requires IsPath(elems, px, x.id) && anchor + [siblings[0].id] <= px && Reached(elems, anchor, siblings[1..], y)
    ensures Precedes(elems, x, y)
  {
    RowRest(elems, anchor, siblings);
    var py :| PathOf(elems, py, anchor, siblings[1..], y);
    forall p, q | IsPath(elems, p, x.id) && IsPath(elems, q, y.id)
      ensures Before(p, q)
    {
      OnePath(elems, p, px, x.id);
      OnePath(elems, q, py, y.id);
      assert p[..|anchor|] == (anchor + [siblings[0].id])[..|anchor|] == q[..|anchor|];
      assert p[|anchor|] == (anchor + [siblings[0].id])[|anchor|];
      assert Splits(p, q, |anchor|);
    }
  }

  lemma JoinByPaths(elems: seq<Elem>, s: seq<Elem>, t: seq<Elem>)
    requires ByPaths(elems, s) && ByPaths(elems, t) && forall x, y :: x in s && y in t ==> Precedes(elems, x, y)
    ensures ByPaths(elems, s + t)
  {
    hide Precedes;
  }

  /** One sibling's block, and then the other siblings'. */
  lemma JoinWalks(elems: seq<Elem>, anchor: seq<string>, siblings: seq<Elem>, below: seq<Elem>, beside: seq<Elem>)
    requires Unique(elems) && "" !in IdSet(elems) && siblings != [] && Row(elems, anchor, siblings)
    requires Walks(elems, anchor + [siblings[0].id], Kids(elems, siblings[0].id), below)
    requires Walks(elems, anchor, siblings[1..], beside)
    ensures Walks(elems, anchor, siblings, [siblings[0]] + below + beside)
  {
    hide Unique, IsPath, Row, Precedes;
    var e, kids := siblings[0], Kids(elems, siblings[0].id);
    HeadPath(elems, anchor, siblings);
    forall x | x in below
      ensures Reached(elems, anchor, siblings, x) && Precedes(elems, e, x)
      ensures forall y :: y in beside ==> Precedes(elems, x, y)
    {
      ThroughBelow(elems, anchor, siblings, kids, x);
      HeadFirst(elems, anchor, e, kids, x);
      var px :| PathOf(elems, px, anchor, siblings, x) && anchor + [e.id] < px;
      forall y | y in beside
        ensures Precedes(elems, x, y)
      {
        BranchFirst(elems, anchor, siblings, x, y, px);
      }
    }
    forall y | y in beside
      ensures Reached(elems, anchor, siblings, y) && Precedes(elems, e, y)
    {
      ThroughBeside(elems, anchor, siblings, y);
      BranchFirst(elems, anchor, siblings, e, y, anchor + [e.id]);
    }
    JoinByPaths(elems, [e], below);
    JoinByPaths(elems, [e] + below, beside);
  }

  lemma HeadPath(elems: seq<Elem>, anchor: seq<string>, siblings: seq<Elem>)
    requires siblings != [] && Row(elems, anchor, siblings)
    ensures IsPath(elems, anchor + [siblings[0].id], siblings[0].id) && Reached(elems, anchor, siblings, siblings[0])
  {
    var e := siblings[0];
    PathMore(elems, anchor, e);
    assert Ids(siblings)[0] == e.id;
    assert PathOf(elems, anchor + [e.id], anchor, siblings, e);
  }

  lemma {:induction false} WalkByPaths(elems: seq<Elem>, anchor: seq<string>, siblings: seq<Elem>, visited: set<string>)
    requires Unique(elems) && "" !in IdSet(elems) && Row(elems, anchor, siblings)
    requires forall e :: e in siblings ==> e in elems
    ensures Walks(elems, anchor, siblings, Walk(elems, siblings, visited).out)
    decreases IdSet(elems) - visited, |siblings|
  {
    hide Unique, Row, Walks, Kids;
    if siblings == [] {
      NoWalk(elems, anchor);
    } else {
      var e := siblings[0];
      RowRest(elems, anchor, siblings);
      P.IdKnown(elems, e);
      if e.id in visited {
        WalkByPaths(elems, anchor, siblings[1..], visited);
        WalkSkips(elems, anchor, siblings, Walk(elems, siblings[1..], visited).out);
      } else {
        RowKids(elems, anchor, siblings);
        WalkByPaths(elems, anchor + [e.id], Kids(elems, e.id), visited + {e.id});
        var below := Walk(elems, Kids(elems, e.id), visited + {e.id});
        WalkByPaths(elems, anchor, siblings[1..], below.visited);
        JoinWalks(elems, anchor, siblings, below.out, Walk(elems, siblings[1..], below.visited).out);
      }
    }
  }

  lemma NoWalk(elems: seq<Elem>, anchor: seq<string>)
    ensures Walks(elems, anchor, [], [])
  {
  }

  lemma RowKids(elems: seq<Elem>, anchor: seq<string>, siblings: seq<Elem>)
    requires Unique(elems) && siblings != [] && Row(elems, anchor, siblings)
    ensures Row(elems, anchor + [siblings[0].id], Kids(elems, siblings[0].id))
  {
    RowBelow(elems, anchor, siblings[0]);
  }

  lemma WalkSkips(elems: seq<Elem>, anchor: seq<string>, siblings: seq<Elem>, out: seq<Elem>)
    requires siblings != [] && Walks(elems, anchor, siblings[1..], out)
    ensures Walks(elems, anchor, siblings, out)
  {
    hide Reached, ByPaths;
    forall x | x in out
      ensures Reached(elems, anchor, siblings, x)
    {
      ThroughBeside(elems, anchor, siblings, x);
    }
  }

  // ---------------------------------------------------------------- the walk reaches every path

  /** Whatever the walk visited newly, it visited below, too. */
  ghost predicate Thorough(elems: seq<Elem>, visited: set<string>, visited': set<string>)
  {
    forall e :: e in elems && e.after in visited' && e.after !in visited ==> e.id in visited'
  }

  lemma {:induction false} WalkThorough(elems: seq<Elem>, siblings: seq<Elem>, visited: set<string>)
    requires forall e :: e in siblings ==> e in elems
    ensures Thorough(elems, visited, Walk(elems, siblings, visited).visited)
    ensures forall e :: e in siblings ==> e.id in Walk(elems, siblings, visited).visited
    decreases IdSet(elems) - visited, |siblings|
  {
    hide Kids;
    if siblings != [] {
      var e := siblings[0];
      assert siblings == [e] + siblings[1..];
      P.IdKnown(elems, e);
      if e.id in visited {
        WalkThorough(elems, siblings[1..], visited);
      } else {
        WalkThorough(elems, Kids(elems, e.id), visited + {e.id});
        var below := Walk(elems, Kids(elems, e.id), visited + {e.id});
        assert forall x :: x in elems && x.after == e.id ==> x in Kids(elems, e.id);
        WalkThorough(elems, siblings[1..], below.visited);
      }
    }
  }

  lemma {:induction false} PathVisited(elems: seq<Elem>, p: seq<string>, id: string)
    requires IsPath(elems, p, id)
    ensures id in Walk(elems, Kids(elems, ""), {}).visited
    decreases |p|
  {
    hide Kids, Walk;
    WalkThorough(elems, Kids(elems, ""), {});
    assert LinkAt(elems, p, |p| - 1);
    if |p| == 1 {
      var e :| e in elems && e.id == id && e.after == "";
    } else {
      PathLess(elems, p, id);
      PathVisited(elems, p[..|p| - 1], p[|p| - 2]);
      var e :| e in elems && e.id == id && e.after == p[|p| - 2];
    }
  }

  /**
   The order, without the walk: first the elements with a path from the head, by their paths; then the
   others, higher ids first.
   */
  lemma OrderIsByPaths(elems: seq<Elem>, i: nat, j: nat)
    requires Unique(elems) && "" !in IdSet(elems) && i < j < |Order(elems)|
    ensures var x, y := Order(elems)[i], Order(elems)[j];
      && (HasPath(elems, y.id) ==> HasPath(elems, x.id) && Precedes(elems, x, y))
      && (!HasPath(elems, x.id) ==> !HasPath(elems, y.id) && Less(y.id, x.id))
  {
    hide Order, Walk, Rest, Kids, Unique, Sorting.Sort, HasPath, Precedes, IsPath;
    var w := Walk(elems, Kids(elems, ""), {});
    var rest := Sorting.Sort(Rest(elems, w.visited), Above);
    P.OrderIs(elems);
    P.WalkVisits(elems, Kids(elems, ""), {});
    P.RestIs(elems, w.visited);
    P.SortDescends(Rest(elems, w.visited));
    TopRow(elems);
    WalkByPaths(elems, [], Kids(elems, ""), {});
    forall e | e in w.out
      ensures HasPath(elems, e.id)
    {
      ReachedHasPath(elems, Kids(elems, ""), e);
    }
    forall e | e in rest
      ensures !HasPath(elems, e.id)
    {
      if HasPath(elems, e.id) {
        PathIsVisited(elems, e.id);
      }
    }
    var x, y := Order(elems)[i], Order(elems)[j];
    if j < |w.out| {
      assert x == w.out[i] && y == w.out[j];
    } else {
      assert y == rest[j - |w.out|];
      if i >= |w.out| {
        assert x == rest[i - |w.out|];
        DescendingAt(rest, i - |w.out|, j - |w.out|);
      } else {
        assert x == w.out[i];
      }
    }
  }

  lemma TopRow(elems: seq<Elem>)
    requires Unique(elems)
    ensures Row(elems, [], Kids(elems, ""))
  {
    P.KidsDescend(elems, "");
  }

  lemma ReachedHasPath(elems: seq<Elem>, siblings: seq<Elem>, e: Elem)
    requires Reached(elems, [], siblings, e)
    ensures HasPath(elems, e.id)
  {
  }

  lemma PathIsVisited(elems: seq<Elem>, id: string)
    requires HasPath(elems, id)
    ensures id in Walk(elems, Kids(elems, ""), {}).visited
  {
    var p :| IsPath(elems, p, id);
    PathVisited(elems, p, id);
  }

  lemma DescendingAt(s: seq<Elem>, i: nat, j: nat)
    requires P.Descending(Ids(s)) && i < j < |s|
    ensures Less(s[j].id, s[i].id)
  {
    assert P.Over(Ids(s)[i], Ids(s)[j]);
  }

  // ---------------------------------------------------------------- the text

  /** What an element adds to the text. */
  function Shows(e: Elem): string
  {
    if e.deleted then "" else e.value
  }

  /** The text, cut at these places, is what each element shows, in this order. */
  ghost predicate Spells(s: seq<Elem>, text: string, cuts: seq<nat>)
  {
    && |cuts| == |s| + 1 && cuts[0] == 0 && cuts[|s|] == |text|
    && forall i :: 0 <= i < |s| ==> Piece(s, text, cuts, i)
  }

  predicate Piece(s: seq<Elem>, text: string, cuts: seq<nat>, i: nat)
    requires i < |s| && |cuts| == |s| + 1
  {
    cuts[i] <= cuts[i + 1] <= |text| && text[cuts[i]..cuts[i + 1]] == Shows(s[i])
  }

  lemma SpellsMore(s: seq<Elem>, text: string, cuts: seq<nat>, e: Elem)
    requires Spells(s, text, cuts)
    ensures Spells(s + [e], text + Shows(e), cuts + [|text| + |Shows(e)|])
  {
    hide Shows;
    var s', text', cuts' := s + [e], text + Shows(e), cuts + [|text| + |Shows(e)|];
    forall i | 0 <= i < |s'|
      ensures Piece(s', text', cuts', i)
    {
      if i < |s| {
        assert Piece(s, text, cuts, i);
        assert text'[cuts[i]..cuts[i + 1]] == text[cuts[i]..cuts[i + 1]];
      } else {
        assert text'[|text|..] == Shows(e);
      }
    }
  }

  /** The text a reader sees is spelled by the live elements ... */
  lemma {:induction false} TextSpelled(s: seq<Elem>) returns (cuts: seq<nat>)
    ensures Spells(s, Text(s), cuts)
  {
    if s == [] {
      cuts := [0];
    } else {
      var init, e := s[..|s| - 1], s[|s| - 1];
      var cuts1 := TextSpelled(init);
      SpellsMore(init, Text(init), cuts1, e);
      cuts := cuts1 + [|Text(init)| + |Shows(e)|];
      assert init + [e] == s;
    }
  }

  /** ... and there is no other text like that. */
  lemma {:induction false} SpelledOnce(s: seq<Elem>, text: string, cuts: seq<nat>)
    requires Spells(s, text, cuts)
    ensures text == Text(s)
  {
    hide Shows;
    if s == [] {
      assert text == "";
    } else {
      var k := |s| - 1;
      assert Piece(s, text, cuts, k);
      var init, text1, cuts1 := s[..k], text[..cuts[k]], cuts[..|s|];
      forall i | 0 <= i < k
        ensures Piece(init, text1, cuts1, i)
      {
        Ordered(s, text, cuts, i + 1, k);
        assert Piece(s, text, cuts, i);
        assert text1[cuts[i]..cuts[i + 1]] == text[cuts[i]..cuts[i + 1]];
      }
      SpelledOnce(init, text1, cuts1);
      assert text == text1 + text[cuts[k]..cuts[k + 1]];
      TextLast(s);
    }
  }

  lemma TextLast(s: seq<Elem>)
    requires s != []
    ensures Text(s) == Text(s[..|s| - 1]) + Shows(s[|s| - 1])
  {
  }

  lemma {:induction false} Ordered(s: seq<Elem>, text: string, cuts: seq<nat>, i: nat, j: nat)
    requires Spells(s, text, cuts) && i <= j <= |s|
    ensures cuts[i] <= cuts[j]
    decreases j
  {
    if i < j {
      Ordered(s, text, cuts, i, j - 1);
      assert Piece(s, text, cuts, j - 1);
    }
  }

  lemma {:induction false} TextAppend(s: seq<Elem>, t: seq<Elem>)
    ensures Text(s + t) == Text(s) + Text(t)
  {
    if t == [] {
      assert s + t == s;
    } else {
      var init := t[..|t| - 1];
      assert (s + t)[..|s + t| - 1] == s + init;
      TextAppend(s, init);
    }
  }

  lemma TextEnd(s: seq<Elem>, e: Elem)
    ensures Text(s + [e]) == Text(s) + Shows(e)
  {
    assert (s + [e])[..|s|] == s;
  }

  lemma TextAround(a: seq<Elem>, e: Elem, b: seq<Elem>)
    ensures Text(a + [e] + b) == Text(a) + Shows(e) + Text(b)
  {
    hide Text, Shows;
    TextAppend(a + [e], b);
    TextEnd(a, e);
  }

  lemma CutAt(s: seq<Elem>, k: nat)
    requires k < |s|
    ensures s == s[..k] + [s[k]] + s[k + 1..]
  {
  }

  /** Each element adds what it shows, between what stands before it and what stands behind it. */
  lemma TextAt(s: seq<Elem>, k: nat)
    requires k < |s|
    ensures Text(s) == Text(s[..k]) + Shows(s[k]) + Text(s[k + 1..])
  {
    hide Text, Shows;
    CutAt(s, k);
    TextAround(s[..k], s[k], s[k + 1..]);
  }

  lemma {:induction false} SameText(s: seq<Elem>, t: seq<Elem>)
    requires |s| == |t| && forall i :: 0 <= i < |s| ==> Shows(s[i]) == Shows(t[i])
    ensures Text(s) == Text(t)
  {
    if s != [] {
      SameText(s[..|s| - 1], t[..|t| - 1]);
    }
  }

  // ---------------------------------------------------------------- changing elements where they are

  /** The same ids and anchors. */
  ghost predicate SameFrame(a: seq<Elem>, b: seq<Elem>)
  {
    |a| == |b| && forall i :: 0 <= i < |a| ==> a[i].id == b[i].id && a[i].after == b[i].after
  }

  lemma FrameIds(a: seq<Elem>, b: seq<Elem>)
    requires SameFrame(a, b)
    ensures IdSet(a) == IdSet(b) && (Unique(a) ==> Unique(b))
  {
    forall x
      ensures x in IdSet(a) <==> x in IdSet(b)
    {
      if x in IdSet(a) {
        var e :| e in a && e.id == x;
        var i :| 0 <= i < |a| && a[i] == e;
        assert b[i] in b && b[i].id == x;
      }
      if x in IdSet(b) {
        var e :| e in b && e.id == x;
        var i :| 0 <= i < |b| && b[i] == e;
        assert a[i] in a && a[i].id == x;
      }
    }
  }

  lemma FramePart(a: seq<Elem>, b: seq<Elem>)
    requires SameFrame(a, b) && Unique(a)
    ensures P.PartOf(a, b)
  {
    FrameIds(a, b);
    forall x, y | x in a && y in b && x.id == y.id
      ensures x.after == y.after
    {
      var i :| 0 <= i < |a| && a[i] == x;
      var j :| 0 <= j < |b| && b[j] == y;
      assert a[i].id == a[j].id;
    }
    forall x | x in a
      ensures x.after in IdSet(a) || x.after !in IdSet(b)
    {
    }
  }

  /** Values and flags do not move anything. */
  lemma SamePlaces(a: seq<Elem>, b: seq<Elem>)
    requires SameFrame(a, b) && Unique(a)
    ensures Ids(Order(a)) == Ids(Order(b))
  {
    hide Order, Unique, SameFrame, P.PartOf;
    FrameIds(a, b);
    FramePart(a, b);
    P.OrderIsSubsequence(a, b);
    P.OrderIsPermutation(b);
    P.KeepAll(Order(b), b);
  }

  /** Where an element stands in the order. */
  lemma StandsAt(elems: seq<Elem>, i: nat) returns (k: nat)
    requires Unique(elems) && i < |elems|
    ensures k < |Order(elems)| && Order(elems)[k] == elems[i]
    ensures forall j :: 0 <= j < |Order(elems)| && Order(elems)[j].id == elems[i].id ==> j == k
  {
    hide Order;
    P.OrderIsPermutation(elems);
    assert elems[i] in multiset(Order(elems));
    k :| 0 <= k < |Order(elems)| && Order(elems)[k] == elems[i];
  }

  /** Replacing one element by one of the same id and anchor replaces it in the order. */
  lemma ReplacedInOrder(elems: seq<Elem>, i: nat, e: Elem) returns (k: nat)
    requires Unique(elems) && i < |elems| && e.id == elems[i].id && e.after == elems[i].after
    ensures k < |Order(elems)| && Order(elems)[k] == elems[i]
    ensures Order(elems[i := e]) == Order(elems)[k := e]
  {
    hide Order, Unique;
    var elems' := elems[i := e];
    FrameIds(elems, elems');
    SamePlaces(elems, elems');
    k := StandsAt(elems, i);
    var o, o' := Order(elems), Order(elems');
    assert |o'| == |Ids(o')| == |Ids(o)| == |o|;
    forall j | 0 <= j < |o|
      ensures o'[j] == o[k := e][j]
    {
      assert o'[j].id == Ids(o')[j] == Ids(o)[j] == o[j].id;
      SameElsewhere(elems, i, e, o, o', j, k);
    }
  }

  lemma SameElsewhere(elems: seq<Elem>, i: nat, e: Elem, o: seq<Elem>, o': seq<Elem>, j: nat, k: nat)
    requires Unique(elems) && i < |elems| && e.id == elems[i].id && e.after == elems[i].after
    requires o == Order(elems) && o' == Order(elems[i := e]) && j < |o| && j < |o'| && k < |o| && o[k] == elems[i]
    requires o'[j].id == o[j].id && forall h :: 0 <= h < |o| && o[h].id == elems[i].id ==> h == k
    ensures o'[j] == o[k := e][j]
  {
    hide Order;
    var elems' := elems[i := e];
    FrameIds(elems, elems');
    P.OrderIsPermutation(elems);
    P.OrderIsPermutation(elems');
    assert o'[j] in multiset(elems') && o[j] in multiset(elems);
    if j == k {
      assert e == elems'[i];
      P.OneElement(elems', o'[j], e);
    } else {
      var h :| 0 <= h < |elems| && elems[h] == o[j];
      assert elems'[h] == o[j];
      P.OneElement(elems', o'[j], o[j]);
    }
  }

  /** Deleting an element takes its value out of the text, and nothing else. */
  lemma DeleteRemovesValue(elems: seq<Elem>, i: nat) returns (before: string, after: string)
    requires Unique(elems) && i < |elems|
    ensures Text(Order(elems)) == before + Shows(elems[i]) + after
    ensures Text(Order(elems[i := elems[i].(deleted := true)])) == before + after
  {
    hide Order, Text;
    var e := elems[i].(deleted := true);
    var k := ReplacedInOrder(elems, i, e);
    var o := Order(elems);
    TextAt(o, k);
    TextAt(o[k := e], k);
    before, after := Text(o[..k]), Text(o[k + 1..]);
    assert o[k := e][..k] == o[..k] && o[k := e][k + 1..] == o[k + 1..];
  }

  /** What a deleted element says cannot be seen. */
  lemma DeletedUnseen(elems: seq<Elem>, i: nat, value: string)
    requires Unique(elems) && i < |elems| && elems[i].deleted
    ensures Text(Order(elems[i := elems[i].(value := value)])) == Text(Order(elems))
  {
    hide Order;
    var e := elems[i].(value := value);
    var k := ReplacedInOrder(elems, i, e);
    SameText(Order(elems)[k := e], Order(elems));
  }

  // ---------------------------------------------------------------- merging

  ghost predicate DeletedIn(s: seq<Elem>, id: string)
  {
    exists e :: e in s && e.id == id && e.deleted
  }

  lemma {:induction false} ByIdFlags(s: seq<Elem>, id: string)
    ensures id in ById(s) <==> id in IdSet(s)
    ensures id in ById(s) ==> (ById(s)[id].deleted <==> DeletedIn(s, id))
  {
    if s != [] {
      var init, e := s[..|s| - 1], s[|s| - 1];
      assert s == init + [e];
      ByIdFlags(init, id);
      ByIdFlags(init, e.id);
      if DeletedIn(init, id) {
        var x :| x in init && x.id == id && x.deleted;
        assert x in s;
      }
      if e.id == id {
        assert e in s;
      }
    }
  }

  /** A merged element is deleted exactly if one of its id is deleted on either side. */
  lemma MergeFlags(a: seq<Elem>, b: seq<Elem>, r: seq<Elem>, e: Elem)
    requires IsMerge(a, b, r) && e in r
    ensures e.deleted <==> DeletedIn(a, e.id) || DeletedIn(b, e.id)
  {
    hide ById, AscendingIds, Unique;
    P.AscendingUnique(r);
    P.ByIdUnique(r);
    ByIdFlags(a + b, e.id);
    EitherDeleted(a, b, e.id);
  }

  lemma EitherDeleted(a: seq<Elem>, b: seq<Elem>, id: string)
    ensures DeletedIn(a + b, id) <==> DeletedIn(a, id) || DeletedIn(b, id)
  {
    if DeletedIn(a, id) {
      var e :| e in a && e.id == id && e.deleted;
      assert e in a + b;
    }
    if DeletedIn(b, id) {
      var e :| e in b && e.id == id && e.deleted;
      assert e in a + b;
    }
  }

  /** In the merged text, an element shows its value unless it is deleted on either side; then it adds nothing. */
  lemma MergeShows(a: seq<Elem>, b: seq<Elem>, r: seq<Elem>, k: nat)
    requires IsMerge(a, b, r) && k < |Order(r)|
    ensures var e := Order(r)[k];
      Text(Order(r)) == Text(Order(r)[..k])
        + (if DeletedIn(a, e.id) || DeletedIn(b, e.id) then "" else e.value) + Text(Order(r)[k + 1..])
  {
    hide Order, Text, Unique, ById, DeletedIn;
    TextAt(Order(r), k);
    MergeIsUnique(a, b, r);
    P.OrderIsPermutation(r);
    assert Order(r)[k] in multiset(r);
    MergeFlags(a, b, r, Order(r)[k]);
  }

  lemma MergeIsUnique(a: seq<Elem>, b: seq<Elem>, r: seq<Elem>)
    requires IsMerge(a, b, r)
    ensures Unique(r)
  {
    P.AscendingUnique(r);
  }
}
