/** The byte-wise lexicographic order Go uses for `<`, `>` and strings.Compare on strings. */
module StringOrder {

  predicate Less(a: string, b: string)
  {
    if b == [] then false
    else if a == [] then true
    else if a[0] != b[0] then a[0] < b[0]
    else Less(a[1..], b[1..])
  }

  lemma {:induction false} Trichotomy(a: string, b: string)
    ensures a == b ==> !Less(a, b)
    ensures a != b ==> Less(a, b) != Less(b, a)
  {
    if a != [] && b != [] && a[0] == b[0] {
      assert a == [a[0]] + a[1..] && b == [b[0]] + b[1..];
      Trichotomy(a[1..], b[1..]);
    }
  }

  lemma {:induction false} Transitive(a: string, b: string, c: string)
    requires Less(a, b) && Less(b, c)
    ensures Less(a, c)
  {
    if a != [] && a[0] == b[0] == c[0] {
      Transitive(a[1..], b[1..], c[1..]);
    }
  }

  lemma StrictTotalOrder()
    ensures forall a, b :: a == b ==> !Less(a, b)
    ensures forall a, b :: a != b ==> Less(a, b) != Less(b, a)
    ensures forall a, b, c :: Less(a, b) && Less(b, c) ==> Less(a, c)
  {
    forall a, b
      ensures a == b ==> !Less(a, b)
      ensures a != b ==> Less(a, b) != Less(b, a)
    {
      Trichotomy(a, b);
    }
    forall a, b, c | Less(a, b) && Less(b, c)
      ensures Less(a, c)
    {
      Transitive(a, b, c);
    }
  }
}

/** What the callers of Go's sort package rely on, for any comparison function. */
module Sorting {

  /** Two elements neither of which is less than the other are tied. */
  ghost predicate WeakOrder<T(!new)>(less: (T, T) -> bool)
  {
    && (forall x, y :: less(x, y) ==> !less(y, x))
    && (forall x, y, z :: less(x, z) ==> less(x, y) || less(y, z))
  }

  /** A weak order in which only equal elements are tied. */
  ghost predicate StrictTotal<T(!new)>(less: (T, T) -> bool)
  {
    && WeakOrder(less)
    && (forall x, y :: x != y ==> less(x, y) || less(y, x))
  }

  ghost predicate Sorted<T(!new)>(s: seq<T>, less: (T, T) -> bool)
  {
    forall i, j :: 0 <= i < j < |s| ==> !less(s[j], s[i])
  }

  /** Inserts x behind every element it is not less than, so ties keep their order. */
  function Insert<T>(x: T, s: seq<T>, less: (T, T) -> bool): (r: seq<T>)
    ensures multiset(r) == multiset(s) + multiset{x}
    ensures |r| == |s| + 1
  {
    if s == [] then [x]
    else if less(x, s[|s| - 1]) then
      assert s == s[..|s| - 1] + [s[|s| - 1]];
      Insert(x, s[..|s| - 1], less) + [s[|s| - 1]]
    else s + [x]
  }

  function Sort<T>(s: seq<T>, less: (T, T) -> bool): (r: seq<T>)
    ensures multiset(r) == multiset(s)
    ensures |r| == |s|
  {
    if s == [] then []
    else
      assert s == s[..|s| - 1] + [s[|s| - 1]];
      Insert(s[|s| - 1], Sort(s[..|s| - 1], less), less)
  }

  lemma {:induction false} InsertSorted<T(!new)>(x: T, s: seq<T>, less: (T, T) -> bool)
    requires WeakOrder(less) && Sorted(s, less)
    ensures Sorted(Insert(x, s, less), less)
  {
    if s != [] {
      var last := s[|s| - 1];
      var init := s[..|s| - 1];
      if less(x, last) {
        InsertSorted(x, init, less);
        var r := Insert(x, init, less);
        forall i | 0 <= i < |r|
          ensures !less(last, r[i])
        {
          assert r[i] in multiset(r);
          if r[i] != x {
            assert r[i] in multiset(init);
            assert r[i] in init;
          }
        }
      } else {
        forall i | 0 <= i < |s|
          ensures !less(x, s[i])
        {
          if i < |s| - 1 {
            assert !less(last, s[i]);
          }
        }
      }
    }
  }

  lemma {:induction false} SortSorted<T(!new)>(s: seq<T>, less: (T, T) -> bool)
    requires WeakOrder(less)
    ensures Sorted(Sort(s, less), less)
  {
    if s != [] {
      SortSorted(s[..|s| - 1], less);
      InsertSorted(s[|s| - 1], Sort(s[..|s| - 1], less), less);
    }
  }

  lemma SameHead<T(!new)>(s: seq<T>, t: seq<T>, less: (T, T) -> bool)
    requires StrictTotal(less) && Sorted(s, less) && Sorted(t, less)
    requires s != [] && t != [] && s[0] in t && t[0] in s
    ensures s[0] == t[0]
  {
  }

  lemma SortedTail<T(!new)>(s: seq<T>, less: (T, T) -> bool)
    requires Sorted(s, less) && s != []
    ensures Sorted(s[1..], less) && multiset(s[1..]) == multiset(s) - multiset{s[0]}
  {
    assert s == [s[0]] + s[1..];
  }

  /** Under a strict total order the sorted arrangement is unique, whatever algorithm found it. */
  lemma {:induction false} SortedUnique<T(!new)>(s: seq<T>, t: seq<T>, less: (T, T) -> bool)
    requires StrictTotal(less)
    requires Sorted(s, less) && Sorted(t, less) && multiset(s) == multiset(t)
    ensures s == t
  {
    hide StrictTotal, Sorted;
    assert |s| == |multiset(s)| == |multiset(t)| == |t|;
    if s != [] {
      assert s[0] in multiset(t) && t[0] in multiset(s);
      SameHead(s, t, less);
      SortedTail(s, less);
      SortedTail(t, less);
      SortedUnique(s[1..], t[1..], less);
      assert s == [s[0]] + s[1..] && t == [t[0]] + t[1..];
    }
  }
}

/** Strictly ordered lists. */
module Chains {
  import opened StringOrder

  ghost predicate Chain<T(!new)>(s: seq<T>, r: (T, T) -> bool)
  {
    forall i, j :: 0 <= i < j < |s| ==> r(s[i], s[j])
  }

  ghost predicate Asymmetric<T(!new)>(r: (T, T) -> bool)
  {
    forall x, y :: r(x, y) ==> !r(y, x)
  }

  lemma HeadIn<T>(s: seq<T>)
    ensures s != [] ==> s[0] in s
  {
  }

  /** A strictly ordered list is determined by its members. */
  lemma {:induction false} SameChain<T(!new)>(s: seq<T>, t: seq<T>, r: (T, T) -> bool)
    requires Asymmetric(r) && Chain(s, r) && Chain(t, r) && forall x :: x in s <==> x in t
    ensures s == t
  {
    if s == [] {
      HeadIn(t);
    } else {
      assert s[0] in t && t[0] in t && t[0] in s;
      var k :| 0 <= k < |t| && t[k] == s[0];
      var m :| 0 <= m < |s| && s[m] == t[0];
      assert s[0] == t[0];
      forall x
        ensures x in s[1..] <==> x in t[1..]
      {
        assert x in s[1..] ==> x in s && r(s[0], x);
        assert x in t[1..] ==> x in t && r(t[0], x);
        assert x in s <==> x == s[0] || x in s[1..];
        assert x in t <==> x == t[0] || x in t[1..];
      }
      SameChain(s[1..], t[1..], r);
      assert s == [s[0]] + s[1..] && t == [t[0]] + t[1..];
    }
  }

  /** What sort.Strings makes of different strings. */
  ghost predicate Ascending(s: seq<string>)
  {
    Chain(s, Less)
  }

  lemma SameAscending(s: seq<string>, t: seq<string>)
    requires Ascending(s) && Ascending(t) && forall x :: x in s <==> x in t
    ensures s == t
  {
    forall x, y | Less(x, y)
      ensures !Less(y, x)
    {
      Trichotomy(x, y);
    }
    SameChain(s, t, Less);
  }

  // ---------------------------------------------------------------- lists without repeats

  ghost predicate Different<T>(s: seq<T>)
  {
    forall i, j :: 0 <= i < j < |s| ==> s[i] != s[j]
  }

  lemma {:induction false} OnceEach<T>(s: seq<T>, x: T)
    requires Different(s)
    ensures multiset(s)[x] == if x in s then 1 else 0
  {
    if s != [] {
      assert s == s[..|s| - 1] + [s[|s| - 1]];
      OnceEach(s[..|s| - 1], x);
    }
  }

  lemma Twice<T>(s: seq<T>, i: nat, j: nat)
    requires i < j < |s|
    ensures s[i] == s[j] ==> multiset(s)[s[i]] >= 2
  {
    assert s == s[..j] + [s[j]] + s[j + 1..];
    assert s[i] in s[..j];
  }

  /** Rearranging keeps the elements different. */
  lemma DifferentAfter<T>(s: seq<T>, t: seq<T>)
    requires multiset(s) == multiset(t) && Different(s)
    ensures |t| == |s| && Different(t) && forall x :: x in t <==> x in s
  {
    assert |multiset(s)| == |s| && |multiset(t)| == |t|;
    forall i, j | 0 <= i < j < |t|
      ensures t[i] != t[j]
    {
      OnceEach(s, t[i]);
      Twice(t, i, j);
    }
    assert forall x :: x in t <==> x in multiset(t);
    assert forall x :: x in s <==> x in multiset(s);
  }
}

/** Strings gathered from a map and sorted, as the source does before reporting them. */
module StringLists {
  import opened Chains
  import opened StringOrder
  import Sorting

  /** The members of a set in any order, each once: what ranging over a map yields. */
  method Listed(members: set<string>) returns (list: seq<string>)
    ensures Different(list) && forall k :: k in list <==> k in members
  {
    list := [];
    var todo := members;
    while todo != {}
      invariant todo <= members && Different(list)
      invariant forall k :: k in list <==> k in members && k !in todo
      decreases |todo|
    {
      var k :| k in todo;
      list := list + [k];
      todo := todo - {k};
    }
  }

  /** sort.Strings on strings without repeats. */
  method SortStrings(keys: seq<string>) returns (sorted: seq<string>)
    requires Different(keys)
    ensures Ascending(sorted) && forall k :: k in sorted <==> k in keys
  {
    hide Less;
    sorted := Sorting.Sort(keys, Less);
    SortAscends(keys, sorted);
  }

  lemma SortAscends(keys: seq<string>, sorted: seq<string>)
    requires Different(keys) && sorted == Sorting.Sort(keys, Less)
    ensures Ascending(sorted) && forall k :: k in sorted <==> k in keys
  {
    StrictTotalOrder();
    assert Sorting.WeakOrder(Less);
    Sorting.SortSorted(keys, Less);
    DifferentAfter(keys, sorted);
    forall i, j | 0 <= i < j < |sorted|
      ensures Less(sorted[i], sorted[j])
    {
      Trichotomy(sorted[i], sorted[j]);
    }
  }
}
