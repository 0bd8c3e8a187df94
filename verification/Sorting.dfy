/** Sorting by a comparison, as the library sorts do, and when the result does not depend on the input order. */
module Sorting {

  ghost predicate Linear<T(!new)>(le: (T, T) -> bool) {
    && (forall a, b :: le(a, b) || le(b, a))
    && (forall a, b, c :: le(a, b) && le(b, c) ==> le(a, c))
  }

  ghost predicate Antisymmetric<T(!new)>(le: (T, T) -> bool) {
    forall a, b :: le(a, b) && le(b, a) ==> a == b
  }

  ghost predicate Sorted<T>(xs: seq<T>, le: (T, T) -> bool) {
    forall i, j :: 0 <= i < j < |xs| ==> le(xs[i], xs[j])
  }

  function Insert<T>(x: T, xs: seq<T>, le: (T, T) -> bool): seq<T> {
    if |xs| == 0 || le(x, xs[0]) then [x] + xs else [xs[0]] + Insert(x, xs[1..], le)
  }

  /** Insertion sort; equal elements keep their order. */
  function Sort<T>(xs: seq<T>, le: (T, T) -> bool): seq<T> {
    if |xs| == 0 then [] else Insert(xs[0], Sort(xs[1..], le), le)
  }

  lemma {:induction false} InsertIsSorted<T(!new)>(x: T, xs: seq<T>, le: (T, T) -> bool)
    requires Linear(le) && Sorted(xs, le)
    ensures multiset(Insert(x, xs, le)) == multiset(xs) + multiset{x}
    ensures Sorted(Insert(x, xs, le), le)
    decreases |xs|
  {
    if |xs| == 0 || le(x, xs[0]) {
    } else {
      var rest := Insert(x, xs[1..], le);
      InsertIsSorted(x, xs[1..], le);
      assert xs == [xs[0]] + xs[1..];
      forall y | y in rest
        ensures le(xs[0], y)
      {
        assert y in multiset(rest);
        assert y == x || y in xs[1..];
      }
    }
  }

  lemma {:induction false} SortIsSorted<T(!new)>(xs: seq<T>, le: (T, T) -> bool)
    requires Linear(le)
    ensures multiset(Sort(xs, le)) == multiset(xs) && |Sort(xs, le)| == |xs|
    ensures Sorted(Sort(xs, le), le)
    decreases |xs|
  {
    if |xs| > 0 {
      SortIsSorted(xs[1..], le);
      InsertIsSorted(xs[0], Sort(xs[1..], le), le);
      assert xs == [xs[0]] + xs[1..];
    }
    assert |multiset(Sort(xs, le))| == |Sort(xs, le)|;
  }

  lemma SameHead<T(!new)>(xs: seq<T>, ys: seq<T>, le: (T, T) -> bool)
    requires Sorted(xs, le) && Sorted(ys, le) && multiset(xs) == multiset(ys) && |xs| > 0
    requires forall a, b :: a in xs && b in xs && le(a, b) && le(b, a) ==> a == b
    ensures |ys| > 0 && xs[0] == ys[0]
  {
    assert xs[0] in multiset(ys) && xs[0] in ys;
    assert ys[0] in multiset(xs) && ys[0] in xs;
  }

  lemma SameTail<T>(xs: seq<T>, ys: seq<T>)
    requires |xs| > 0 && |ys| > 0 && xs[0] == ys[0] && multiset(xs) == multiset(ys)
    ensures multiset(xs[1..]) == multiset(ys[1..])
  {
    assert xs == [xs[0]] + xs[1..] && ys == [ys[0]] + ys[1..];
    assert multiset(xs[1..]) == multiset(xs) - multiset{xs[0]};
    assert multiset(ys[1..]) == multiset(ys) - multiset{ys[0]};
  }

  /** Two sorted arrangements of the same elements are equal if only equal elements tie. */
  lemma {:induction false} SortedIsUnique<T(!new)>(xs: seq<T>, ys: seq<T>, le: (T, T) -> bool)
    requires Sorted(xs, le) && Sorted(ys, le) && multiset(xs) == multiset(ys)
    requires forall a, b :: a in xs && b in xs && le(a, b) && le(b, a) ==> a == b
    ensures xs == ys
    decreases |xs|
  {
    assert |multiset(xs)| == |xs| && |multiset(ys)| == |ys|;
    if |xs| > 0 {
      SameHead(xs, ys, le);
      SameTail(xs, ys);
      SortedIsUnique(xs[1..], ys[1..], le);
      assert xs == [xs[0]] + xs[1..] && ys == [ys[0]] + ys[1..];
    }
  }

  /** Sorting forgets the input order. */
  lemma SortIsCanonical<T(!new)>(xs: seq<T>, ys: seq<T>, le: (T, T) -> bool)
    requires Linear(le) && multiset(xs) == multiset(ys)
    requires forall a, b :: a in xs && b in xs && le(a, b) && le(b, a) ==> a == b
    ensures Sort(xs, le) == Sort(ys, le)
  {
    SortIsSorted(xs, le);
    SortIsSorted(ys, le);
    forall a | a in Sort(xs, le)
      ensures a in xs
    {
      assert a in multiset(Sort(xs, le));
    }
    SortedIsUnique(Sort(xs, le), Sort(ys, le), le);
  }

  // ---------- Sequences without repetitions ----------

  ghost predicate Unrepeated<T(!new)>(xs: seq<T>) {
    forall i, j :: 0 <= i < j < |xs| ==> xs[i] != xs[j]
  }

  lemma {:induction false} UnrepeatedCount<T(!new)>(xs: seq<T>, x: T)
    requires Unrepeated(xs)
    ensures multiset(xs)[x] == if x in xs then 1 else 0
    decreases |xs|
  {
    if |xs| > 0 {
      UnrepeatedCount(xs[..|xs| - 1], x);
      assert xs == xs[..|xs| - 1] + [xs[|xs| - 1]];
    }
  }

  lemma {:induction false} CountedIsUnrepeated<T(!new)>(xs: seq<T>)
    requires forall x :: multiset(xs)[x] <= 1
    ensures Unrepeated(xs)
    decreases |xs|
  {
    if |xs| > 0 {
      var init, last := xs[..|xs| - 1], xs[|xs| - 1];
      assert xs == init + [last];
      assert forall x :: multiset(xs)[x] >= multiset(init)[x];
      CountedIsUnrepeated(init);
      assert multiset(xs)[last] == multiset(init)[last] + 1;
    }
  }

  lemma {:induction false} UnrepeatedSize<T(!new)>(xs: seq<T>, elements: set<T>)
    requires Unrepeated(xs) && forall x :: x in xs <==> x in elements
    ensures |elements| == |xs|
    decreases |xs|
  {
    if |xs| > 0 {
      var init, last := xs[..|xs| - 1], xs[|xs| - 1];
      assert xs == init + [last];
      UnrepeatedSize(init, elements - {last});
    } else {
      assert elements == {};
    }
  }

  lemma SortIsUnrepeated<T(!new)>(xs: seq<T>, le: (T, T) -> bool)
    requires Linear(le) && Unrepeated(xs)
    ensures Unrepeated(Sort(xs, le))
  {
    SortIsSorted(xs, le);
    forall x
      ensures multiset(Sort(xs, le))[x] <= 1
    {
      UnrepeatedCount(xs, x);
    }
    CountedIsUnrepeated(Sort(xs, le));
  }

  lemma SameElementsSameMultiset<T(!new)>(xs: seq<T>, ys: seq<T>)
    requires Unrepeated(xs) && Unrepeated(ys) && forall x :: x in xs <==> x in ys
    ensures multiset(xs) == multiset(ys)
  {
    forall x
      ensures multiset(xs)[x] == multiset(ys)[x]
    {
      UnrepeatedCount(xs, x);
      UnrepeatedCount(ys, x);
    }
  }

  /** Sorting keeps the elements. */
  lemma SortKeepsElements<T(!new)>(xs: seq<T>, le: (T, T) -> bool)
    requires Linear(le)
    ensures forall x :: x in Sort(xs, le) <==> x in xs
  {
    SortIsSorted(xs, le);
    forall x
      ensures x in Sort(xs, le) <==> x in xs
    {
      assert x in multiset(Sort(xs, le)) <==> x in multiset(xs);
    }
  }

  /** `slices.Compact`: drop an element equal to its predecessor. */
  function Compact<T(==)>(xs: seq<T>): (ys: seq<T>)
    ensures |ys| <= |xs|
  {
    if |xs| < 2 then xs
    else if xs[0] == xs[1] then Compact(xs[1..])
    else [xs[0]] + Compact(xs[1..])
  }

  /** Compacting a sorted sequence keeps its elements, in order, once each. */
  lemma {:induction false} CompactSorted<T(!new)>(xs: seq<T>, le: (T, T) -> bool)
    requires Linear(le) && Antisymmetric(le) && Sorted(xs, le)
    ensures forall x :: x in Compact(xs) <==> x in xs
    ensures Sorted(Compact(xs), le) && Unrepeated(Compact(xs))
    decreases |xs|
  {
    if |xs| >= 2 {
      CompactSorted(xs[1..], le);
      assert xs == [xs[0]] + xs[1..];
      if xs[0] != xs[1] {
        var rest := Compact(xs[1..]);
        forall x | x in rest
          ensures le(xs[0], x) && x != xs[0]
        {
          assert x in xs[1..];
          assert le(xs[0], xs[1]);
          var i :| 1 <= i < |xs| && xs[i] == x;
          assert i == 1 || le(xs[1], x);
        }
      }
    }
  }

  /** The sorted, compacted form of a list depends only on which elements it has, and shows which they are. */
  lemma CompactedIsTheSet<T(!new)>(xs: seq<T>, ys: seq<T>, le: (T, T) -> bool)
    requires Linear(le) && Antisymmetric(le)
    ensures Compact(Sort(xs, le)) == Compact(Sort(ys, le)) <==> forall x :: x in xs <==> x in ys
  {
    SortIsSorted(xs, le);
    SortIsSorted(ys, le);
    SortKeepsElements(xs, le);
    SortKeepsElements(ys, le);
    var cs, ds := Compact(Sort(xs, le)), Compact(Sort(ys, le));
    CompactSorted(Sort(xs, le), le);
    CompactSorted(Sort(ys, le), le);
    if forall x :: x in xs <==> x in ys {
      SameElementsSameMultiset(cs, ds);
      SortedIsUnique(cs, ds, le);
    }
    if cs == ds {
      forall x
        ensures x in xs <==> x in ys
      {
        assert x in cs <==> x in ds;
      }
    }
  }

  /** Likewise for the sorted form of lists whose elements have distinct keys. */
  lemma SortedIsTheSet<T(!new)>(xs: seq<T>, ys: seq<T>, le: (T, T) -> bool)
    requires Linear(le) && Unrepeated(xs) && Unrepeated(ys)
    requires forall a, b :: a in xs && b in xs && le(a, b) && le(b, a) ==> a == b
    ensures Sort(xs, le) == Sort(ys, le) <==> forall x :: x in xs <==> x in ys
  {
    if forall x :: x in xs <==> x in ys {
      SameElementsSameMultiset(xs, ys);
      SortIsCanonical(xs, ys, le);
    }
    SortKeepsElements(xs, le);
    SortKeepsElements(ys, le);
    if Sort(xs, le) == Sort(ys, le) {
      forall x
        ensures x in xs <==> x in ys
      {
        assert x in Sort(xs, le) <==> x in Sort(ys, le);
      }
    }
  }
}
