/** Keeping and mapping the elements of a sequence, in order. */
module Selecting {

  ghost function Filter<T>(xs: seq<T>, keep: T -> bool): seq<T> {
    if |xs| == 0 then [] else Filter(xs[..|xs| - 1], keep) + if keep(xs[|xs| - 1]) then [xs[|xs| - 1]] else []
  }

  ghost function Map<T, U>(xs: seq<T>, f: T -> U): seq<U> {
    seq(|xs|, i requires 0 <= i < |xs| => f(xs[i]))
  }

  lemma FilterSnoc<T>(xs: seq<T>, i: nat, keep: T -> bool)
    requires i < |xs|
    ensures Filter(xs[..i + 1], keep) == Filter(xs[..i], keep) + if keep(xs[i]) then [xs[i]] else []
  {
    assert xs[..i + 1][..i] == xs[..i];
  }

  lemma MapSnoc<T, U>(xs: seq<T>, x: T, f: T -> U)
    ensures Map(xs + [x], f) == Map(xs, f) + [f(x)]
  {
  }

  lemma {:induction false} FilterCounts<T>(xs: seq<T>, keep: T -> bool, drop: T -> bool, x: T)
    requires forall y :: y in xs ==> (drop(y) <==> !keep(y))
    ensures multiset(Filter(xs, keep))[x] + multiset(Filter(xs, drop))[x] == multiset(xs)[x]
    decreases |xs|
  {
    if |xs| > 0 {
      var init, last := xs[..|xs| - 1], xs[|xs| - 1];
      assert xs == init + [last] && last in xs;
      FilterCounts(init, keep, drop, x);
    }
  }

  /** A sequence splits into what is kept and what is not, losing and inventing nothing. */
  lemma FilterSplits<T(!new)>(xs: seq<T>, keep: T -> bool, drop: T -> bool)
    requires forall x :: x in xs ==> (drop(x) <==> !keep(x))
    ensures multiset(Filter(xs, keep)) + multiset(Filter(xs, drop)) == multiset(xs)
  {
    forall x
      ensures (multiset(Filter(xs, keep)) + multiset(Filter(xs, drop)))[x] == multiset(xs)[x]
    {
      FilterCounts(xs, keep, drop, x);
    }
  }
}
