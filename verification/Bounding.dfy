/** The bound on retained entries: a greedy walk, newest first, that keeps what still fits (boundLocked in
    internal/analysis/package_session.go and boundLSPWorkspaceEntries in internal/cli/lsp.go). */
module Bounding {
  import opened Sorting

  const MAX_ENTRIES: nat := 8
  const MAX_BYTES: nat := 0x800_0000

  function Total<T>(xs: seq<T>, weight: T -> nat): nat {
    if |xs| == 0 then 0 else Total(xs[..|xs| - 1], weight) + weight(xs[|xs| - 1])
  }

  lemma {:induction false} TotalConcat<T>(xs: seq<T>, ys: seq<T>, weight: T -> nat)
    ensures Total(xs + ys, weight) == Total(xs, weight) + Total(ys, weight)
    decreases |ys|
  {
    if |ys| == 0 {
      assert xs + ys == xs;
    } else {
      TotalConcat(xs, ys[..|ys| - 1], weight);
      assert (xs + ys)[..|xs + ys| - 1] == xs + ys[..|ys| - 1];
    }
  }

  lemma TotalOfOne<T>(x: T, weight: T -> nat)
    ensures Total([x], weight) == weight(x)
  {
    assert [x][..0] == [];
  }

  /** With `first` the newest is kept whatever its size. */
  predicate FitsBeside<T>(kept: seq<T>, x: T, weight: T -> nat, first: bool) {
    (first && |kept| == 0) || (|kept| < MAX_ENTRIES && Total(kept, weight) + weight(x) <= MAX_BYTES)
  }

  function Kept<T>(xs: seq<T>, weight: T -> nat, first: bool): (kept: seq<T>)
    ensures forall x :: x in kept ==> x in xs
    ensures |kept| <= MAX_ENTRIES && (Total(kept, weight) <= MAX_BYTES || (first && |kept| == 1))
    ensures first && |xs| > 0 ==> |kept| > 0 && kept[0] == xs[0]
  {
    if |xs| == 0 then []
    else
      var init, last := xs[..|xs| - 1], xs[|xs| - 1];
      var kept := Kept(init, weight, first);
      if FitsBeside(kept, last, weight, first) then kept + [last] else kept
  }

  lemma {:induction false} FullStaysFull<T>(xs: seq<T>, i: nat, weight: T -> nat, first: bool)
    requires i <= |xs| && |Kept(xs[..i], weight, first)| == MAX_ENTRIES
    ensures Kept(xs, weight, first) == Kept(xs[..i], weight, first)
    decreases |xs|
  {
    if i < |xs| {
      var init := xs[..|xs| - 1];
      assert init[..i] == xs[..i];
      FullStaysFull(init, i, weight, first);
    } else {
      assert xs[..i] == xs;
    }
  }

  lemma {:induction false} KeptIsUnrepeated<T(!new)>(xs: seq<T>, weight: T -> nat, first: bool)
    requires Unrepeated(xs)
    ensures Unrepeated(Kept(xs, weight, first))
    decreases |xs|
  {
    if |xs| > 0 {
      var init, last := xs[..|xs| - 1], xs[|xs| - 1];
      KeptIsUnrepeated(init, weight, first);
      assert last !in init;
    }
  }

  /** What is within the bounds is kept whole. */
  lemma {:induction false} AllIsKept<T>(xs: seq<T>, weight: T -> nat, first: bool)
    requires |xs| <= MAX_ENTRIES && Total(xs, weight) <= MAX_BYTES
    ensures Kept(xs, weight, first) == xs
    decreases |xs|
  {
    if |xs| > 0 {
      AllIsKept(xs[..|xs| - 1], weight, first);
    }
  }

  /** Exactly what fits beside the newer ones kept is kept. */
  lemma {:induction false} KeptIsWhatFits<T(!new)>(xs: seq<T>, i: nat, weight: T -> nat, first: bool)
    requires Unrepeated(xs) && i < |xs|
    ensures xs[i] in Kept(xs, weight, first) <==> FitsBeside(Kept(xs[..i], weight, first), xs[i], weight, first)
    decreases |xs|
  {
    var init, last := xs[..|xs| - 1], xs[|xs| - 1];
    if i < |init| {
      KeptIsWhatFits(init, i, weight, first);
      assert init[..i] == xs[..i] && xs[i] != last;
    } else {
      assert last !in init;
    }
  }

  lemma {:induction false} KeptGrows<T>(xs: seq<T>, i: nat, weight: T -> nat, first: bool)
    requires i <= |xs|
    ensures |Kept(xs[..i], weight, first)| <= |Kept(xs, weight, first)|
    ensures Total(Kept(xs[..i], weight, first), weight) <= Total(Kept(xs, weight, first), weight)
    decreases |xs|
  {
    if i < |xs| {
      var init := xs[..|xs| - 1];
      assert init[..i] == xs[..i];
      KeptGrows(init, i, weight, first);
    } else {
      assert xs[..i] == xs;
    }
  }

  /** What is kept could be exchanged for anything newer that is no larger, so that is kept, too. */
  lemma NewerIsKept<T(!new)>(xs: seq<T>, i: nat, j: nat, weight: T -> nat, first: bool)
    requires Unrepeated(xs) && i < j < |xs| && weight(xs[i]) <= weight(xs[j]) && xs[j] in Kept(xs, weight, first)
    ensures xs[i] in Kept(xs, weight, first)
  {
    hide Total;
    KeptIsWhatFits(xs, i, weight, first);
    KeptIsWhatFits(xs, j, weight, first);
    assert xs[..j][..i] == xs[..i];
    KeptGrows(xs[..j], i, weight, first);
  }
}
