/** Greedy partition of packages into SSA programs of bounded size (ssaPackageWaves in internal/analysis/ssa.go). */
module SSAWaves {

  const MAX_PACKAGES: nat := 64
  const MAX_BYTES: nat := 0x80_0000

  function Bytes<T>(wave: seq<T>, size: T -> nat): nat {
    if |wave| == 0 then 0 else Bytes(wave[..|wave| - 1], size) + size(wave[|wave| - 1])
  }

  function Concat<T>(waves: seq<seq<T>>): seq<T> {
    if |waves| == 0 then [] else Concat(waves[..|waves| - 1]) + waves[|waves| - 1]
  }

  /** A wave within its bounds: one package alone may exceed the bytes. */
  ghost predicate Bounded<T(!new)>(wave: seq<T>, size: T -> nat) {
    0 < |wave| <= MAX_PACKAGES && (Bytes(wave, size) <= MAX_BYTES || |wave| == 1)
  }

  ghost predicate Partition<T(!new)>(waves: seq<seq<T>>, packages: seq<T>, size: T -> nat) {
    Concat(waves) == packages && forall w :: 0 <= w < |waves| ==> Bounded(waves[w], size)
  }

  /** A wave is full for `next`: adding that package would break a bound. */
  ghost predicate Full<T(!new)>(wave: seq<T>, next: T, size: T -> nat) {
    |wave| > 0 && !Bounded(wave + [next], size)
  }

  /** Every wave but the last is full for the first package of the following one. */
  ghost predicate Greedy<T(!new)>(waves: seq<seq<T>>, size: T -> nat) {
    forall w :: 0 <= w < |waves| - 1 && |waves[w + 1]| > 0 ==> Full(waves[w], waves[w + 1][0], size)
  }

  // ---------- Greedy needs the fewest waves ----------

  lemma {:induction false} BytesConcat<T(!new)>(xs: seq<T>, ys: seq<T>, size: T -> nat)
    ensures Bytes(xs + ys, size) == Bytes(xs, size) + Bytes(ys, size)
    decreases |ys|
  {
    if |ys| == 0 {
      assert xs + ys == xs;
    } else {
      BytesConcat(xs, ys[..|ys| - 1], size);
      assert (xs + ys)[..|xs + ys| - 1] == xs + ys[..|ys| - 1];
    }
  }

  /** The number of packages in the first `k` waves. */
  ghost function Boundary<T>(waves: seq<seq<T>>, k: nat): nat
    requires k <= |waves|
  {
    |Concat(waves[..k])|
  }

  lemma {:induction false} ConcatConcat<T>(xs: seq<seq<T>>, ys: seq<seq<T>>)
    ensures Concat(xs + ys) == Concat(xs) + Concat(ys)
    decreases |ys|
  {
    if |ys| == 0 {
      assert xs + ys == xs;
    } else {
      ConcatConcat(xs, ys[..|ys| - 1]);
      assert (xs + ys)[..|xs + ys| - 1] == xs + ys[..|ys| - 1];
    }
  }

  /** Each wave is the stretch of packages between two boundaries. */
  lemma WaveIsStretch<T>(waves: seq<seq<T>>, k: nat)
    requires k < |waves|
    ensures Boundary(waves, k) + |waves[k]| == Boundary(waves, k + 1) <= |Concat(waves)|
    ensures Concat(waves)[Boundary(waves, k)..Boundary(waves, k + 1)] == waves[k]
  {
    var first, rest := waves[..k + 1], waves[k + 1..];
    assert first[..k] == waves[..k];
    assert Concat(first) == Concat(waves[..k]) + waves[k];
    hide Concat;
    ConcatConcat(first, rest);
    assert waves == first + rest;
    MiddleOf(Concat(waves[..k]), waves[k], Concat(rest));
  }

  lemma MiddleOf<T>(xs: seq<T>, ys: seq<T>, zs: seq<T>)
    ensures (xs + ys + zs)[|xs|..|xs + ys|] == ys
  {
  }

  /** A shorter stretch of a bounded wave of several packages is bounded. */
  lemma StretchIsBounded<T(!new)>(packages: seq<T>, size: T -> nat, lo: nat, hi: nat, from: nat, upto: nat)
    requires lo <= from < upto <= hi <= |packages| && upto - from >= 2
    requires Bounded(packages[lo..hi], size)
    ensures Bounded(packages[from..upto], size)
  {
    var left, middle, right := packages[lo..from], packages[from..upto], packages[upto..hi];
    assert packages[lo..hi] == left + middle + right;
    BytesConcat(left + middle, right, size);
    BytesConcat(left, middle, size);
  }

  /** No other bounded partition gets further with the same number of waves. */
  lemma {:induction false} GreedyGetsFurthest<T(!new)>(waves: seq<seq<T>>, other: seq<seq<T>>, packages: seq<T>,
                                                       size: T -> nat, k: nat)
    requires Partition(waves, packages, size) && Greedy(waves, size) && Partition(other, packages, size)
    requires k <= |waves| && k <= |other|
    ensures Boundary(other, k) <= Boundary(waves, k)
    decreases k
  {
    if k > 0 {
      var i := k - 1;
      GreedyGetsFurthest(waves, other, packages, size, i);
      WaveIsStretch(waves, i);
      WaveIsStretch(other, i);
      if k == |waves| {
        assert waves[..k] == waves;
      } else {
        WaveIsStretch(waves, k);
        var lo, hi, from, upto := Boundary(other, i), Boundary(other, k), Boundary(waves, i), Boundary(waves, k) + 1;
        if hi >= upto {
          assert packages[from..upto] == waves[i] + [waves[k][0]];
          StretchIsBounded(packages, size, lo, hi, from, upto);
        }
      }
    }
  }

  lemma FewestWaves<T(!new)>(waves: seq<seq<T>>, other: seq<seq<T>>, packages: seq<T>, size: T -> nat)
    requires Partition(waves, packages, size) && Greedy(waves, size) && Partition(other, packages, size)
    ensures |waves| <= |other|
  {
    if |other| < |waves| {
      GreedyGetsFurthest(waves, other, packages, size, |other|);
      assert other[..|other|] == other;
      WaveIsStretch(waves, |other|);
    }
  }

  /** The waves list the packages in order, each within its bounds, and no bounded partition has fewer. */
  method PackageWaves<T(!new)>(packages: seq<T>, size: T -> nat) returns (waves: seq<seq<T>>)
    ensures Partition(waves, packages, size)
    ensures forall other :: Partition(other, packages, size) ==> |waves| <= |other|
  {
    waves := [];
    var wave: seq<T> := [];
    var waveBytes := 0;
    for p := 0 to |packages|
      invariant waveBytes == Bytes(wave, size)
      invariant Building(waves, wave, packages[..p], size)
    {
      var package := packages[p];
      var packageBytes := size(package);
      assert packages[..p + 1] == packages[..p] + [package];
      BytesSnoc(wave, package, size);
      hide Partition, Greedy, Concat;
      if |wave| > 0 && (|wave| >= MAX_PACKAGES || waveBytes > MAX_BYTES - packageBytes) {
        FlushStep(waves, wave, packages[..p], package, size);
        waves := waves + [wave];
        wave := [];
        waveBytes := 0;
        BytesSnoc(wave, package, size);
      } else {
        AppendStep(waves, wave, packages[..p], package, size);
      }
      wave := wave + [package];
      waveBytes := waveBytes + packageBytes;
    }
    assert packages[..|packages|] == packages;
    if |wave| != 0 {
      waves := waves + [wave];
    }
    assert Partition(waves, packages, size) && Greedy(waves, size);
    FewestOfAll(waves, packages, size);
  }

  lemma FewestOfAll<T(!new)>(waves: seq<seq<T>>, packages: seq<T>, size: T -> nat)
    requires Partition(waves, packages, size) && Greedy(waves, size)
    ensures forall other :: Partition(other, packages, size) ==> |waves| <= |other|
  {
    hide Partition, Greedy;
    forall other | Partition(other, packages, size)
      ensures |waves| <= |other|
    {
      FewestWaves(waves, other, packages, size);
    }
  }

  /** The waves flushed so far and the one being filled. */
  ghost predicate Building<T(!new)>(waves: seq<seq<T>>, wave: seq<T>, done: seq<T>, size: T -> nat) {
    if wave == [] then waves == [] && done == []
    else Partition(waves + [wave], done, size) && Greedy(waves + [wave], size)
  }

  lemma BytesSnoc<T>(wave: seq<T>, package: T, size: T -> nat)
    ensures Bytes(wave + [package], size) == Bytes(wave, size) + size(package)
  {
    assert (wave + [package])[..|wave|] == wave;
  }

  lemma FlushStep<T(!new)>(waves: seq<seq<T>>, wave: seq<T>, done: seq<T>, package: T, size: T -> nat)
    requires Building(waves, wave, done, size) && Full(wave, package, size)
    ensures Building(waves + [wave], [package], done + [package], size)
  {
    var flushed := waves + [wave];
    assert (flushed + [[package]])[..|flushed|] == flushed;
  }

  lemma AppendStep<T(!new)>(waves: seq<seq<T>>, wave: seq<T>, done: seq<T>, package: T, size: T -> nat)
    requires Building(waves, wave, done, size) && Bounded(wave + [package], size)
    ensures Building(waves, wave + [package], done + [package], size)
  {
    var before, after := waves + [wave], waves + [wave + [package]];
    assert before[..|waves|] == waves && after[..|waves|] == waves;
    if wave == [] {
      assert wave + [package] == [package];
      assert after == [[package]];
    } else {
      forall w | 0 <= w < |after| - 1 && |after[w + 1]| > 0
        ensures Full(after[w], after[w + 1][0], size)
      {
        assert Full(before[w], before[w + 1][0], size);
      }
    }
  }
}
