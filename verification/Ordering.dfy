/** Three-way comparisons: what makes one a total order, and the lexicographic ones built from others. */
module Ordering {

  /** A total order that ties only on equal values. */
  ghost predicate Lawful<T(!new)>(cmp: (T, T) -> int) {
    && (forall a, b :: cmp(a, b) == 0 <==> a == b)
    && (forall a, b :: cmp(a, b) < 0 <==> cmp(b, a) > 0)
    && (forall a, b, c :: cmp(a, b) <= 0 && cmp(b, c) <= 0 ==> cmp(a, c) <= 0)
  }

  function CompareInt(a: int, b: int): int {
    if a < b then -1 else if a > b then 1 else 0
  }

  /** The laws for one pair and one triple of results. */
  ghost predicate Flips(ab: int, ba: int) {
    (ab < 0 <==> ba > 0) && (ab == 0 <==> ba == 0)
  }

  ghost predicate Chains(ab: int, bc: int, ac: int) {
    && (ab <= 0 && bc <= 0 ==> ac <= 0)
    && (ab == 0 && bc == 0 ==> ac == 0)
    && ((ab < 0 && bc <= 0) || (ab <= 0 && bc < 0) ==> ac < 0)
  }

  lemma LawfulChains<T(!new)>(cmp: (T, T) -> int, a: T, b: T, c: T)
    requires Lawful(cmp)
    ensures Chains(cmp(a, b), cmp(b, c), cmp(a, c)) && Flips(cmp(a, b), cmp(b, a))
  {
    assert cmp(a, c) == 0 ==> cmp(c, a) == 0;
    assert cmp(b, a) <= 0 && cmp(c, b) <= 0 ==> cmp(c, a) <= 0;
    assert cmp(c, a) <= 0 && cmp(a, b) <= 0 ==> cmp(c, b) <= 0;
    assert cmp(b, c) <= 0 && cmp(c, a) <= 0 ==> cmp(b, a) <= 0;
  }

  // ---------- Sequences, element by element and then by length ----------

  function CompareSeq<T>(xs: seq<T>, ys: seq<T>, cmp: (T, T) -> int): int {
    if |xs| == 0 || |ys| == 0 then CompareInt(|xs|, |ys|)
    else if cmp(xs[0], ys[0]) != 0 then cmp(xs[0], ys[0])
    else CompareSeq(xs[1..], ys[1..], cmp)
  }

  lemma {:induction false} CompareSeqLaws<T(!new)>(xs: seq<T>, ys: seq<T>, zs: seq<T>, cmp: (T, T) -> int)
    requires Lawful(cmp)
    ensures CompareSeq(xs, ys, cmp) == 0 <==> xs == ys
    ensures Flips(CompareSeq(xs, ys, cmp), CompareSeq(ys, xs, cmp))
    ensures Chains(CompareSeq(xs, ys, cmp), CompareSeq(ys, zs, cmp), CompareSeq(xs, zs, cmp))
    decreases |xs| + |ys| + |zs|
  {
    if |xs| > 0 && |ys| > 0 {
      LawfulChains(cmp, xs[0], ys[0], ys[0]);
      assert xs == [xs[0]] + xs[1..] && ys == [ys[0]] + ys[1..];
      CompareSeqLaws(xs[1..], ys[1..], if |zs| > 0 then zs[1..] else zs, cmp);
      if |zs| > 0 {
        LawfulChains(cmp, xs[0], ys[0], zs[0]);
      }
    }
  }

  // ---------- Field after field ----------

  /** The first field that differs decides. */
  function First(fields: seq<int>): int {
    if |fields| == 0 then 0 else if fields[0] != 0 then fields[0] else First(fields[1..])
  }

  lemma {:induction false} FirstZero(fields: seq<int>)
    ensures First(fields) == 0 <==> forall i :: 0 <= i < |fields| ==> fields[i] == 0
    decreases |fields|
  {
    if |fields| > 0 {
      FirstZero(fields[1..]);
      assert forall i :: 1 <= i < |fields| ==> fields[i] == fields[1..][i - 1];
    }
  }

  lemma {:induction false} FirstFlips(ab: seq<int>, ba: seq<int>)
    requires |ab| == |ba| && forall i :: 0 <= i < |ab| ==> Flips(ab[i], ba[i])
    ensures Flips(First(ab), First(ba))
    decreases |ab|
  {
    if |ab| > 0 {
      assert Flips(ab[0], ba[0]);
      FirstFlips(ab[1..], ba[1..]);
    }
  }

  lemma {:induction false} FirstChains(ab: seq<int>, bc: seq<int>, ac: seq<int>)
    requires |ab| == |bc| == |ac| && forall i :: 0 <= i < |ab| ==> Chains(ab[i], bc[i], ac[i])
    ensures Chains(First(ab), First(bc), First(ac))
    decreases |ab|
  {
    if |ab| > 0 {
      assert Chains(ab[0], bc[0], ac[0]);
      FirstChains(ab[1..], bc[1..], ac[1..]);
    }
  }

  // ---------- Byte strings ----------

  type Byte = b: int | 0 <= b < 256

  function CompareByte(a: Byte, b: Byte): int {
    CompareInt(a, b)
  }

  function CompareText(a: seq<Byte>, b: seq<Byte>): int {
    CompareSeq(a, b, CompareByte)
  }

  lemma TextLaws(a: seq<Byte>, b: seq<Byte>, c: seq<Byte>)
    ensures CompareText(a, b) == 0 <==> a == b
    ensures Flips(CompareText(a, b), CompareText(b, a))
    ensures Chains(CompareText(a, b), CompareText(b, c), CompareText(a, c))
  {
    CompareSeqLaws(a, b, c, CompareByte);
  }

  /** The first `n` bytes agree, and then `a` ends or has the smaller byte. */
  predicate SmallerAt(a: seq<Byte>, b: seq<Byte>, n: nat) {
    n <= |a| && n < |b| && a[..n] == b[..n] && (n == |a| || a[n] < b[n])
  }

  /** Text is in the order of a dictionary. */
  lemma {:induction false} TextOrderIs(a: seq<Byte>, b: seq<Byte>)
    ensures CompareText(a, b) < 0 <==> exists n: nat :: SmallerAt(a, b, n)
    decreases |a|
  {
    if |a| == 0 && |b| > 0 {
      assert SmallerAt(a, b, 0);
    } else if |a| > 0 && |b| > 0 {
      if a[0] < b[0] {
        assert SmallerAt(a, b, 0);
      } else if a[0] == b[0] {
        TextOrderIs(a[1..], b[1..]);
        if n: nat :| SmallerAt(a[1..], b[1..], n) {
          assert a[..n + 1] == [a[0]] + a[1..][..n] && b[..n + 1] == [b[0]] + b[1..][..n];
          assert SmallerAt(a, b, n + 1);
        }
        if n: nat :| SmallerAt(a, b, n) {
          assert a[1..][..n - 1] == a[..n][1..] && b[1..][..n - 1] == b[..n][1..];
          assert SmallerAt(a[1..], b[1..], n - 1);
        }
      }
    }
  }

  lemma TextIsLawful()
    ensures Lawful(CompareText)
  {
    forall a, b, c: seq<Byte>
      ensures CompareText(a, b) == 0 <==> a == b
      ensures CompareText(a, b) < 0 <==> CompareText(b, a) > 0
      ensures CompareText(a, b) <= 0 && CompareText(b, c) <= 0 ==> CompareText(a, c) <= 0
    {
      TextLaws(a, b, c);
    }
  }
}
