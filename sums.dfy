/** Finite sums, written as the left fold that an accumulator loop computes:
    the last element is added last. */
module Sums {

  /** f(xs[0]) + f(xs[1]) + ... + f(xs[|xs|-1]), added from the left. */
  function SumBy<T>(xs: seq<T>, f: T -> real): real
    decreases |xs|
  {
    if |xs| == 0 then 0.0 else SumBy(xs[..|xs| - 1], f) + f(xs[|xs| - 1])
  }

  function Id(x: real): real { x }

  /** The sum of the elements. */
  function Sum(s: seq<real>): real
  {
    SumBy(s, Id)
  }

  /** One more step of the accumulator loop. */
  lemma SumByStep<T>(xs: seq<T>, i: nat, f: T -> real)
    requires i < |xs|
    ensures SumBy(xs[..i + 1], f) == SumBy(xs[..i], f) + f(xs[i])
  {
    assert xs[..i + 1][..i] == xs[..i];
  }

  /** The sum over a concatenation is the sum of the two sums. */
  lemma {:induction false} SumByAppend<T>(xs: seq<T>, ys: seq<T>, f: T -> real)
    ensures SumBy(xs + ys, f) == SumBy(xs, f) + SumBy(ys, f)
    decreases |ys|
  {
    if |ys| > 0 {
      var ys' := ys[..|ys| - 1];
      assert (xs + ys)[..|xs + ys| - 1] == xs + ys';
      SumByAppend(xs, ys', f);
    } else {
      assert xs + ys == xs;
    }
  }

  /** Dropping the last element takes it out of the multiset. */
  lemma DropLast<T>(xs: seq<T>)
    requires |xs| > 0
    ensures multiset(xs[..|xs| - 1]) == multiset(xs) - multiset{xs[|xs| - 1]}
  {
    assert xs == xs[..|xs| - 1] + [xs[|xs| - 1]];
  }

  /** An element of the multiset of ys sits at some index j, and removing
      that occurrence takes it out of the multiset. */
  lemma PickOut<T>(ys: seq<T>, x: T) returns (j: nat)
    requires x in multiset(ys)
    ensures j < |ys| && ys[j] == x
    ensures ys == ys[..j] + [x] + ys[j + 1..]
    ensures multiset(ys[..j] + ys[j + 1..]) == multiset(ys) - multiset{x}
  {
    j :| 0 <= j < |ys| && ys[j] == x;
    assert ys == ys[..j] + [x] + ys[j + 1..];
    assert multiset(ys) == multiset(ys[..j]) + multiset{x} + multiset(ys[j + 1..]);
  }

  /** A sum does not depend on the order of its terms. */
  lemma {:induction false} SumByPermutation<T>(xs: seq<T>, ys: seq<T>, f: T -> real)
    requires multiset(xs) == multiset(ys)
    ensures SumBy(xs, f) == SumBy(ys, f)
    decreases |xs|
  {
    if |xs| == 0 {
      assert |ys| == |multiset(ys)| == 0;
    } else {
      var n := |xs| - 1;
      var x := xs[n];
      DropLast(xs);
      assert x in multiset(xs);
      var j := PickOut(ys, x);
      var rest := ys[..j] + ys[j + 1..];
      SumByPermutation(xs[..n], rest, f);
      SumByAppend(ys[..j] + [x], ys[j + 1..], f);
      SumByAppend(ys[..j], [x], f);
      SumByAppend(ys[..j], ys[j + 1..], f);
      assert SumBy([x], f) == f(x) by {
        assert [x][..0] == [];
      }
    }
  }

  /** A sum of non-negative terms is non-negative. */
  lemma {:induction false} SumByNonNegative<T>(xs: seq<T>, f: T -> real)
    requires forall i :: 0 <= i < |xs| ==> f(xs[i]) >= 0.0
    ensures SumBy(xs, f) >= 0.0
    decreases |xs|
  {
    if |xs| > 0 {
      SumByNonNegative(xs[..|xs| - 1], f);
    }
  }

  /** A sum of non-negative terms is zero exactly when every term is. */
  lemma {:induction false} SumByZero<T>(xs: seq<T>, f: T -> real)
    requires forall i :: 0 <= i < |xs| ==> f(xs[i]) >= 0.0
    ensures SumBy(xs, f) == 0.0 <==> forall i :: 0 <= i < |xs| ==> f(xs[i]) == 0.0
    decreases |xs|
  {
    if |xs| > 0 {
      var n := |xs| - 1;
      SumByZero(xs[..n], f);
      SumByNonNegative(xs[..n], f);
      if SumBy(xs, f) == 0.0 {
        forall i | 0 <= i < |xs| ensures f(xs[i]) == 0.0 {
          if i < n { assert xs[..n][i] == xs[i]; }
        }
      } else if SumBy(xs[..n], f) != 0.0 {
        var i :| 0 <= i < n && f(xs[..n][i]) != 0.0;
        assert f(xs[i]) != 0.0;
      } else {
        assert f(xs[n]) != 0.0;
      }
    }
  }

  /** A sum of terms that each equal c is |xs|·c. */
  lemma {:induction false} SumByConstant<T>(xs: seq<T>, f: T -> real, c: real)
    requires forall i :: 0 <= i < |xs| ==> f(xs[i]) == c
    ensures SumBy(xs, f) == |xs| as real * c
    decreases |xs|
  {
    if |xs| > 0 {
      SumByConstant(xs[..|xs| - 1], f, c);
    }
  }

  /** Terms of ys that are a linear image k·f(x) + d of the matching terms
      of xs sum to k times the sum over xs, plus |xs|·d. */
  lemma {:induction false} SumByLinear<T, U>(xs: seq<T>, ys: seq<U>, f: T -> real, g: U -> real, k: real, d: real)
    requires |ys| == |xs|
    requires forall i :: 0 <= i < |xs| ==> g(ys[i]) == k * f(xs[i]) + d
    ensures SumBy(ys, g) == k * SumBy(xs, f) + |xs| as real * d
    decreases |xs|
  {
    if |xs| > 0 {
      var n := |xs| - 1;
      forall i | 0 <= i < n ensures g(ys[..n][i]) == k * f(xs[..n][i]) + d {
        assert ys[..n][i] == ys[i] && xs[..n][i] == xs[i];
      }
      SumByLinear(xs[..n], ys[..n], f, g, k, d);
    }
  }

  /** A sum of g(x) + k·f(x) + d splits into the three sums. */
  lemma {:induction false} SumByCombine<T>(xs: seq<T>, f: T -> real, g: T -> real, h: T -> real, k: real, d: real)
    requires forall x :: h(x) == g(x) + k * f(x) + d
    ensures SumBy(xs, h) == SumBy(xs, g) + k * SumBy(xs, f) + |xs| as real * d
    decreases |xs|
  {
    if |xs| > 0 {
      SumByCombine(xs[..|xs| - 1], f, g, h, k, d);
    }
  }

  /** Each term g(ys[i]) is at most the matching term h(zs[i]). */
  predicate BoundedTerms<T, U>(ys: seq<T>, zs: seq<U>, g: T -> real, h: U -> real)
  {
    |zs| == |ys| && forall i :: 0 <= i < |ys| ==> g(ys[i]) <= h(zs[i])
  }

  /** Termwise smaller terms give a smaller sum. */
  lemma {:induction false} SumByBounded<T, U>(ys: seq<T>, zs: seq<U>, g: T -> real, h: U -> real)
    requires BoundedTerms(ys, zs, g, h)
    ensures SumBy(ys, g) <= SumBy(zs, h)
    decreases |ys|
  {
    if |ys| > 0 {
      var n := |ys| - 1;
      forall i | 0 <= i < n ensures g(ys[..n][i]) <= h(zs[..n][i]) {
        assert ys[..n][i] == ys[i] && zs[..n][i] == zs[i];
      }
      SumByBounded(ys[..n], zs[..n], g, h);
    }
  }

  /** Each term h(zs[i]) is the matching term f(xs[i]) plus the matching
      term g(ys[i]). */
  predicate AddedTerms<T, U, V>(xs: seq<T>, ys: seq<U>, zs: seq<V>, f: T -> real, g: U -> real, h: V -> real)
  {
    |ys| == |xs| && |zs| == |xs| && forall i :: 0 <= i < |xs| ==> h(zs[i]) == f(xs[i]) + g(ys[i])
  }

  /** Terms that are sums of matching terms add up to the sum of the two sums. */
  lemma {:induction false} SumByAdded<T, U, V>(xs: seq<T>, ys: seq<U>, zs: seq<V>, f: T -> real, g: U -> real, h: V -> real)
    requires AddedTerms(xs, ys, zs, f, g, h)
    ensures SumBy(zs, h) == SumBy(xs, f) + SumBy(ys, g)
    decreases |xs|
  {
    if |xs| > 0 {
      var n := |xs| - 1;
      forall i | 0 <= i < n ensures h(zs[..n][i]) == f(xs[..n][i]) + g(ys[..n][i]) {
        assert zs[..n][i] == zs[i] && xs[..n][i] == xs[i] && ys[..n][i] == ys[i];
      }
      SumByAdded(xs[..n], ys[..n], zs[..n], f, g, h);
    }
  }

  /** Each term g(ys[i]) is q times the matching term f(xs[i]). */
  predicate ScaledTerms<T, U>(xs: seq<T>, ys: seq<U>, f: T -> real, g: U -> real, q: real)
  {
    |ys| == |xs| && forall i :: 0 <= i < |xs| ==> g(ys[i]) == q * f(xs[i])
  }

  /** Terms of ys that are q times the matching terms of xs sum to q times
      the sum over xs. */
  lemma {:induction false} SumByScaled<T, U>(xs: seq<T>, ys: seq<U>, f: T -> real, g: U -> real, q: real)
    requires ScaledTerms(xs, ys, f, g, q)
    ensures SumBy(ys, g) == q * SumBy(xs, f)
    decreases |xs|
  {
    if |xs| > 0 {
      var n := |xs| - 1;
      forall i | 0 <= i < n ensures g(ys[..n][i]) == q * f(xs[..n][i]) {
        assert ys[..n][i] == ys[i] && xs[..n][i] == xs[i];
      }
      SumByScaled(xs[..n], ys[..n], f, g, q);
    }
  }
}
