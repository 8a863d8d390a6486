/** Small value-level helpers shared by the seeder and the AVS controller:
    an optional value, exact sums over a sequence, filtering, and a few facts
    about Euclidean division that the counting lemmas need. */
module Util {

  datatype Option<+T> = None | Some(value: T)

  /** The exact (unbounded) sum of f over xs, accumulated left to right. */
  function SumOf<T>(xs: seq<T>, f: T -> int): int
  {
    if xs == [] then 0 else SumOf(xs[..|xs| - 1], f) + f(xs[|xs| - 1])
  }

  /** Summing over a concatenation is summing over each part. */
  lemma {:induction false} SumOfAppend<T>(xs: seq<T>, ys: seq<T>, f: T -> int)
    ensures SumOf(xs + ys, f) == SumOf(xs, f) + SumOf(ys, f)
    decreases |ys|
  {
    if ys == [] {
      assert xs + ys == xs;
    } else {
      var init := ys[..|ys| - 1];
      assert (xs + ys)[..|xs + ys| - 1] == xs + init;
      SumOfAppend(xs, init, f);
    }
  }

  /** Appending one term adds it to the sum. */
  lemma SumOfSnoc<T>(xs: seq<T>, x: T, f: T -> int)
    ensures SumOf(xs + [x], f) == SumOf(xs, f) + f(x)
  {
    assert (xs + [x])[..|xs|] == xs;
  }

  /** Taking out one term in the middle takes it off the sum. */
  lemma SumOfMiddle<T>(before: seq<T>, x: T, after: seq<T>, f: T -> int)
    ensures SumOf(before + [x] + after, f) == SumOf(before + after, f) + f(x)
  {
    SumOfAppend(before + [x], after, f);
    SumOfSnoc(before, x, f);
    SumOfAppend(before, after, f);
  }

  /** A sum does not depend on the order of its terms. */
  lemma {:induction false} SumOfPermutation<T>(xs: seq<T>, ys: seq<T>, f: T -> int)
    requires multiset(xs) == multiset(ys)
    ensures SumOf(xs, f) == SumOf(ys, f)
    decreases |xs|
  {
    if xs == [] {
      assert |multiset(ys)| == 0;
    } else {
      var init, x := xs[..|xs| - 1], xs[|xs| - 1];
      assert x in multiset(ys) by {
        assert xs == init + [x];
      }
      var i :| 0 <= i < |ys| && ys[i] == x;
      MultisetRemove(xs, ys, i);
      var before, after := ys[..i], ys[i + 1..];
      SumOfPermutation(init, before + after, f);
      assert ys == before + [x] + after;
      SumOfMiddle(before, x, after, f);
    }
  }

  /** Taking the last element off xs and the element at i off ys, when the
      two are equal, keeps equal multisets equal. */
  lemma MultisetRemove<T>(xs: seq<T>, ys: seq<T>, i: int)
    requires multiset(xs) == multiset(ys) && xs != []
    requires 0 <= i < |ys| && ys[i] == xs[|xs| - 1]
    ensures multiset(xs[..|xs| - 1]) == multiset(ys[..i] + ys[i + 1..])
  {
    var init, x := xs[..|xs| - 1], xs[|xs| - 1];
    var before, after := ys[..i], ys[i + 1..];
    assert xs == init + [x];
    assert ys == before + [x] + after;
    assert multiset(xs) == multiset(init) + multiset{x};
    assert multiset(ys) == multiset(before) + multiset{x} + multiset(after);
    assert multiset(before + after) == multiset(before) + multiset(after);
    assert multiset(init) == multiset(xs) - multiset{x};
  }

  /** The elements of xs that satisfy p, in their original order. */
  function Filter<T(!new)>(xs: seq<T>, p: T -> bool): (kept: seq<T>)
    ensures forall x :: multiset(kept)[x] == if p(x) then multiset(xs)[x] else 0
    ensures forall i :: 0 <= i < |kept| ==> p(kept[i])
  {
    if xs == [] then []
    else
      var init, x := xs[..|xs| - 1], xs[|xs| - 1];
      assert xs == init + [x];
      if p(x) then Filter(init, p) + [x] else Filter(init, p)
  }

  /** Adding the divisor once adds one to the Euclidean quotient. */
  lemma DivPlusDivisor(x: int, m: int)
    requires x >= 0 && m > 0
    ensures (x + m) / m == x / m + 1
  {
    var q, r := x / m, x % m;
    assert x == q * m + r && 0 <= r < m;
    assert x + m == (q + 1) * m + r;
    DivUnique(x + m, m, q + 1, r);
  }

  /** The quotient is the only q with a == q * m + r and 0 <= r < m. */
  lemma DivUnique(a: int, m: int, q: int, r: int)
    requires m > 0 && a == q * m + r && 0 <= r < m
    ensures a / m == q
  {
    var q', r' := a / m, a % m;
    assert a == q' * m + r' && 0 <= r' < m;
    if q' < q {
      var d := q - q';
      assert d * m == q * m - q' * m;
      assert d * m == r' - r;
      MulAtLeastOnce(d, m);
    } else if q' > q {
      var d := q' - q;
      assert d * m == q' * m - q * m;
      assert d * m == r - r';
      MulAtLeastOnce(d, m);
    }
  }

  lemma MulAtLeastOnce(d: int, m: int)
    requires d >= 1 && m > 0
    ensures d * m >= m
  {
    assert (d - 1) * m >= 0;
    assert d * m == (d - 1) * m + m;
  }
}
