/**
 Finite sums over rows and matrices of reals, accumulated in index order the
 way the worker's loops accumulate them, and the facts about them the blur
 needs: constants, bounds and scaling. Every sum takes the number of leading
 entries it covers, so a loop's running total is the sum up to its counter.
 */
module Sums {

  /** `r[0] + ... + r[n - 1]`, accumulated left to right. */
  function RowSum(r: seq<real>, n: nat): (s: real)
    requires n <= |r|
  {
    if n == 0 then 0.0 else RowSum(r, n - 1) + r[n - 1]
  }

  /** The sum of the first `n` rows of `m`, accumulated row by row. */
  function MatrixSum(m: seq<seq<real>>, n: nat): (s: real)
    requires n <= |m|
  {
    if n == 0 then 0.0 else MatrixSum(m, n - 1) + RowSum(m[n - 1], |m[n - 1]|)
  }

  /** The sum of every entry of `m`. */
  function Total(m: seq<seq<real>>): (s: real) {
    MatrixSum(m, |m|)
  }

  /** `g[0] * w[0] + ... + g[n - 1] * w[n - 1]`, accumulated left to right. */
  function Dot(g: seq<real>, w: seq<real>, n: nat): (d: real)
    requires n <= |g| && n <= |w|
  {
    if n == 0 then 0.0 else Dot(g, w, n - 1) + g[n - 1] * w[n - 1]
  }

  ghost predicate SameDims(g: seq<seq<real>>, w: seq<seq<real>>) {
    |g| == |w| && forall i :: 0 <= i < |g| ==> |g[i]| == |w[i]|
  }

  /** The products of the first `n` rows of `g` and `w`, cell by cell, summed
      row by row. */
  function WeightedSum(g: seq<seq<real>>, w: seq<seq<real>>, n: nat): (s: real)
    requires SameDims(g, w) && n <= |g|
  {
    if n == 0 then 0.0 else WeightedSum(g, w, n - 1) + Dot(g[n - 1], w[n - 1], |w[n - 1]|)
  }

  /** Extending a dot product by one cell adds that cell's product. */
  lemma DotNext(g: seq<real>, w: seq<real>, n: nat, x: real, t: real)
    requires n < |g| && n < |w| && g[n] == x && w[n] == t
    ensures Dot(g, w, n + 1) == Dot(g, w, n) + x * t
  {
  }

  lemma MulMono(a: real, b: real, t: real)
    requires a <= b && t >= 0.0
    ensures a * t <= b * t
  {
  }

  lemma Distribute(v: real, s: real, t: real, u: real)
    requires u == s + t
    ensures v * u == v * s + v * t
  {
  }

  predicate Within(x: real, lo: real, hi: real) {
    lo <= x <= hi
  }

  ghost predicate RowWithin(g: seq<real>, lo: real, hi: real) {
    forall j {:trigger Within(g[j], lo, hi)} :: 0 <= j < |g| ==> Within(g[j], lo, hi)
  }

  ghost predicate MatrixWithin(g: seq<seq<real>>, lo: real, hi: real) {
    forall i :: 0 <= i < |g| ==> RowWithin(g[i], lo, hi)
  }

  predicate RowNonNegative(w: seq<real>) {
    forall j :: 0 <= j < |w| ==> w[j] >= 0.0
  }

  predicate MatrixNonNegative(w: seq<seq<real>>) {
    forall i :: 0 <= i < |w| ==> RowNonNegative(w[i])
  }

  /** One more term keeps a running sum between `lo` and `hi` times the
      running weight: `d = x + y` against `u = s + t`. */
  lemma AddBetween(lo: real, hi: real, s: real, t: real, u: real, x: real, y: real, d: real)
    requires u == s + t && d == x + y
    requires lo * s <= x <= hi * s && lo * t <= y <= hi * t
    ensures lo * u <= d <= hi * u
  {
    Distribute(lo, s, t, u);
    Distribute(hi, s, t, u);
  }

  /** Samples between `lo` and `hi` under non-negative weights give a dot
      product between `lo` and `hi` times the weights' sum `total`. */
  lemma {:induction false} DotBetween(g: seq<real>, w: seq<real>, n: nat, lo: real, hi: real, total: real)
    requires n <= |g| && n <= |w| && RowWithin(g, lo, hi) && RowNonNegative(w)
    requires total == RowSum(w, n)
    ensures lo * total <= Dot(g, w, n) <= hi * total
  {
    if n > 0 {
      var x, t := g[n - 1], w[n - 1];
      assert Within(x, lo, hi);
      DotBetween(g, w, n - 1, lo, hi, RowSum(w, n - 1));
      MulMono(lo, x, t);
      MulMono(x, hi, t);
      AddBetween(lo, hi, RowSum(w, n - 1), t, total, Dot(g, w, n - 1), x * t, Dot(g, w, n));
    }
  }

  /** The matrix form of DotBetween. */
  lemma {:induction false} WeightedSumBetween(g: seq<seq<real>>, w: seq<seq<real>>, n: nat, lo: real, hi: real, total: real)
    requires SameDims(g, w) && n <= |g| && MatrixWithin(g, lo, hi) && MatrixNonNegative(w)
    requires total == MatrixSum(w, n)
    ensures lo * total <= WeightedSum(g, w, n) <= hi * total
  {
    if n > 0 {
      var row, last := w[n - 1], |w[n - 1]|;
      WeightedSumBetween(g, w, n - 1, lo, hi, MatrixSum(w, n - 1));
      DotBetween(g[n - 1], row, last, lo, hi, RowSum(row, last));
      AddBetween(lo, hi, MatrixSum(w, n - 1), RowSum(row, last), total,
                 WeightedSum(g, w, n - 1), Dot(g[n - 1], row, last), WeightedSum(g, w, n));
    }
  }

  /** Equal samples `v` under any weights give `v` times the weights' sum `total`. */
  lemma {:induction false} WeightedSumConst(g: seq<seq<real>>, w: seq<seq<real>>, n: nat, v: real, total: real)
    requires SameDims(g, w) && n <= |g| && MatrixWithin(g, v, v)
    requires total == MatrixSum(w, n)
    ensures WeightedSum(g, w, n) == v * total
  {
    if n > 0 {
      var row, last := w[n - 1], |w[n - 1]|;
      WeightedSumConst(g, w, n - 1, v, MatrixSum(w, n - 1));
      DotConst(g[n - 1], row, last, v, RowSum(row, last));
      AddBetween(v, v, MatrixSum(w, n - 1), RowSum(row, last), total,
                 WeightedSum(g, w, n - 1), Dot(g[n - 1], row, last), WeightedSum(g, w, n));
    }
  }

  lemma {:induction false} DotConst(g: seq<real>, w: seq<real>, n: nat, v: real, total: real)
    requires n <= |g| && n <= |w| && RowWithin(g, v, v)
    requires total == RowSum(w, n)
    ensures Dot(g, w, n) == v * total
  {
    if n > 0 {
      var x, t := g[n - 1], w[n - 1];
      assert Within(x, v, v);
      DotConst(g, w, n - 1, v, RowSum(w, n - 1));
      AddBetween(v, v, RowSum(w, n - 1), t, total, Dot(g, w, n - 1), x * t, Dot(g, w, n));
    }
  }
}
