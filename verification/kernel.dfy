/**
 The Gaussian kernel as a square matrix of weights. Only its shape and its
 normalisation are modelled: the unnormalised density at each offset is a
 parameter standing for the exponential formula, taken as exact reals.
 */
module Kernels {
  import opened Wrappers
  import opened Sums

  /** A `size` x `size` weight matrix addressed as `weights[ky + offset][kx + offset]`
      for offsets `ky, kx` in `[-offset, offset]`, `offset = size / 2`. */
  datatype Kernel = Kernel(size: nat, weights: seq<seq<real>>) {

    predicate Valid() {
      && size % 2 == 1
      && |weights| == size
      && forall i :: 0 <= i < |weights| ==> |weights[i]| == size
    }

    function Offset(): (o: int) {
      size / 2
    }
  }

  /** Why building a kernel aborts: a negative size fails when the array is
      allocated, an even size (zero included) when the offset loop writes one
      cell past the end. */
  datatype KernelError = NegativeSize | IndexOutOfBounds

  /** For an odd size the offsets `-offset .. offset` address exactly the
      indices `0 .. size - 1`. */
  lemma {:induction false} KernelIndexInRange(size: int, k: int)
    requires size > 0 && size % 2 == 1
    requires -(size / 2) <= k <= size / 2
    ensures 0 <= k + size / 2 < size
    ensures (k + size / 2) - size / 2 == k
  {
    assert size == 2 * (size / 2) + 1;
  }

  /** For an even size the last offset `size / 2`, shifted by the offset
      `size / 2`, addresses index `size`: one past the end of the array, so
      the first write of the last row fails. */
  lemma EvenSizeOverruns(size: int)
    requires size >= 0 && size % 2 == 0
    ensures size / 2 + size / 2 == size
    ensures !(0 <= size / 2 + size / 2 < size)
  {
  }

  /** The density at every cell, before normalisation: cell `[y + offset][x + offset]`
      holds `density(x, y)`. */
  function RawKernel(size: nat, density: (int, int) -> real): (m: seq<seq<real>>)
    ensures |m| == size
    ensures forall i :: 0 <= i < size ==> |m[i]| == size
    ensures forall i, j :: 0 <= i < size && 0 <= j < size ==> m[i][j] == density(j - size / 2, i - size / 2)
  {
    seq(size, i requires 0 <= i < size =>
      seq(size, j requires 0 <= j < size => density(j - size / 2, i - size / 2)))
  }

  /** Every entry divided by `s`. */
  function ScaleRow(r: seq<real>, s: real): (q: seq<real>)
    requires s != 0.0
    ensures |q| == |r|
    ensures forall j :: 0 <= j < |r| ==> q[j] * s == r[j]
  {
    seq(|r|, j requires 0 <= j < |r| => r[j] / s)
  }

  lemma ScaleRowCell(r: seq<real>, s: real, j: int)
    requires s > 0.0 && 0 <= j < |r| && r[j] > 0.0
    ensures ScaleRow(r, s)[j] == r[j] / s && ScaleRow(r, s)[j] > 0.0
  {
  }

  function ScaleMatrix(m: seq<seq<real>>, s: real): (q: seq<seq<real>>)
    requires s != 0.0
    ensures |q| == |m|
    ensures forall i :: 0 <= i < |m| ==> q[i] == ScaleRow(m[i], s)
  {
    seq(|m|, i requires 0 <= i < |m| => ScaleRow(m[i], s))
  }

  lemma DivideSum(a: real, b: real, s: real)
    requires s != 0.0
    ensures a / s + b / s == (a + b) / s
  {
  }

  lemma ScaleMatrixCells(m: seq<seq<real>>, s: real)
    requires s > 0.0
    requires forall i, j :: 0 <= i < |m| && 0 <= j < |m[i]| ==> m[i][j] > 0.0
    ensures forall i, j :: 0 <= i < |m| && 0 <= j < |m[i]| ==>
              ScaleMatrix(m, s)[i][j] == m[i][j] / s && ScaleMatrix(m, s)[i][j] > 0.0
  {
    forall i, j | 0 <= i < |m| && 0 <= j < |m[i]|
      ensures ScaleMatrix(m, s)[i][j] == m[i][j] / s && ScaleMatrix(m, s)[i][j] > 0.0
    {
      assert ScaleMatrix(m, s)[i] == ScaleRow(m[i], s);
      ScaleRowCell(m[i], s, j);
    }
  }

  lemma DivideSelf(s: real)
    requires s != 0.0
    ensures s / s == 1.0
  {
  }

  lemma {:induction false} RowSumScale(r: seq<real>, s: real, n: nat)
    requires s != 0.0 && n <= |r|
    ensures RowSum(ScaleRow(r, s), n) == RowSum(r, n) / s
  {
    if n > 0 {
      RowSumScale(r, s, n - 1);
      DivideSum(RowSum(r, n - 1), r[n - 1], s);
    }
  }

  lemma {:induction false} MatrixSumScale(m: seq<seq<real>>, s: real, n: nat)
    requires s != 0.0 && n <= |m|
    ensures MatrixSum(ScaleMatrix(m, s), n) == MatrixSum(m, n) / s
  {
    if n > 0 {
      MatrixSumScale(m, s, n - 1);
      RowSumScale(m[n - 1], s, |m[n - 1]|);
      DivideSum(MatrixSum(m, n - 1), RowSum(m[n - 1], |m[n - 1]|), s);
    }
  }

  lemma {:induction false} RowSumPositive(r: seq<real>, n: nat)
    requires 0 < n <= |r|
    requires forall j :: 0 <= j < |r| ==> r[j] > 0.0
    ensures RowSum(r, n) > 0.0
  {
    if n > 1 {
      RowSumPositive(r, n - 1);
    }
  }

  lemma {:induction false} MatrixSumPositive(m: seq<seq<real>>, n: nat)
    requires 0 < n <= |m|
    requires forall i :: 0 <= i < |m| ==> |m[i]| > 0
    requires forall i, j :: 0 <= i < |m| && 0 <= j < |m[i]| ==> m[i][j] > 0.0
    ensures MatrixSum(m, n) > 0.0
  {
    RowSumPositive(m[n - 1], |m[n - 1]|);
    if n > 1 {
      MatrixSumPositive(m, n - 1);
    }
  }

  ghost predicate PositiveDensity(density: (int, int) -> real) {
    forall dx, dy :: density(dx, dy) > 0.0
  }

  /** The weights of the kernel of odd size `size`: each cell is the density
      at its offset pair divided by the total, so the cells are proportional
      to the density, positive, and sum to one. */
  function Normalized(size: nat, density: (int, int) -> real): (w: seq<seq<real>>)
    requires PositiveDensity(density) && size > 0
    ensures |w| == size && forall i :: 0 <= i < size ==> |w[i]| == size
    ensures Total(w) == 1.0
    ensures forall i, j :: 0 <= i < size && 0 <= j < size ==> w[i][j] > 0.0
    ensures Total(RawKernel(size, density)) > 0.0
    ensures forall i, j :: 0 <= i < size && 0 <= j < size ==>
              w[i][j] == density(j - size / 2, i - size / 2) / Total(RawKernel(size, density))
  {
    var raw := RawKernel(size, density);
    MatrixSumPositive(raw, |raw|);
    var total := Total(raw);
    MatrixSumScale(raw, total, |raw|);
    DivideSelf(total);
    var w := ScaleMatrix(raw, total);
    ScaleMatrixCells(raw, total);
    w
  }

  /** Builds the kernel for `size`, aborting where the array allocation or the
      offset loop would: a negative size cannot be allocated, and for an even
      size the loop's last offset writes outside the array (EvenSizeOverruns). */
  function Generate(size: int, density: (int, int) -> real): (r: Result<Kernel, KernelError>)
    requires PositiveDensity(density)
    ensures r.Success? <==> size > 0 && size % 2 == 1
    ensures size < 0 ==> r == Failure(NegativeSize)
    ensures 0 <= size && size % 2 == 0 ==> r == Failure(IndexOutOfBounds)
    ensures r.Success? ==> r.value.Valid() && r.value.size == size
    ensures r.Success? ==> Total(r.value.weights) == 1.0
    ensures r.Success? ==> forall i, j :: 0 <= i < size && 0 <= j < size ==> r.value.weights[i][j] > 0.0
  {
    if size < 0 then Failure(NegativeSize)
    else if size % 2 == 0 then Failure(IndexOutOfBounds)
    else Success(Kernel(size, Normalized(size, density)))
  }

  /** A density symmetric through the origin gives a kernel unchanged by a
      half-turn about its centre cell. */
  lemma GenerateHalfTurnSymmetric(size: int, density: (int, int) -> real, i: int, j: int)
    requires PositiveDensity(density)
    requires forall dx, dy :: density(dx, dy) == density(-dx, -dy)
    requires size > 0 && size % 2 == 1
    requires 0 <= i < size && 0 <= j < size
    ensures Generate(size, density).value.weights[i][j]
            == Generate(size, density).value.weights[size - 1 - i][size - 1 - j]
  {
    var o := size / 2;
    assert (size - 1 - j) - o == -(j - o);
    assert (size - 1 - i) - o == -(i - o);
    assert density(j - o, i - o) == density(-(j - o), -(i - o));
  }
}
