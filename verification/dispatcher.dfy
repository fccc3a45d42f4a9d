/**
 The driver: splits the rows of the image into one band per worker, builds
 the kernel, runs one band convolver per band into a shared output raster,
 and waits for all of them. Workers are modelled as running one after the
 other; because bands are disjoint and every band reads only the source, the
 order does not matter (BandsCommute), and the result is the same as one pass
 over all rows whatever the number of workers.
 */
module Dispatcher {
  import opened Wrappers
  import opened Kernels
  import opened Images
  import opened Convolver

  /** Why the driver aborts before any worker starts: the band height is
      computed by dividing by the thread count, the thread array is allocated
      with it, and the first worker's constructor builds the kernel. */
  datatype DispatchError =
    | ThreadCountZero
    | ThreadCountNegative
    | BadKernel(cause: KernelError)

  /** The band of worker `i` out of `n`: every band is `height / n` rows high,
      except the last, which runs to the bottom of the image. */
  function BandOf(height: nat, n: int, i: int): (b: Band)
    requires n >= 1
    ensures 0 <= i < n ==> 0 <= b.startY <= b.endY <= height
  {
    var part := height / n;
    var startY := i * part;
    var b := Band(startY, if i == n - 1 then height else startY + part);
    if 0 <= i < n then
      assert height == n * part + height % n;
      MulLe(0, i, part);
      MulLe(i + 1, n, part);
      MulSucc(i, part);
      b
    else
      b
  }

  /** The bands handed to workers `0 .. n - 1`, in order. */
  function Partition(height: nat, n: int): (bs: seq<Band>)
    requires n >= 1
    ensures |bs| == n
    ensures forall i :: 0 <= i < n ==> bs[i] == BandOf(height, n, i)
  {
    seq(n, i requires 0 <= i < n => BandOf(height, n, i))
  }

  /** `bs` covers `[lo, hi)` in order: it starts at `lo`, ends at `hi`, no
      band is inverted, and each band starts where the previous one ended. */
  ghost predicate Tiles(bs: seq<Band>, lo: int, hi: int) {
    && |bs| > 0
    && bs[0].startY == lo
    && bs[|bs| - 1].endY == hi
    && (forall i :: 0 <= i < |bs| ==> bs[i].startY <= bs[i].endY)
    && (forall i :: 0 <= i < |bs| - 1 ==> bs[i].endY == bs[i + 1].startY)
  }

  lemma MulLe(a: int, b: int, c: int)
    requires a <= b && c >= 0
    ensures a * c <= b * c
  {
  }

  lemma MulSucc(i: int, c: int)
    ensures (i + 1) * c == i * c + c
  {
  }

  /** Where band `i` starts and ends, in terms of `part = height / n`. */
  lemma BandOfBounds(height: nat, n: int, i: int)
    requires n >= 1 && 0 <= i < n
    ensures BandOf(height, n, i).startY == i * (height / n)
    ensures 0 <= BandOf(height, n, i).startY <= BandOf(height, n, i).endY <= height
    ensures i < n - 1 ==> BandOf(height, n, i).endY == (i + 1) * (height / n)
    ensures i < n - 1 ==> BandOf(height, n, i).endY - BandOf(height, n, i).startY == height / n
    ensures i == n - 1 ==> BandOf(height, n, i).endY - BandOf(height, n, i).startY == height / n + height % n
  {
    var part := height / n;
    assert height == n * part + height % n;
    MulLe(0, i, part);
    MulLe(i + 1, n, part);
    MulSucc(i, part);
    MulSucc(n - 1, part);
  }

  /** The driver's bands tile all rows of the image, whatever the thread count. */
  lemma PartitionTiles(height: nat, n: int)
    requires n >= 1
    ensures Tiles(Partition(height, n), 0, height)
    ensures forall i :: 0 <= i < n ==> 0 <= Partition(height, n)[i].startY <= Partition(height, n)[i].endY <= height
    ensures forall i :: 0 <= i < n - 1 ==> Partition(height, n)[i].endY - Partition(height, n)[i].startY == height / n
    ensures Partition(height, n)[n - 1].endY - Partition(height, n)[n - 1].startY == height / n + height % n
  {
    var bs := Partition(height, n);
    forall i | 0 <= i < n
      ensures 0 <= bs[i].startY <= bs[i].endY <= height
      ensures i < n - 1 ==> bs[i].endY - bs[i].startY == height / n
      ensures i < n - 1 ==> bs[i].endY == bs[i + 1].startY
    {
      BandOfBounds(height, n, i);
      if i < n - 1 {
        BandOfBounds(height, n, i + 1);
      }
    }
    BandOfBounds(height, n, 0);
    BandOfBounds(height, n, n - 1);
  }

  /** The prefix of a tiling ending at band `m - 1` tiles the rows up to
      where that band ends. */
  lemma TilesPrefix(bs: seq<Band>, lo: int, hi: int, m: int)
    requires Tiles(bs, lo, hi) && 0 < m <= |bs|
    ensures Tiles(bs[..m], lo, bs[m - 1].endY)
  {
  }

  /** Every row of `[lo, hi)` lies in some band of a tiling. */
  lemma {:induction false} TilesCover(bs: seq<Band>, lo: int, hi: int, y: int)
    requires Tiles(bs, lo, hi) && lo <= y < hi
    ensures exists i :: 0 <= i < |bs| && bs[i].Contains(y)
    decreases |bs|
  {
    var last := |bs| - 1;
    if bs[last].startY <= y {
      assert bs[last].Contains(y);
    } else {
      TilesPrefix(bs, lo, hi, last);
      TilesCover(bs[..last], lo, bs[last - 1].endY, y);
      var i :| 0 <= i < last && bs[..last][i].Contains(y);
      assert bs[i].Contains(y);
    }
  }

  /** Bands of a tiling never overlap: the band that holds a row is unique. */
  lemma {:induction false} TilesDisjoint(bs: seq<Band>, lo: int, hi: int, i: int, j: int, y: int)
    requires Tiles(bs, lo, hi) && 0 <= i < j < |bs|
    ensures !(bs[i].Contains(y) && bs[j].Contains(y))
    decreases j - i
  {
    if i + 1 < j {
      TilesDisjoint(bs, lo, hi, i + 1, j, y);
      TilesDisjoint(bs, lo, hi, i, i + 1, y);
      BandsOrdered(bs, lo, hi, i + 1, j);
    }
  }

  /** In a tiling, a later band starts no earlier than an earlier band ends. */
  lemma {:induction false} BandsOrdered(bs: seq<Band>, lo: int, hi: int, i: int, j: int)
    requires Tiles(bs, lo, hi) && 0 <= i < j < |bs|
    ensures bs[i].endY <= bs[j].startY
    decreases j - i
  {
    if i + 1 < j {
      BandsOrdered(bs, lo, hi, i + 1, j);
    }
  }

  /** Every row of the image is written by exactly one worker. */
  lemma PartitionOwnsEveryRow(height: nat, n: int, y: int)
    requires n >= 1 && 0 <= y < height
    ensures exists i :: 0 <= i < n && Partition(height, n)[i].Contains(y)
    ensures forall i, j :: 0 <= i < n && 0 <= j < n && i != j ==>
              !(Partition(height, n)[i].Contains(y) && Partition(height, n)[j].Contains(y))
  {
    var bs := Partition(height, n);
    PartitionTiles(height, n);
    TilesCover(bs, 0, height, y);
    forall i, j | 0 <= i < n && 0 <= j < n && i != j
      ensures !(bs[i].Contains(y) && bs[j].Contains(y))
    {
      if i < j {
        TilesDisjoint(bs, 0, height, i, j, y);
      } else {
        TilesDisjoint(bs, 0, height, j, i, y);
      }
    }
  }

  /** The output after the workers of `bs` have all run, in order. */
  function RunBands(src: Image, k: Kernel, out: Image, bs: seq<Band>): (res: Image)
    requires Compatible(src, k, out)
    ensures Compatible(src, k, res)
  {
    if |bs| == 0 then out
    else BandResult(src, k, RunBands(src, k, out, bs[..|bs| - 1]), bs[|bs| - 1])
  }

  /** Running the workers of a tiling of `[lo, hi)` one after the other is the
      same as one worker over `[lo, hi)`. */
  lemma {:induction false} RunTiling(src: Image, k: Kernel, out: Image, bs: seq<Band>, lo: int, hi: int)
    requires Compatible(src, k, out) && Tiles(bs, lo, hi)
    ensures RunBands(src, k, out, bs) == BandResult(src, k, out, Band(lo, hi))
    decreases |bs|
  {
    var last := |bs| - 1;
    if last == 0 {
      EmptyBandChangesNothing(src, k, out, Band(lo, lo));
      assert bs[..0] == [];
    } else {
      var m := bs[last - 1].endY;
      TilesPrefix(bs, lo, hi, last);
      RunTiling(src, k, out, bs[..last], lo, m);
      if last - 1 > 0 {
        BandsOrdered(bs, lo, hi, 0, last - 1);
      }
      assert lo <= m <= hi;
      AdjacentBandsCompose(src, k, out, lo, m, hi);
    }
  }

  /** The whole program: validate the thread count, build the kernel, run
      every band into a fresh black raster. */
  function Dispatch(src: Image, kernelSize: int, density: (int, int) -> real, n: int): (r: Result<Image, DispatchError>)
    requires src.Valid() && src.width >= 1 && src.height >= 1
    requires PositiveDensity(density)
    ensures n == 0 ==> r == Failure(ThreadCountZero)
    ensures n < 0 ==> r == Failure(ThreadCountNegative)
    ensures n >= 1 && Generate(kernelSize, density).Failure? ==> r == Failure(BadKernel(Generate(kernelSize, density).error))
    ensures r.Success? <==> n >= 1 && kernelSize > 0 && kernelSize % 2 == 1
    ensures r.Success? ==> r.value.Valid() && r.value.SameShape(src)
  {
    if n == 0 then Failure(ThreadCountZero)
    else if n < 0 then Failure(ThreadCountNegative)
    else match Generate(kernelSize, density)
      case Failure(e) => Failure(BadKernel(e))
      case Success(k) => Success(RunBands(src, k, Blank(src.width, src.height), Partition(src.height, n)))
  }

  /** What the program writes, pixel by pixel: every pixel of the output is the
      blurred source pixel, whatever the thread count. */
  lemma DispatchBlursEveryPixel(src: Image, kernelSize: int, density: (int, int) -> real, n: int)
    requires src.Valid() && src.width >= 1 && src.height >= 1
    requires PositiveDensity(density)
    requires n >= 1 && kernelSize > 0 && kernelSize % 2 == 1
    ensures Dispatch(src, kernelSize, density, n).Success?
    ensures var k := Generate(kernelSize, density).value;
            Dispatch(src, kernelSize, density, n).value
            == BandResult(src, k, Blank(src.width, src.height), Band(0, src.height))
    ensures var k := Generate(kernelSize, density).value;
            forall y, x :: 0 <= y < src.height && 0 <= x < src.width ==>
              Dispatch(src, kernelSize, density, n).value.rows[y][x] == Blurred(src, k, x, y)
  {
    var k := Generate(kernelSize, density).value;
    var blank := Blank(src.width, src.height);
    PartitionTiles(src.height, n);
    RunTiling(src, k, blank, Partition(src.height, n), 0, src.height);
  }

  /** The thread count changes nothing but the work split: any two valid
      thread counts give the same image, and every failure is decided before
      a worker starts. */
  lemma ThreadCountInvariance(src: Image, kernelSize: int, density: (int, int) -> real, n1: int, n2: int)
    requires src.Valid() && src.width >= 1 && src.height >= 1
    requires PositiveDensity(density)
    requires n1 >= 1 && n2 >= 1
    ensures Dispatch(src, kernelSize, density, n1) == Dispatch(src, kernelSize, density, n2)
  {
    if kernelSize > 0 && kernelSize % 2 == 1 {
      DispatchBlursEveryPixel(src, kernelSize, density, n1);
      DispatchBlursEveryPixel(src, kernelSize, density, n2);
    }
  }

  /** Running one more band of `bs` runs it on top of the bands before it. */
  lemma RunBandsStep(src: Image, k: Kernel, out: Image, bs: seq<Band>, i: int)
    requires Compatible(src, k, out) && 0 <= i < |bs|
    ensures RunBands(src, k, out, bs[..i + 1]) == BandResult(src, k, RunBands(src, k, out, bs[..i]), bs[i])
  {
    assert bs[..i + 1][..i] == bs[..i];
  }

  /** The bounds the driver computes for worker `i` are those of its band. */
  lemma PartitionAt(height: nat, n: int, i: int, startY: int, endY: int)
    requires n >= 1 && 0 <= i < n
    requires startY == i * (height / n)
    requires endY == if i == n - 1 then height else startY + height / n
    ensures Partition(height, n)[i] == Band(startY, endY)
    ensures 0 <= startY <= endY <= height
  {
    BandOfBounds(height, n, i);
  }

  /** The driver as a loop: start one worker per band, in order, each writing
      into the output the previous ones wrote into. */
  method ParallelBlur(src: Image, kernelSize: int, density: (int, int) -> real, numThreads: int)
    returns (r: Result<Image, DispatchError>)
    requires src.Valid() && src.width >= 1 && src.height >= 1
    requires PositiveDensity(density)
    ensures r == Dispatch(src, kernelSize, density, numThreads)
  {
    if numThreads == 0 {
      return Failure(ThreadCountZero);
    }
    if numThreads < 0 {
      return Failure(ThreadCountNegative);
    }
    var part := src.height / numThreads;
    var kernel := Generate(kernelSize, density);
    if kernel.Failure? {
      return Failure(BadKernel(kernel.error));
    }
    var k := kernel.value;
    ghost var blank := Blank(src.width, src.height);
    ghost var bs := Partition(src.height, numThreads);
    var output := Blank(src.width, src.height);
    var i := 0;
    while i < numThreads
      invariant 0 <= i <= numThreads
      invariant output == RunBands(src, k, blank, bs[..i])
    {
      var startY := i * part;
      var endY := if i == numThreads - 1 then src.height else startY + part;
      PartitionAt(src.height, numThreads, i, startY, endY);
      RunBandsStep(src, k, blank, bs, i);
      output := RunBand(src, k, output, startY, endY);
      i := i + 1;
    }
    assert bs[..numThreads] == bs;
    return Success(output);
  }
}
