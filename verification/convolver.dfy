/**
 The band convolver: for every pixel of a row range it samples the
 neighbourhood under the kernel with edge clamping, sums the weighted
 intensities, turns the sum into a grey level and writes it as a grey word
 into the output raster. The source raster is only read.
 */
module Convolver {
  import opened Pixel
  import opened Sums
  import opened Kernels
  import opened Images

  /** The half-open row range `[startY, endY)` handed to one worker. */
  datatype Band = Band(startY: int, endY: int) {

    predicate Contains(y: int) {
      startY <= y < endY
    }
  }

  /** Nearest valid coordinate in `[0, n)`: `min(max(c, 0), n - 1)`. */
  function Clamp(c: int, n: int): (r: int)
    requires n >= 1
    ensures 0 <= r < n
    ensures 0 <= c < n ==> r == c
    ensures c < 0 ==> r == 0
    ensures n <= c ==> r == n - 1
  {
    Min(Max(c, 0), n - 1)
  }

  function Dist(a: int, b: int): (d: nat) {
    if a <= b then b - a else a - b
  }

  /** Clamping replicates the nearest edge pixel: no valid coordinate is
      closer to the requested one than the clamped coordinate. */
  lemma ClampIsNearest(c: int, n: int, q: int)
    requires n >= 1 && 0 <= q < n
    ensures Dist(c, Clamp(c, n)) <= Dist(c, q)
  {
  }

  /** The intensity read for the (possibly out-of-range) neighbour `(x, y)`. */
  function Sample(src: Image, x: int, y: int): (g: int)
    requires src.Valid() && src.width >= 1 && src.height >= 1
    ensures 0 <= g < 256
  {
    Intensity(src.rows[Clamp(y, src.height)][Clamp(x, src.width)])
  }

  /** The intensity under kernel cell `[i][j]` when the kernel is centred on
      `(x, y)`: the neighbour at offset `(j - offset, i - offset)`. */
  function Cell(src: Image, k: Kernel, x: int, y: int, i: int, j: int): (g: real)
    requires src.Valid() && src.width >= 1 && src.height >= 1
    ensures 0.0 <= g < 256.0
  {
    Sample(src, x + (j - k.Offset()), y + (i - k.Offset())) as real
  }

  /** The intensities under the whole kernel centred on `(x, y)`, clamped to
      the raster. */
  function Window(src: Image, k: Kernel, x: int, y: int): (win: seq<seq<real>>)
    requires src.Valid() && src.width >= 1 && src.height >= 1
    requires k.Valid()
    ensures SameDims(win, k.weights)
    ensures forall i, j {:trigger Cell(src, k, x, y, i, j)} ::
              0 <= i < k.size && 0 <= j < k.size ==> win[i][j] == Cell(src, k, x, y, i, j)
  {
    seq(k.size, i requires 0 <= i < k.size =>
      seq(k.size, j requires 0 <= j < k.size => Cell(src, k, x, y, i, j)))
  }

  /** The weighted sum over the whole kernel window centred on `(x, y)`,
      accumulated kernel row by kernel row, left to right. */
  function PixelSum(src: Image, k: Kernel, x: int, y: int): (sum: real)
    requires src.Valid() && src.width >= 1 && src.height >= 1
    requires k.Valid()
    ensures MatrixNonNegative(k.weights) ==> 0.0 <= sum <= 255.0 * Total(k.weights)
  {
    if MatrixNonNegative(k.weights) then
      WindowSumBounds(src, k, x, y);
      WeightedSum(Window(src, k, x, y), k.weights, k.size)
    else
      WeightedSum(Window(src, k, x, y), k.weights, k.size)
  }

  /** Intensities are bytes, so under non-negative weights the window's sum
      lies between 0 and 255 times the weights' sum. */
  lemma WindowSumBounds(src: Image, k: Kernel, x: int, y: int)
    requires src.Valid() && src.width >= 1 && src.height >= 1
    requires k.Valid() && MatrixNonNegative(k.weights)
    ensures 0.0 <= WeightedSum(Window(src, k, x, y), k.weights, k.size) <= 255.0 * Total(k.weights)
  {
    IntensitiesAreBytes(src);
    WindowWithin(src, k, x, y, 0, 255);
    WeightedSumBetween(Window(src, k, x, y), k.weights, k.size, 0.0, 255.0, Total(k.weights));
  }

  /** The word written for pixel `(x, y)`: a grey word whose three channels
      all hold the truncated and clamped weighted sum. */
  function Blurred(src: Image, k: Kernel, x: int, y: int): (w: Word)
    requires src.Valid() && src.width >= 1 && src.height >= 1
    requires k.Valid()
    ensures 0 <= w < 0x100_0000
  {
    Pack(ToByte(PixelSum(src, k, x, y)))
  }

  function BlurredRow(src: Image, k: Kernel, y: int): (row: seq<Word>)
    requires src.Valid() && src.height >= 1
    requires k.Valid()
    ensures |row| == src.width
  {
    seq(src.width, x requires 0 <= x < src.width => Blurred(src, k, x, y))
  }

  ghost predicate Compatible(src: Image, k: Kernel, out: Image) {
    src.Valid() && k.Valid() && out.Valid() && out.SameShape(src)
  }

  /** The output raster after one band has run: rows inside the band hold the
      blurred source, every other row is left as it was. */
  function BandResult(src: Image, k: Kernel, out: Image, b: Band): (res: Image)
    requires Compatible(src, k, out)
    ensures Compatible(src, k, res)
    ensures forall y :: 0 <= y < src.height && b.Contains(y) ==> res.rows[y] == BlurredRow(src, k, y)
    ensures forall y :: 0 <= y < src.height && !b.Contains(y) ==> res.rows[y] == out.rows[y]
  {
    out.(rows := seq(src.height, y requires 0 <= y < src.height =>
      if b.Contains(y) then BlurredRow(src, k, y) else out.rows[y]))
  }

  /** Kernel cell `[ky + offset][kx + offset]` covers the neighbour at
      offset `(kx, ky)`, read through clamped coordinates. */
  lemma CellAt(src: Image, k: Kernel, x: int, y: int, ky: int, kx: int)
    requires src.Valid() && src.width >= 1 && src.height >= 1
    ensures Cell(src, k, x, y, ky + k.Offset(), kx + k.Offset())
            == Intensity(src.rows[Clamp(y + ky, src.height)][Clamp(x + kx, src.width)]) as real
  {
    assert (kx + k.Offset()) - k.Offset() == kx;
    assert (ky + k.Offset()) - k.Offset() == ky;
  }

  /** One step of the worker's inner loop: adding the weighted neighbour at
      offset `(kx, ky)` extends the running dot product of kernel row
      `ky + offset` by one cell. */
  lemma CellStep(src: Image, k: Kernel, x: int, y: int, ky: int, kx: int,
                 g: seq<real>, w: seq<real>, n: nat, gray: int, weight: real, acc: real, sum: real)
    requires src.Valid() && src.width >= 1 && src.height >= 1
    requires k.Valid() && 0 <= ky + k.Offset() < k.size && 0 <= kx + k.Offset() < k.size
    requires g == Window(src, k, x, y)[ky + k.Offset()] && w == k.weights[ky + k.Offset()]
    requires n == kx + k.Offset() && weight == w[n]
    requires gray == Intensity(src.rows[Clamp(y + ky, src.height)][Clamp(x + kx, src.width)])
    requires sum == acc + Dot(g, w, n)
    ensures sum + gray as real * weight == acc + Dot(g, w, n + 1)
  {
    CellAt(src, k, x, y, ky, kx);
    assert g[n] == Cell(src, k, x, y, ky + k.Offset(), kx + k.Offset());
    DotNext(g, w, n, gray as real, weight);
  }

  /** The inner loop of the worker: adds the weighted neighbours under
      kernel row `ky + offset` to the running sum `acc`. */
  method AccumulateRow(src: Image, k: Kernel, x: int, y: int, ky: int, acc: real) returns (sum: real)
    requires src.Valid() && src.width >= 1 && src.height >= 1
    requires k.Valid() && -k.Offset() <= ky <= k.Offset()
    ensures 0 <= ky + k.Offset() < k.size
    ensures sum == acc + Dot(Window(src, k, x, y)[ky + k.Offset()], k.weights[ky + k.Offset()], k.size)
  {
    var offset := k.Offset();
    KernelIndexInRange(k.size, ky);
    ghost var g := Window(src, k, x, y)[ky + offset];
    ghost var w := k.weights[ky + offset];
    ghost var n := 0;
    sum := acc;
    var kx := -offset;
    while kx <= offset
      invariant -offset <= kx <= offset + 1 && n == kx + offset
      invariant sum == acc + Dot(g, w, n)
    {
      var pixelX := Clamp(x + kx, src.width);
      var pixelY := Clamp(y + ky, src.height);
      var gray := Intensity(src.rows[pixelY][pixelX]);
      var weight := k.weights[ky + offset][kx + offset];
      KernelIndexInRange(k.size, kx);
      CellStep(src, k, x, y, ky, kx, g, w, n, gray, weight, acc, sum);
      sum := sum + gray as real * weight;
      kx := kx + 1;
      n := n + 1;
    }
  }

  /** The neighbourhood sum for one pixel, with the loop nest of the worker. */
  method ConvolvePixel(src: Image, k: Kernel, x: int, y: int) returns (sum: real)
    requires src.Valid() && src.width >= 1 && src.height >= 1
    requires k.Valid()
    ensures sum == PixelSum(src, k, x, y)
  {
    var offset := k.Offset();
    ghost var win := Window(src, k, x, y);
    sum := 0.0;
    var ky := -offset;
    while ky <= offset
      invariant -offset <= ky <= offset + 1
      invariant sum == WeightedSum(win, k.weights, ky + offset)
    {
      KernelIndexInRange(k.size, ky);
      sum := AccumulateRow(src, k, x, y, ky, sum);
      ky := ky + 1;
    }
  }

  /** The word the worker writes for pixel `(x, y)`: the neighbourhood sum,
      cast and clamped, replicated into three channels. */
  method BlurPixel(src: Image, k: Kernel, x: int, y: int) returns (newRGB: Word)
    requires src.Valid() && src.width >= 1 && src.height >= 1
    requires k.Valid()
    ensures newRGB == Blurred(src, k, x, y)
  {
    var sum := ConvolvePixel(src, k, x, y);
    var value := ToByte(sum);
    newRGB := Pack(value);
  }

  /** A blurred word is grey: red, green and blue all hold the truncated and
      clamped neighbourhood sum. */
  lemma BlurredIsGrey(src: Image, k: Kernel, x: int, y: int)
    requires src.Valid() && src.width >= 1 && src.height >= 1
    requires k.Valid()
    ensures Red(Blurred(src, k, x, y)) == ToByte(PixelSum(src, k, x, y))
    ensures Green(Blurred(src, k, x, y)) == ToByte(PixelSum(src, k, x, y))
    ensures Intensity(Blurred(src, k, x, y)) == ToByte(PixelSum(src, k, x, y))
  {
    PackChannels(ToByte(PixelSum(src, k, x, y)));
  }

  /** The body of the worker's row loop: every pixel of row `y` is set to its
      blurred word, one `setRGB` at a time; no other row is touched. */
  method WriteRow(src: Image, k: Kernel, out: Image, y: int) returns (res: Image)
    requires Compatible(src, k, out)
    requires 0 <= y < src.height
    ensures res == out.(rows := out.rows[y := BlurredRow(src, k, y)])
  {
    var line := out.rows[y];
    var x := 0;
    while x < src.width
      invariant 0 <= x <= src.width && |line| == src.width
      invariant forall i :: 0 <= i < x ==> line[i] == Blurred(src, k, i, y)
    {
      var newRGB := BlurPixel(src, k, x, y);
      line := line[x := newRGB];
      x := x + 1;
    }
    assert line == BlurredRow(src, k, y);
    res := out.(rows := out.rows[y := line]);
  }

  /** One worker: writes the blurred pixels of rows `[startY, endY)` into `out`. */
  method RunBand(src: Image, k: Kernel, out: Image, startY: int, endY: int) returns (res: Image)
    requires Compatible(src, k, out)
    requires endY <= startY || 0 <= startY <= endY <= src.height
    ensures res == BandResult(src, k, out, Band(startY, endY))
    ensures res.Valid() && res.SameShape(out)
    ensures forall y, x :: 0 <= y < src.height && 0 <= x < src.width ==>
              res.rows[y][x] == if startY <= y < endY then Blurred(src, k, x, y) else out.rows[y][x]
  {
    res := out;
    var y := startY;
    EmptyBandChangesNothing(src, k, out, Band(startY, y));
    if endY <= startY {
      EmptyBandChangesNothing(src, k, out, Band(startY, endY));
      return;
    }
    while y < endY
      invariant startY <= y <= endY
      invariant res == BandResult(src, k, out, Band(startY, y))
    {
      res := WriteRow(src, k, res, y);
      assert res.rows == BandResult(src, k, out, Band(startY, y + 1)).rows;
      y := y + 1;
    }
  }

  /** Rows outside a band that is empty are all rows: nothing changes. */
  lemma EmptyBandChangesNothing(src: Image, k: Kernel, out: Image, b: Band)
    requires Compatible(src, k, out)
    requires b.endY <= b.startY
    ensures BandResult(src, k, out, b) == out
  {
    assert BandResult(src, k, out, b).rows == out.rows;
  }

  /** Two adjacent bands run one after the other give the band spanning both. */
  lemma AdjacentBandsCompose(src: Image, k: Kernel, out: Image, a: int, m: int, c: int)
    requires Compatible(src, k, out)
    requires a <= m <= c
    ensures BandResult(src, k, BandResult(src, k, out, Band(a, m)), Band(m, c))
            == BandResult(src, k, out, Band(a, c))
  {
    var lhs := BandResult(src, k, BandResult(src, k, out, Band(a, m)), Band(m, c));
    var rhs := BandResult(src, k, out, Band(a, c));
    assert lhs.rows == rhs.rows;
  }

  /** Workers may finish in either order: what a band writes depends on the
      source raster only, never on what another band wrote. */
  lemma BandsCommute(src: Image, k: Kernel, out: Image, b1: Band, b2: Band)
    requires Compatible(src, k, out)
    ensures BandResult(src, k, BandResult(src, k, out, b1), b2)
            == BandResult(src, k, BandResult(src, k, out, b2), b1)
  {
    var lhs := BandResult(src, k, BandResult(src, k, out, b1), b2);
    var rhs := BandResult(src, k, BandResult(src, k, out, b2), b1);
    assert lhs.rows == rhs.rows;
  }

  ghost predicate IntensitiesWithin(src: Image, lo: int, hi: int) {
    && src.Valid()
    && forall y, x :: 0 <= y < src.height && 0 <= x < src.width ==> lo <= Intensity(src.rows[y][x]) <= hi
  }

  /** Every source intensity is a byte. */
  lemma IntensitiesAreBytes(src: Image)
    requires src.Valid()
    ensures IntensitiesWithin(src, 0, 255)
  {
  }

  ghost predicate NonNegativeWeights(k: Kernel) {
    k.Valid() && MatrixNonNegative(k.weights)
  }

  /** Every intensity of the window lies in the range of the source's. */
  lemma WindowWithin(src: Image, k: Kernel, x: int, y: int, lo: int, hi: int)
    requires IntensitiesWithin(src, lo, hi) && src.width >= 1 && src.height >= 1
    requires k.Valid()
    ensures MatrixWithin(Window(src, k, x, y), lo as real, hi as real)
  {
    var win := Window(src, k, x, y);
    forall i, j | 0 <= i < k.size && 0 <= j < k.size
      ensures Within(win[i][j], lo as real, hi as real)
    {
      assert win[i][j] == Cell(src, k, x, y, i, j);
      var sy := Clamp(y + (i - k.Offset()), src.height);
      var sx := Clamp(x + (j - k.Offset()), src.width);
      assert lo <= Intensity(src.rows[sy][sx]) <= hi;
    }
  }

  /** With non-negative weights summing to one, a blurred pixel is never
      darker than the darkest source pixel nor brighter than the brightest. */
  lemma BlurStaysWithinRange(src: Image, k: Kernel, x: int, y: int, lo: int, hi: int)
    requires IntensitiesWithin(src, lo, hi) && src.width >= 1 && src.height >= 1
    requires NonNegativeWeights(k) && Total(k.weights) == 1.0
    requires 0 <= lo <= hi < 256
    ensures lo <= Intensity(Blurred(src, k, x, y)) <= hi
  {
    WindowWithin(src, k, x, y, lo, hi);
    WeightedSumBetween(Window(src, k, x, y), k.weights, k.size, lo as real, hi as real, 1.0);
    var sum := PixelSum(src, k, x, y);
    assert lo as real <= sum <= hi as real;
    ToByteMonotone(lo as real, sum);
    ToByteMonotone(sum, hi as real);
    ToByteOfLevel(lo);
    ToByteOfLevel(hi);
    PackChannels(ToByte(sum));
  }

  /** A uniformly grey image is left unchanged, edges included: clamped
      neighbours carry the same level. */
  lemma UniformImageIsFixed(src: Image, k: Kernel, x: int, y: int, v: int)
    requires IntensitiesWithin(src, v, v) && src.width >= 1 && src.height >= 1
    requires NonNegativeWeights(k) && Total(k.weights) == 1.0
    requires 0 <= v < 256
    ensures Blurred(src, k, x, y) == Pack(v)
  {
    BlurStaysWithinRange(src, k, x, y, v, v);
    PackChannels(ToByte(PixelSum(src, k, x, y)));
  }
}
