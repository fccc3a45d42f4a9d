# Parallel Gaussian blur — a Dafny model

The program blurs a greyscale picture with a square Gaussian kernel.
It splits the rows of the picture into one horizontal band per worker
thread. Each worker builds the kernel and convolves its band. For every
pixel it samples the neighbourhood with clamped edge coordinates, reads
the low byte of each neighbour and sums the weighted intensities. It then
truncates the sum to an `int`, clamps it to [0, 255] and writes the level
into all three colour channels of a shared output raster. The driver
waits for every worker before saving the output.

The model has one module per part of that pipeline:

- `Pixel` (pixel.dfy) covers the word-level arithmetic:
  - the `& 0xFF` intensity;
  - Java's `(int)` cast from a floating-point value;
  - the clamp to a byte;
  - the `(v << 16) | (v << 8) | v` grey packing.
- `Sums` (sums.dfy) holds the running sums the worker's loops accumulate. It also proves their bounds and their value on constant samples.
- `Kernels` (kernel.dfy) builds the normalised kernel and its error cases.
- `Images` (image.dfy) is the raster, plus the black raster the driver allocates.
- `Convolver` (convolver.dfy) covers the band worker:
  - the clamp;
  - the sample window;
  - the per-pixel sum as loops;
  - the band as a loop over rows;
  - the functional band result;
  - how band results compose and commute.
- `Dispatcher` (dispatcher.dfy) covers the driver:
  - the band partition;
  - the error cases;
  - the fan-out as a sequential loop;
  - the theorem that the output does not depend on the thread count.
- `Wrappers` (wrappers.dfy) provides the `Result` type for the error paths.

The workers run one after the other in the model. This matches the
concurrent program because each worker writes only the rows of its own
band (`RunBand`) and reads only the source image. Band results commute
(`BandsCommute`), so any interleaving of whole bands gives the same
raster.

## Model

| member | source | states |
|---|---|---|
| Images.Blank | src/Main.java:113 | the freshly allocated output raster has the source's width and height and every word is zero (black) |
| Pixel.Intensity | src/Main.java:50 | masking a packed word with `0xFF` yields a level in [0, 255] |
| Pixel.Truncate | src/Main.java:58 | the cast rounds toward zero: the result lies within one unit of the sum on the side of zero and keeps its sign |
| Pixel.IntCast | src/Main.java:58 | the `(int)` cast lies in the 32-bit range, equals truncation inside it and saturates at `Integer.MAX_VALUE` / `Integer.MIN_VALUE` outside it |
| Pixel.ToByte | src/Main.java:58 | the written level is in [0, 255]. For a sum in [0, 256) it is the whole part of the sum. A sum below 1 gives 0 and a sum of 255 or more gives 255 |
| Pixel.ToByteOfLevel | src/Main.java:58 | a sum that already is a whole level in [0, 255] is written unchanged |
| Pixel.ToByteMonotone | src/Main.java:58 | a larger weighted sum never gives a darker level |
| Pixel.ToByteTruncates | src/Main.java:58 | the fraction is dropped even above one half (254.75 gives 254, 0.5 gives 0) |
| Pixel.GreyBits | src/Main.java:59 | for a byte, OR-ing its copies shifted by 16, 8 and 0 bits equals adding them, and each copy reads back through a shift and `& 0xFF` |
| Pixel.Pack | src/Main.java:59 | a grey word has alpha zero and fits in 24 bits |
| Pixel.PackChannels | src/Main.java:59 | the red, green and blue channels of a grey word all read back the level (pack/unpack round trip) |
| Pixel.PackInjective | src/Main.java:59 | two grey words are equal exactly when their levels are equal |
| Convolver.Clamp | src/Main.java:48-49 | `min(max(c, 0), n - 1)` is a valid index. It leaves in-range coordinates unchanged and maps coordinates off either edge to that edge |
| Convolver.ClampIsNearest | src/Main.java:48-49 | the clamped coordinate is the valid index nearest to the requested one (edge replication) |
| Convolver.Sample | src/Main.java:48-50 | the intensity of the clamped neighbour is in [0, 255] for any, even far out-of-range, coordinates |
| Convolver.PixelSum | src/Main.java:42-55 | the weighted sum of the window is, for non-negative weights, between 0 and 255 times the weights' sum |
| Convolver.WindowSumBounds | src/Main.java:45-55 | with non-negative weights the window's weighted sum lies between 0 and 255 times the weights' sum |
| Convolver.Blurred | src/Main.java:58-59 | the word written for a pixel has alpha zero and fits in 24 bits |
| Convolver.BlurredRow | src/Main.java:41-60 | a blurred row has one word per column of the image |
| Convolver.IntensitiesAreBytes | src/Main.java:50 | every masked source word is a level in [0, 255] |
| Convolver.Window | src/Main.java:45-53 | the sampled neighbourhood has the kernel's shape, and cell `[i][j]` is the sample at offset `(j - offset, i - offset)` |
| Convolver.CellAt | src/Main.java:47-53 | the window cell at `[ky + offset][kx + offset]` is the intensity of the pixel at the clamped `(x + kx, y + ky)` |
| Convolver.AccumulateRow | src/Main.java:46-54 | the inner loop over `kx` adds the dot product of one window row with the matching kernel row to the running sum |
| Convolver.ConvolvePixel | src/Main.java:42-55 | the two kernel loops compute the weighted sum of the whole window, accumulated row by row |
| Convolver.BlurPixel | src/Main.java:42-59 | the word computed for pixel `(x, y)` is the packed, truncated and clamped weighted sum |
| Convolver.BlurredIsGrey | src/Main.java:58-59 | all three channels of a written pixel carry the same level, the byte of the weighted sum |
| Convolver.BandResult | src/Main.java:39-41 | after a band, rows inside it hold the blurred source and every other row is as before |
| Convolver.WriteRow | src/Main.java:41-61 | one pass over the columns replaces row `y`, and only row `y`, with the blurred row |
| Convolver.RunBand | src/Main.java:33-63 | the worker's output changes exactly the pixels of rows `[startY, endY)`, each to its blurred value, and leaves every other pixel untouched |
| Convolver.EmptyBandChangesNothing | src/Main.java:39 | a band whose start is not below its end writes nothing |
| Convolver.AdjacentBandsCompose | src/Main.java:39 | running band `[a, m)` and then `[m, c)` is the same as running `[a, c)` |
| Convolver.BandsCommute | src/Main.java:39-60 | two bands run in either order give the same raster, because the source is only read and each row's value depends only on the source |
| Convolver.WindowWithin | src/Main.java:48-50 | if every source intensity lies in `[lo, hi]`, so does every window cell |
| Convolver.BlurStaysWithinRange | src/Main.java:45-58 | with non-negative weights summing to one, the written level lies between the darkest and brightest source intensity |
| Convolver.UniformImageIsFixed | src/Main.java:45-59 | with such weights, an image of one uniform level is written back as that grey level |
| Sums.DotNext | src/Main.java:53 | one more cell adds its intensity times its weight to the running sum |
| Sums.DotBetween | src/Main.java:46-54 | samples in `[lo, hi]` under non-negative weights give a row sum between `lo` and `hi` times the weights' sum |
| Sums.WeightedSumBetween | src/Main.java:45-55 | the same bound for the whole window |
| Sums.DotConst | src/Main.java:46-54 | equal samples `v` give `v` times the weights' sum for one row |
| Sums.WeightedSumConst | src/Main.java:45-55 | equal samples `v` give `v` times the weights' sum for the whole window |
| Sums.AddBetween | src/Main.java:53 | adding a term bounded by `lo`/`hi` times its weight keeps the running sum bounded by `lo`/`hi` times the running weight |
| Kernels.KernelIndexInRange | src/Main.java:72-80 | for an odd size every offset in `[-offset, offset]` addresses a cell in `[0, size)`, and the index minus `offset` gives the offset back |
| Kernels.EvenSizeOverruns | src/Main.java:72-80 | for an even size the last offset plus the offset is `size`, an index outside `[0, size)`, so the write at line 80 fails |
| Kernels.RawKernel | src/Main.java:76-83 | the unnormalised matrix is `size` x `size`, and cell `[y + offset][x + offset]` holds the density at `(x, y)` |
| Kernels.ScaleRow | src/Main.java:86-90 | dividing a row by a non-zero sum keeps its length, and multiplying each cell back by the sum restores the original entry |
| Kernels.ScaleMatrix | src/Main.java:86-90 | dividing a matrix keeps its number of rows and divides each row |
| Kernels.ScaleMatrixCells | src/Main.java:86-90 | dividing every cell by a positive sum keeps each cell positive and equal to the cell over the sum |
| Kernels.RowSumScale | src/Main.java:86-90 | dividing every entry of a row divides the row's sum |
| Kernels.MatrixSumScale | src/Main.java:86-90 | dividing every cell of a matrix divides the matrix's sum |
| Kernels.MatrixSumPositive | src/Main.java:81 | the accumulated sum of positive densities is positive, so the division is defined |
| Kernels.Normalized | src/Main.java:70-93 | the kernel is `size` x `size`. Its cells are positive and sum to one, and each is the density at its offset divided by the total density |
| Kernels.Generate | src/Main.java:70-93 | building succeeds exactly for odd positive sizes. A negative size fails at the allocation and an even size (zero included) fails on the out-of-range write. A built kernel is valid, positive and normalised |
| Kernels.GenerateHalfTurnSymmetric | src/Main.java:76-90 | a density symmetric through the origin gives a kernel unchanged by a 180-degree rotation |
| Dispatcher.BandOf | src/Main.java:117-126 | the band of every worker index `i` in `[0, n)` lies within the image rows and is not inverted |
| Dispatcher.Partition | src/Main.java:124-126 | there is one band per worker, and band `i` is the one the driver computes for index `i` |
| Dispatcher.BandOfBounds | src/Main.java:117-126 | band `i` starts at `i * part` with `part = height / n`. It lies within `[0, height]`, is `part` rows high, and the last band is `part + height % n` rows high |
| Dispatcher.PartitionTiles | src/Main.java:117-126 | the bands start at row 0, end at `height`, are not inverted and are contiguous. All but the last have `part` rows, and the last has `part + height % n` rows |
| Dispatcher.TilesCover | src/Main.java:124-126 | every row of a tiled range lies in some band |
| Dispatcher.TilesDisjoint | src/Main.java:124-126 | no row lies in two bands of a tiling |
| Dispatcher.BandsOrdered | src/Main.java:124-126 | a later band starts no earlier than an earlier one ends |
| Dispatcher.TilesPrefix | src/Main.java:124-126 | the leading bands of a tiling tile the rows up to where the last of them ends |
| Dispatcher.PartitionOwnsEveryRow | src/Main.java:124-126 | every row of the image belongs to exactly one worker's band: the write sets are exclusive and cover the raster |
| Dispatcher.RunBands | src/Main.java:124-134 | running workers one after the other keeps the output a raster of the source's shape |
| Dispatcher.RunTiling | src/Main.java:124-134 | the workers of a tiling of `[lo, hi)`, run in order, produce what one worker over `[lo, hi)` produces |
| Dispatcher.RunBandsStep | src/Main.java:124-129 | starting one more worker applies its band to the output of the workers before it |
| Dispatcher.PartitionAt | src/Main.java:125-126 | the bounds the driver computes for worker `i` are band `i` of the partition and lie within the image |
| Dispatcher.Dispatch | src/Main.java:113-134 | a thread count of zero fails at the division and a negative one fails at the thread-array allocation. Otherwise kernel errors are reported. The run succeeds exactly for a positive thread count and an odd positive kernel size, and the output has the source's shape |
| Dispatcher.DispatchBlursEveryPixel | src/Main.java:113-134 | on success the output is one pass over all rows of a black raster, and every pixel holds its blurred value |
| Dispatcher.ThreadCountInvariance | src/Main.java:116-134 | any two positive thread counts give the same result, including the same error |
| Dispatcher.ParallelBlur | src/Main.java:116-134 | the driver's loop over worker indices, each worker writing into the raster the earlier ones wrote, computes the whole program's result |

## Left out

- Floating-point arithmetic is not modelled. The kernel cells, the running sum and the normalisation use exact reals, not `float`. So rounding error in the 32-bit accumulation is not modelled, and the kernel sums to exactly one.
- The Gaussian formula `exp(-(x² + y²) / 2σ²) / 2πσ²` is not modelled. The kernel builder takes the density as a parameter (any positive function of the offset pair), so `sigma` is only present through that density. The code does not check `sigma`: a zero sigma gives NaN or infinite floats and no exception, which exact reals cannot express.
- Loading and saving the image, the hard-coded file paths, the console messages, and the time and memory measurements (lines 101-110, 136-148) are I/O and are not modelled.
- Threads are modelled as running one band after the other. `Thread.start` and `join` are not modelled. Disjoint write sets (`RunBand`, `PartitionOwnsEveryRow`) and commuting bands (`BandsCommute`) are what make the sequential order stand for any schedule.
- The thread count 16, kernel size 61 and sigma 10 are constants in the code (lines 116, 120-121). Here they are parameters.
- Every worker builds its own copy of the kernel in its constructor (line 29). Building is deterministic, so the model builds it once. The first constructor runs before any thread starts, so a kernel error aborts the run with no band written.
- `Dispatcher.Dispatch` requires a source of positive width and height. A decoded `BufferedImage` always has positive dimensions, and the clamp `min(max(c, 0), n - 1)` has no valid result for an empty axis.
- The alpha byte and the red and green channels of the source are never read (only `& 0xFF` is), so the source words are arbitrary 32-bit values. The output raster is `TYPE_INT_RGB`, which drops alpha on write. The grey words written have alpha zero anyway, so this changes nothing.
- `Pixel.Pack` uses `+` in place of the bitwise `|`. `Pixel.GreyBits` proves on 32-bit vectors that the two agree for a byte.
- A thread count above the image height is accepted, as the code accepts it: every band but the last is empty and the last worker does every row.
- The written level is truncated (`(int) sum`), not rounded to the nearest integer, because that is what line 58 does. A neighbour of a single pixel of level 255 under kernel weight `w` therefore receives `⌊255·w⌋`, not the rounded value.
- Convolver.BlurStaysWithinRange: holds for exact-real weights that sum to exactly one. In the program the weights are `float` (lines 11, 88) and the sum is a `float` of `size²` rounded terms (lines 42, 53). Where every neighbour has the darkest level `lo`, the sum can land a few units in the last place below `lo`, and the truncating cast at line 58 then writes `lo - 1`, below the stated range.
- Convolver.UniformImageIsFixed: holds for exact-real weights only, for the same reason. With `float` weights a uniform image of level `v` can come out one level darker, for example 255 as 254, when the rounded sum falls just below `v`.
- Pixel.Intensity: models `p & 0xFF` as `p % 256`, whose remainder is never negative. That this equals the masked low byte also for negative words, such as the opaque words `getRGB` returns, follows from two's complement and is not proved here.
- Convolver.RunBand: requires a non-empty band to lie inside the image. A band reaching past row 0 or row `height - 1` would make `setRGB` throw after some rows are written. The partition never produces such a band (`PartitionTiles`). An empty or inverted band is accepted and writes nothing, as in the code.
