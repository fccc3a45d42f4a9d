/** The in-memory raster the blur reads from and writes to: a width x height
    grid of packed pixel words, row-major, addressed `rows[y][x]`. */
module Images {
  import opened Pixel

  datatype Image = Image(width: nat, height: nat, rows: seq<seq<Word>>) {

    predicate Valid() {
      && |rows| == height
      && forall y :: 0 <= y < |rows| ==> |rows[y]| == width
    }

    predicate SameShape(other: Image) {
      width == other.width && height == other.height
    }
  }

  /** A freshly allocated RGB raster: every word is zero (black). */
  function Blank(width: nat, height: nat): (img: Image)
    ensures img.Valid() && img.width == width && img.height == height
    ensures forall y, x :: 0 <= y < height && 0 <= x < width ==> img.rows[y][x] == 0
  {
    Image(width, height, seq(height, _ => seq(width, _ => 0)))
  }
}
