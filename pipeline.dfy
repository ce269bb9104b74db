/**
 * The difference-posterize-sharpen image pipeline as pure functions.
 *
 * Both the host's software reference and the accelerator kernel are proved
 * equal to `Sharpen(Posterize(a, b, t1, t2), height, width)`; the lemmas in
 * this module state what that specification promises.
 *
 * Images are flat row-major sequences: the cell in row `row` and column
 * `col` is at `Index(width, row, col)`.
 */
module Pipeline {

  // The configuration the repository is built with; the model keeps
  // dimensions and thresholds as parameters constrained by ValidConfig.
  const Height: nat := 128
  const Width: nat := 128
  const T1: int := 32
  const T2: int := 96

  // Sample depth of an 8-bit grayscale image.
  const SampleMin: int := 0
  const SampleMax: int := 255

  // The three posterization levels.
  const Low: int := 0
  const Mid: int := 128
  const High: int := 255

  predicate ValidConfig(height: nat, width: nat, t1: int, t2: int) {
    1 <= height && 1 <= width && 0 <= t1 < t2
  }

  predicate IsSample(x: int) {
    SampleMin <= x <= SampleMax
  }

  predicate AllSamples(s: seq<int>) {
    forall k :: 0 <= k < |s| ==> IsSample(s[k])
  }

  predicate IsLevel(x: int) {
    x == Low || x == Mid || x == High
  }

  /** A value of C's 32-bit `int`. */
  predicate IsInt32(x: int) {
    -0x8000_0000 <= x < 0x8000_0000
  }

  // ---------------------------------------------------------------------
  // Row-major geometry

  function Index(width: nat, row: nat, col: nat): nat {
    row * width + col
  }

  lemma IndexInImage(height: nat, width: nat, row: nat, col: nat)
    requires row < height && col < width
    ensures Index(width, row, col) < height * width
  {
    assert (row + 1) * width <= height * width by {
      MulMonotone(row + 1, height, width);
    }
  }

  /** A row-by-row traversal stays within the image up to and including the end of a row. */
  lemma IndexUpTo(height: nat, width: nat, row: nat, col: nat)
    requires (row < height && col <= width) || (row == height && col == 0)
    ensures Index(width, row, col) <= height * width
  {
    if row < height {
      MulMonotone(row + 1, height, width);
    }
  }

  /** The cell after the end of a row is the start of the next row. */
  lemma NextRow(width: nat, row: nat)
    ensures Index(width, row, width) == Index(width, row + 1, 0)
  {
  }

  lemma MulMonotone(a: nat, b: nat, c: nat)
    requires a <= b
    ensures a * c <= b * c
  {
  }

  /** Row-major addressing is a bijection between cells and flat indices. */
  lemma IndexRowCol(width: nat, row: nat, col: nat)
    requires col < width
    ensures Index(width, row, col) / width == row
    ensures Index(width, row, col) % width == col
  {
    var k := Index(width, row, col);
    var q, m := k / width, k % width;
    assert k == q * width + m;
    assert (q - row) * width == col - m;
    if q > row {
      MulMonotone(1, q - row, width);
    } else if q < row {
      MulMonotone(1, row - q, width);
    }
  }

  lemma CellOfIndex(height: nat, width: nat, k: nat)
    requires k < height * width
    ensures 0 < width && k / width < height
    ensures Index(width, k / width, k % width) == k
  {
    if k / width >= height {
      MulMonotone(height, k / width, width);
    }
  }

  /** Every cell that a row-by-row traversal visits before (row, col) has a smaller index. */
  lemma EarlierCellsBefore(width: nat, row: nat, col: nat)
    requires col <= width
    ensures forall r: nat, c: nat :: (r < row && c < width) || (r == row && c < col) ==>
              Index(width, r, c) < Index(width, row, col)
  {
    forall r: nat, c: nat | r < row && c < width
      ensures Index(width, r, c) < Index(width, row, col)
    {
      MulMonotone(r + 1, row, width);
    }
  }

  // ---------------------------------------------------------------------
  // Stage 1: difference and posterize

  function Abs(x: int): (r: nat)
    ensures r == x || r == -x
  {
    if x < 0 then -x else x
  }

  /** The posterization level of an absolute difference. */
  function Level(absDiff: int, t1: int, t2: int): int {
    if absDiff < t1 then Low
    else if absDiff < t2 then Mid
    else High
  }

  /** The three bands are half-open: `t1` itself is Mid and `t2` itself is High. */
  lemma LevelBands(absDiff: int, t1: int, t2: int)
    requires t1 < t2
    ensures IsLevel(Level(absDiff, t1, t2))
    ensures Level(absDiff, t1, t2) == Low <==> absDiff < t1
    ensures Level(absDiff, t1, t2) == Mid <==> t1 <= absDiff < t2
    ensures Level(absDiff, t1, t2) == High <==> t2 <= absDiff
  {
  }

  /** Stage 1: the classification image of two equally long images. */
  function Posterize(a: seq<int>, b: seq<int>, t1: int, t2: int): (c: seq<int>)
    requires |a| == |b|
    ensures |c| == |a|
    ensures forall k :: 0 <= k < |c| ==> IsLevel(c[k])
  {
    seq(|a|, k requires 0 <= k < |a| => Level(Abs(a[k] - b[k]), t1, t2))
  }

  /** Every classified cell is one of the three levels, chosen by the band of |a[k] - b[k]|. */
  lemma PosterizeLevels(a: seq<int>, b: seq<int>, t1: int, t2: int)
    requires |a| == |b| && t1 < t2
    ensures forall k :: 0 <= k < |a| ==> IsLevel(Posterize(a, b, t1, t2)[k])
    ensures forall k :: 0 <= k < |a| ==>
              (Posterize(a, b, t1, t2)[k] == Low <==> Abs(a[k] - b[k]) < t1)
    ensures forall k :: 0 <= k < |a| ==>
              (Posterize(a, b, t1, t2)[k] == Mid <==> t1 <= Abs(a[k] - b[k]) < t2)
    ensures forall k :: 0 <= k < |a| ==>
              (Posterize(a, b, t1, t2)[k] == High <==> t2 <= Abs(a[k] - b[k]))
  {
    forall k | 0 <= k < |a| {
      LevelBands(Abs(a[k] - b[k]), t1, t2);
    }
  }

  /** Posterization depends only on the absolute difference, so the inputs can be swapped. */
  lemma PosterizeSymmetric(a: seq<int>, b: seq<int>, t1: int, t2: int)
    requires |a| == |b|
    ensures Posterize(a, b, t1, t2) == Posterize(b, a, t1, t2)
  {
    forall k | 0 <= k < |a|
      ensures Posterize(a, b, t1, t2)[k] == Posterize(b, a, t1, t2)[k]
    {
      assert Abs(a[k] - b[k]) == Abs(b[k] - a[k]);
    }
  }

  // ---------------------------------------------------------------------
  // Stage 2: sharpen

  function Min(x: int, y: int): int {
    if x <= y then x else y
  }

  function Max(x: int, y: int): int {
    if x <= y then y else x
  }

  /** Saturation into the sample range. */
  function Clamp(x: int): (r: int)
    ensures IsSample(r)
    ensures x < SampleMin ==> r == SampleMin
    ensures x > SampleMax ==> r == SampleMax
    ensures IsSample(x) ==> r == x
  {
    Max(SampleMin, Min(x, SampleMax))
  }

  predicate IsBorder(height: nat, width: nat, row: nat, col: nat) {
    row == 0 || row == height - 1 || col == 0 || col == width - 1
  }

  /** The sharpened value of one cell: border cells pass through, interior cells use the 5-point stencil. */
  function SharpenAt(c: seq<int>, height: nat, width: nat, row: nat, col: nat): int
    requires |c| == height * width && row < height && col < width
  {
    IndexInImage(height, width, row, col);
    if IsBorder(height, width, row, col) then
      c[Index(width, row, col)]
    else
      IndexInImage(height, width, row - 1, col);
      IndexInImage(height, width, row + 1, col);
      IndexInImage(height, width, row, col - 1);
      IndexInImage(height, width, row, col + 1);
      Clamp(5 * c[Index(width, row, col)]
            - c[Index(width, row - 1, col)] - c[Index(width, row + 1, col)]
            - c[Index(width, row, col - 1)] - c[Index(width, row, col + 1)])
  }

  function SharpenFlat(c: seq<int>, height: nat, width: nat, k: nat): int
    requires |c| == height * width && k < height * width
  {
    CellOfIndex(height, width, k);
    SharpenAt(c, height, width, k / width, k % width)
  }

  /** Stage 2: the sharpened image of a classification image. */
  function Sharpen(c: seq<int>, height: nat, width: nat): (o: seq<int>)
    requires |c| == height * width
    ensures |o| == |c|
  {
    seq(height * width, k requires 0 <= k < height * width => SharpenFlat(c, height, width, k))
  }

  /**
   * The sharpened cell (row, col): a border cell equals its input; an
   * interior cell has all four neighbours inside the image and is the
   * clamped 5-point stencil of its input.
   */
  lemma SharpenCell(c: seq<int>, height: nat, width: nat, row: nat, col: nat)
    requires |c| == height * width && row < height && col < width
    ensures Index(width, row, col) < |c|
    ensures Sharpen(c, height, width)[Index(width, row, col)] == SharpenAt(c, height, width, row, col)
    ensures IsBorder(height, width, row, col) ==>
              Sharpen(c, height, width)[Index(width, row, col)] == c[Index(width, row, col)]
    ensures !IsBorder(height, width, row, col) ==>
              Index(width, row - 1, col) < |c| && Index(width, row + 1, col) < |c| &&
              Index(width, row, col - 1) < |c| && Index(width, row, col + 1) < |c| &&
              Sharpen(c, height, width)[Index(width, row, col)] ==
                Clamp(5 * c[Index(width, row, col)]
                      - c[Index(width, row - 1, col)] - c[Index(width, row + 1, col)]
                      - c[Index(width, row, col - 1)] - c[Index(width, row, col + 1)])
  {
    IndexInImage(height, width, row, col);
    IndexRowCol(width, row, col);
    if !IsBorder(height, width, row, col) {
      IndexInImage(height, width, row - 1, col);
      IndexInImage(height, width, row + 1, col);
      IndexInImage(height, width, row, col - 1);
      IndexInImage(height, width, row, col + 1);
    }
  }

  /** Sharpening a sample image yields a sample image. */
  lemma SharpenRange(c: seq<int>, height: nat, width: nat)
    requires |c| == height * width && AllSamples(c)
    ensures AllSamples(Sharpen(c, height, width))
  {
    forall k | 0 <= k < height * width
      ensures IsSample(Sharpen(c, height, width)[k])
    {
      CellOfIndex(height, width, k);
      IndexInImage(height, width, k / width, k % width);
    }
  }

  // ---------------------------------------------------------------------
  // The whole pipeline

  /** Both stages in sequence, the second starting on the complete output of the first. */
  function Run(a: seq<int>, b: seq<int>, height: nat, width: nat, t1: int, t2: int): (o: seq<int>)
    requires |a| == |b| == height * width
    ensures |o| == height * width
  {
    Sharpen(Posterize(a, b, t1, t2), height, width)
  }

  /** Every output cell of the pipeline lies in [0, 255], whatever the inputs. */
  lemma RunRange(a: seq<int>, b: seq<int>, height: nat, width: nat, t1: int, t2: int)
    requires |a| == |b| == height * width && t1 < t2
    ensures AllSamples(Run(a, b, height, width, t1, t2))
  {
    PosterizeLevels(a, b, t1, t2);
    SharpenRange(Posterize(a, b, t1, t2), height, width);
  }

  /** A uniform sample field is a fixed point of sharpening: 5v - 4v = v. */
  lemma SharpenUniform(c: seq<int>, height: nat, width: nat, v: int)
    requires |c| == height * width && IsSample(v)
    requires forall k :: 0 <= k < |c| ==> c[k] == v
    ensures Sharpen(c, height, width) == c
  {
    forall k | 0 <= k < |c|
      ensures Sharpen(c, height, width)[k] == c[k]
    {
      SharpenUniformAt(c, height, width, v, k);
    }
  }

  lemma SharpenUniformAt(c: seq<int>, height: nat, width: nat, v: int, k: nat)
    requires |c| == height * width && IsSample(v) && k < |c|
    requires forall k :: 0 <= k < |c| ==> c[k] == v
    ensures Sharpen(c, height, width)[k] == v
  {
    CellOfIndex(height, width, k);
    var row, col := k / width, k % width;
    SharpenCell(c, height, width, row, col);
    assert Clamp(5 * v - v - v - v - v) == v;
  }
}
