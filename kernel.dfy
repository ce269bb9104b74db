/**
 * The accelerator kernel IMAGE_DIFF_POSTERIZE: copy the flat inputs into
 * 2-D local images, posterize their difference, sharpen, and write the
 * result back flat. Each labelled loop nest of the kernel is one method
 * here; the kernel calls them in the source's order, so the sharpen stage
 * starts only once the classification image is complete. The HLS pragmas
 * only schedule the loops and are not modelled.
 */
module Kernel {
  import opened Pipeline

  /** Clip into [minVal, maxVal]; below minVal wins over above maxVal. */
  function Clip(x: int, minVal: int, maxVal: int): (r: int)
    ensures x < minVal ==> r == minVal
    ensures minVal <= x && x > maxVal ==> r == maxVal
    ensures minVal <= x <= maxVal ==> r == x
    ensures minVal <= maxVal ==> minVal <= r <= maxVal
  {
    if x < minVal then minVal
    else if x > maxVal then maxVal
    else x
  }

  /** The loops read_A and read_B: copy a flat row-major buffer into a 2-D image. */
  method ReadImage(src: array<int>, height: nat, width: nat) returns (img: array2<int>)
    requires src.Length == height * width
    ensures img.Length0 == height && img.Length1 == width
    ensures forall row: nat, col: nat :: row < height && col < width ==>
              Index(width, row, col) < src.Length && img[row, col] == src[Index(width, row, col)]
  {
    img := new int[height, width];
    var i := 0;
    while i < height
      invariant 0 <= i <= height
      invariant forall row: nat, col: nat :: row < i && col < width ==>
                  Index(width, row, col) < src.Length && img[row, col] == src[Index(width, row, col)]
      modifies img
    {
      var j := 0;
      while j < width
        invariant 0 <= j <= width
        invariant forall row: nat, col: nat :: row < i && col < width ==>
                    Index(width, row, col) < src.Length && img[row, col] == src[Index(width, row, col)]
        invariant forall col: nat :: col < j ==>
                    Index(width, i, col) < src.Length && img[i, col] == src[Index(width, i, col)]
        modifies img
      {
        IndexInImage(height, width, i, j);
        img[i, j] := src[Index(width, i, j)];
        j := j + 1;
      }
      i := i + 1;
    }
  }

  /**
   * The loop process_diff_post. `a` and `b` are the two input images read
   * row-major; every cell of the result is the specified posterization of
   * the corresponding input samples.
   */
  method PosterizeCells(imgA: array2<int>, imgB: array2<int>, t1: int, t2: int,
                        ghost a: seq<int>, ghost b: seq<int>)
    returns (imgC: array2<int>)
    requires imgA.Length0 == imgB.Length0 && imgA.Length1 == imgB.Length1
    requires |a| == |b| == imgA.Length0 * imgA.Length1 && AllSamples(a) && AllSamples(b)
    requires forall row: nat, col: nat :: row < imgA.Length0 && col < imgA.Length1 ==>
               Index(imgA.Length1, row, col) < |a| &&
               imgA[row, col] == a[Index(imgA.Length1, row, col)] &&
               imgB[row, col] == b[Index(imgA.Length1, row, col)]
    ensures imgC.Length0 == imgA.Length0 && imgC.Length1 == imgA.Length1
    ensures forall row: nat, col: nat :: row < imgA.Length0 && col < imgA.Length1 ==>
              imgC[row, col] == Posterize(a, b, t1, t2)[Index(imgA.Length1, row, col)]
  {
    var height, width := imgA.Length0, imgA.Length1;
    ghost var p := Posterize(a, b, t1, t2);
    imgC := new int[height, width];
    var i := 0;
    while i < height
      invariant 0 <= i <= height
      invariant forall row: nat, col: nat :: row < i && col < width ==>
                  imgC[row, col] == p[Index(width, row, col)]
      modifies imgC
    {
      var j := 0;
      while j < width
        invariant 0 <= j <= width
        invariant forall row: nat, col: nat :: (row < i && col < width) || (row == i && col < j) ==>
                    imgC[row, col] == p[Index(width, row, col)]
        modifies imgC
      {
        var valA := imgA[i, j];
        var valB := imgB[i, j];
        var diff := valA - valB;
        assert IsInt32(diff);
        var absDiff := if diff > 0 then diff else -diff;
        if absDiff < t1 {
          imgC[i, j] := 0;
        } else if absDiff < t2 {
          imgC[i, j] := 128;
        } else {
          imgC[i, j] := 255;
        }
        j := j + 1;
      }
      i := i + 1;
    }
  }

  /** The kernel's clip with the bounds the sharpen loop passes is the saturation the pipeline specifies. */
  lemma ClipIsClamp(x: int)
    ensures Clip(x, 0, 255) == Clamp(x)
  {
  }

  /**
   * The loop process_sharpen_filter. `c` is the classification image read
   * row-major; every cell of the result is the specified sharpened cell:
   * border cells copy through, interior cells get the clipped stencil.
   */
  method SharpenCells(imgC: array2<int>, ghost c: seq<int>) returns (cFilt: array2<int>)
    requires |c| == imgC.Length0 * imgC.Length1 && AllSamples(c)
    requires forall row: nat, col: nat :: row < imgC.Length0 && col < imgC.Length1 ==>
               Index(imgC.Length1, row, col) < |c| && imgC[row, col] == c[Index(imgC.Length1, row, col)]
    ensures cFilt.Length0 == imgC.Length0 && cFilt.Length1 == imgC.Length1
    ensures forall row: nat, col: nat :: row < imgC.Length0 && col < imgC.Length1 ==>
              cFilt[row, col] == SharpenAt(c, imgC.Length0, imgC.Length1, row, col)
  {
    var height, width := imgC.Length0, imgC.Length1;
    cFilt := new int[height, width];
    var i := 0;
    while i < height
      invariant 0 <= i <= height
      invariant forall row: nat, col: nat :: row < i && col < width ==>
                  cFilt[row, col] == SharpenAt(c, height, width, row, col)
      modifies cFilt
    {
      var j := 0;
      while j < width
        invariant 0 <= j <= width
        invariant forall row: nat, col: nat :: (row < i && col < width) || (row == i && col < j) ==>
                    cFilt[row, col] == SharpenAt(c, height, width, row, col)
        modifies cFilt
      {
        SharpenCell(c, height, width, i, j);
        if i == 0 || i == height - 1 || j == 0 || j == width - 1 {
          cFilt[i, j] := imgC[i, j];
        } else {
          var center := imgC[i, j];
          var up := imgC[i - 1, j];
          var down := imgC[i + 1, j];
          var left := imgC[i, j - 1];
          var right := imgC[i, j + 1];
          var val := 5 * center - up - down - left - right;
          assert IsInt32(val);
          ClipIsClamp(val);
          cFilt[i, j] := Clip(val, 0, 255);
        }
        j := j + 1;
      }
      i := i + 1;
    }
  }

  /** The write-back loop: copy the filtered image into the flat output buffer. */
  method WriteBack(cFilt: array2<int>, outR: array<int>, height: nat, width: nat)
    requires cFilt.Length0 == height && cFilt.Length1 == width
    requires outR.Length == height * width
    modifies outR
    ensures forall row: nat, col: nat :: row < height && col < width ==>
              Index(width, row, col) < outR.Length && outR[Index(width, row, col)] == cFilt[row, col]
  {
    var i := 0;
    while i < height
      invariant 0 <= i <= height
      invariant forall row: nat, col: nat :: row < i && col < width ==>
                  Index(width, row, col) < outR.Length && outR[Index(width, row, col)] == cFilt[row, col]
    {
      var j := 0;
      while j < width
        invariant 0 <= j <= width
        invariant forall row: nat, col: nat :: (row < i && col < width) || (row == i && col < j) ==>
                    Index(width, row, col) < outR.Length && outR[Index(width, row, col)] == cFilt[row, col]
      {
        IndexInImage(height, width, i, j);
        EarlierCellsBefore(width, i, j);
        outR[Index(width, i, j)] := cFilt[i, j];
        j := j + 1;
      }
      i := i + 1;
    }
  }

  /**
   * The kernel: the output buffer holds the sharpened posterization of the
   * two inputs. The inputs are read completely before the output is
   * written, so the result is the same even when out_r aliases an input.
   */
  method ImageDiffPosterize(in1: array<int>, in2: array<int>, outR: array<int>,
                            height: nat, width: nat, t1: int, t2: int)
    requires ValidConfig(height, width, t1, t2)
    requires in1.Length == in2.Length == outR.Length == height * width
    requires AllSamples(in1[..]) && AllSamples(in2[..])
    modifies outR
    ensures outR[..] == Run(old(in1[..]), old(in2[..]), height, width, t1, t2)
    ensures AllSamples(outR[..])
    ensures in1 != outR ==> in1[..] == old(in1[..])
    ensures in2 != outR ==> in2[..] == old(in2[..])
  {
    ghost var a0, b0 := in1[..], in2[..];
    ghost var p := Posterize(a0, b0, t1, t2);
    ghost var s := Sharpen(p, height, width);
    assert AllSamples(p) by {
      PosterizeLevels(a0, b0, t1, t2);
    }

    var imgA := ReadImage(in1, height, width);
    var imgB := ReadImage(in2, height, width);
    var imgC := PosterizeCells(imgA, imgB, t1, t2, a0, b0);
    var cFilt := SharpenCells(imgC, p);
    WriteBack(cFilt, outR, height, width);

    forall k | 0 <= k < outR.Length
      ensures outR[k] == s[k]
    {
      CellOfIndex(height, width, k);
      SharpenCell(p, height, width, k / width, k % width);
    }
    assert outR[..] == s;
    RunRange(a0, b0, height, width, t1, t2);
  }
}
