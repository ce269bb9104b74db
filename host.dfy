/**
 * The host program: the software reference of the pipeline on flat
 * row-major buffers, and the check that compares the device's output with
 * it index by index.
 */
module Host {
  import opened Pipeline
  import Kernel

  /** The host's saturating clip into [0, 255]. */
  function ClipSw(x: int): (r: int)
    ensures 0 <= r <= 255
    ensures x < 0 ==> r == 0
    ensures x > 255 ==> r == 255
    ensures 0 <= x <= 255 ==> r == x
  {
    if x < 0 then 0
    else if x > 255 then 255
    else x
  }

  /** The host's clip is the saturation the pipeline specifies. */
  lemma ClipSwIsClamp(x: int)
    ensures ClipSw(x) == Clamp(x)
  {
  }

  /**
   * The software reference: posterize the absolute difference of A and B
   * into a local buffer, then sharpen it into C_Ref, row by row.
   */
  method SoftwareReference(a: array<int>, b: array<int>, cRef: array<int>,
                           height: nat, width: nat, t1: int, t2: int)
    requires ValidConfig(height, width, t1, t2)
    requires a.Length == b.Length == cRef.Length == height * width
    requires AllSamples(a[..]) && AllSamples(b[..])
    modifies cRef
    ensures cRef[..] == Run(old(a[..]), old(b[..]), height, width, t1, t2)
    ensures AllSamples(cRef[..])
    ensures a != cRef ==> a[..] == old(a[..])
    ensures b != cRef ==> b[..] == old(b[..])
  {
    ghost var a0, b0 := a[..], b[..];
    ghost var p := Posterize(a0, b0, t1, t2);
    assert AllSamples(p) by {
      PosterizeLevels(a0, b0, t1, t2);
    }

    // 1. Difference and posterize into temp_C.
    var tempC := new int[height * width];
    var i := 0;
    while i < height * width
      invariant 0 <= i <= height * width
      invariant forall k :: 0 <= k < i ==> tempC[k] == p[k]
      modifies tempC
    {
      var diff := a[i] - b[i];
      assert IsInt32(diff);
      var absDiff := Abs(diff);
      if absDiff < t1 {
        tempC[i] := 0;
      } else if absDiff < t2 {
        tempC[i] := 128;
      } else {
        tempC[i] := 255;
      }
      i := i + 1;
    }
    assert tempC[..] == p;

    // 2. Sharpen filter.
    SharpenReference(tempC, cRef, height, width);
    RunRange(a0, b0, height, width, t1, t2);
  }

  /**
   * Stage 2 of the software reference, the nested i/j loop: border cells of
   * temp_C pass through to C_Ref, interior cells get the clipped stencil.
   */
  method SharpenReference(tempC: array<int>, cRef: array<int>, height: nat, width: nat)
    requires tempC != cRef
    requires tempC.Length == cRef.Length == height * width
    requires AllSamples(tempC[..])
    modifies cRef
    ensures cRef[..] == Sharpen(tempC[..], height, width)
  {
    ghost var s := Sharpen(tempC[..], height, width);
    var row := 0;
    while row < height
      invariant 0 <= row <= height
      invariant Index(width, row, 0) <= height * width
      invariant forall k :: 0 <= k < Index(width, row, 0) ==> cRef[k] == s[k]
      modifies cRef
    {
      var col := 0;
      while col < width
        invariant 0 <= col <= width
        invariant Index(width, row, col) <= height * width
        invariant forall k :: 0 <= k < Index(width, row, col) ==> cRef[k] == s[k]
        modifies cRef
      {
        SharpenCell(tempC[..], height, width, row, col);
        var idx := Index(width, row, col);
        if row == 0 || row == height - 1 || col == 0 || col == width - 1 {
          cRef[idx] := tempC[idx];
        } else {
          var center := tempC[idx];
          var up := tempC[Index(width, row - 1, col)];
          var down := tempC[Index(width, row + 1, col)];
          var left := tempC[Index(width, row, col - 1)];
          var right := tempC[Index(width, row, col + 1)];
          var val := 5 * center - up - down - left - right;
          assert IsInt32(val);
          ClipSwIsClamp(val);
          cRef[idx] := ClipSw(val);
        }
        assert cRef[idx] == s[idx];
        assert forall k :: 0 <= k < idx + 1 ==> cRef[k] == s[k];
        col := col + 1;
        assert Index(width, row, col) == idx + 1;
        IndexUpTo(height, width, row, col);
      }
      NextRow(width, row);
      row := row + 1;
    }
    assert cRef[..] == s;
  }

  /**
   * The result check: scan both outputs in index order and stop at the
   * first disagreement. `matched` is false exactly when some index differs,
   * and then `i` is the first such index.
   */
  method CompareResults(hwResults: array<int>, swResults: array<int>) returns (matched: bool, i: nat)
    requires hwResults.Length == swResults.Length
    ensures i <= hwResults.Length
    ensures matched <==> forall k :: 0 <= k < hwResults.Length ==> hwResults[k] == swResults[k]
    ensures matched ==> i == hwResults.Length
    ensures !matched ==> i < hwResults.Length && hwResults[i] != swResults[i]
    ensures forall k :: 0 <= k < i ==> hwResults[k] == swResults[k]
  {
    matched := true;
    i := 0;
    while i < hwResults.Length
      invariant i <= hwResults.Length
      invariant forall k :: 0 <= k < i ==> hwResults[k] == swResults[k]
    {
      if hwResults[i] != swResults[i] {
        matched := false;
        break;
      }
      i := i + 1;
    }
  }

  /**
   * The host's verdict: run the kernel into a zero-filled device-result
   * buffer, run the software reference, compare. For every input pair of
   * 8-bit samples the test passes.
   */
  method CheckDeviceAgainstReference(in1: array<int>, in2: array<int>,
                                     height: nat, width: nat, t1: int, t2: int)
    returns (passed: bool)
    requires ValidConfig(height, width, t1, t2)
    requires in1.Length == in2.Length == height * width
    requires AllSamples(in1[..]) && AllSamples(in2[..])
    ensures passed
  {
    var hwResults := new int[height * width](_ => 0);
    var swResults := new int[height * width];
    Kernel.ImageDiffPosterize(in1, in2, hwResults, height, width, t1, t2);
    SoftwareReference(in1, in2, swResults, height, width, t1, t2);
    var mismatchAt;
    passed, mismatchAt := CompareResults(hwResults, swResults);
  }
}
