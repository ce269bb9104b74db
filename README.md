# Difference-posterize-sharpen image pipeline, in Dafny

This project models the integer image pipeline of a host program and its
accelerator kernel. Given two grayscale images A and B of HEIGHT × WIDTH
samples, stored flat in row-major order (`idx = row*WIDTH + col`), the
pipeline does two things:

1. **Difference-posterize.** Each cell gets `|A[i] - B[i]|` mapped to one of
   three levels: 0 below `T1`, 128 from `T1` up to but not including `T2`,
   and 255 from `T2` on.
2. **Sharpen.** Border cells (first or last row, first or last column) pass
   through unchanged. Each interior cell becomes
   `clip(5*centre - up - down - left - right)` into [0, 255].

The repository computes this twice. `software_reference` in `host.cpp`
works on flat vectors. The kernel `IMAGE_DIFF_POSTERIZE` in `vadd.cpp`
copies the inputs into 2-D local arrays, runs both stages there and copies
the result back. The host then compares the two outputs index by index and
prints TEST PASSED when they agree.

The model has three modules:

- `Pipeline` (pipeline.dfy) is the specification: `Posterize`, `Sharpen`
  and `Run = Sharpen ∘ Posterize` on flat sequences, plus lemmas about what
  they promise. It also holds the row-major geometry (`Index`) and the
  saturation `Clamp`.
- `Host` (host.dfy) models `clip_sw`, `software_reference` and the
  comparison loop of `main`. The software reference works on arrays. It
  fills a local `tempC` buffer in one loop, then writes `cRef` in place
  row by row. The nested sharpen loop is its own method,
  `SharpenReference`, which the reference calls once `tempC` is complete.
- `Kernel` (kernel.dfy) models `clip` and the five loop nests of
  `IMAGE_DIFF_POSTERIZE`. Each nest is a method over `array2`: `ReadImage`
  (used for both `read_A` and `read_B`), `PosterizeCells`, `SharpenCells`
  and `WriteBack`. `ImageDiffPosterize` calls them in the source's order.
  So `SharpenCells` can only start once every cell of the classification
  image is written. Its precondition requires every cell to match the
  complete classification.

Both `Host.SoftwareReference` and `Kernel.ImageDiffPosterize` are proved to
leave `Run(A, B)` in their output buffer. `Host.CheckDeviceAgainstReference`
puts the host's check together: it runs the kernel and the reference on the
same inputs, then compares. It is proved to always report a pass.

Dimensions and thresholds are parameters. `ValidConfig` requires at least
one row and one column and `0 <= T1 < T2`. The repository's own values
(128, 128, 32, 96) are the constants `Pipeline.Height`, `Width`, `T1` and
`T2`. The host fills its inputs with `rand() % 256`. The model requires
every input sample to be in [0, 255], and within that range it asserts that
every C `int` intermediate fits in 32 bits: the difference, and the
stencil's `5*centre - …`. So Dafny's unbounded integers agree with the C
arithmetic.

Nothing in the code checks buffer lengths: every buffer is sized
`DATA_SIZE`. The model follows the code and requires every buffer to hold
HEIGHT·WIDTH samples, rather than reporting an invalid-input error.

## Model

| member | source | states |
|---|---|---|
| Host.ClipSw | host.cpp:16-20 | the result is 0 below 0, 255 above 255, and the input itself in between, so it always lies in [0, 255] |
| Host.ClipSwIsClamp | host.cpp:16-20 | `clip_sw` equals the pipeline's saturation `Clamp` on every integer |
| Kernel.Clip | vadd.cpp:12-25 | the result is `min_val` below `min_val`, otherwise `max_val` above `max_val`, otherwise the input; when `min_val <= max_val` it lies in [min_val, max_val] |
| Kernel.ClipIsClamp | vadd.cpp:123 | `clip(x, 0, 255)` as the sharpen loop calls it equals `Clamp`, so both copies saturate identically |
| Pipeline.Clamp | host.cpp:56 | an independent min/max definition of the saturation: always in [0, 255], 0 below, 255 above, identity inside |
| Pipeline.Abs | host.cpp:32 | the absolute value is non-negative and equals `x` or `-x` |
| Pipeline.LevelBands | host.cpp:34-36 | the level is 0, 128 or 255, and is 0 iff `abs_diff < T1`, 128 iff `T1 <= abs_diff < T2`, and 255 iff `abs_diff >= T2`; so `abs_diff == T1` gives 128 and `abs_diff == T2` gives 255 |
| Pipeline.Posterize | host.cpp:30-37 | one classified cell per input cell, each cell one of the three levels |
| Pipeline.PosterizeLevels | host.cpp:30-37 | each classified cell is a level and falls in the band of its own `abs(A[i]-B[i])`, in both directions of each iff |
| Pipeline.PosterizeSymmetric | host.cpp:31-32 | swapping A and B gives the same classification image |
| Pipeline.IndexInImage | host.cpp:42 | the row-major index of a cell inside the image is below HEIGHT·WIDTH |
| Pipeline.IndexRowCol | host.cpp:42 | the row-major index gives back its row by division and its column by remainder, so cells and indices are in bijection |
| Pipeline.Sharpen | host.cpp:40-59 | the sharpened image has one cell per classified cell |
| Pipeline.SharpenCell | host.cpp:44-57 | at a border cell the output equals the classification cell; at an interior cell all four neighbour indices are in bounds and the output is `Clamp(5*centre - up - down - left - right)` |
| Pipeline.SharpenRange | host.cpp:44-57 | sharpening an image of samples in [0, 255] gives samples in [0, 255] |
| Pipeline.SharpenUniform | host.cpp:54-56 | a uniform field of any sample value is a fixed point of sharpening (5v - 4v = v) |
| Pipeline.Run | host.cpp:22-61 | the pipeline's output has HEIGHT·WIDTH cells |
| Pipeline.RunRange | host.cpp:22-61 | every cell the pipeline outputs lies in [0, 255], for any inputs and thresholds `T1 < T2` |
| Host.SoftwareReference | host.cpp:22-61 | `C_Ref` becomes `Run(A, B)`: every cell is written and lies in [0, 255]; A and B are unchanged unless they are `C_Ref` itself; the body asserts that no intermediate overflows 32 bits on 8-bit inputs |
| Host.SharpenReference | host.cpp:39-59 | the nested i/j loop writes every cell of `C_Ref` as the specified sharpening of `temp_C`, without 32-bit overflow |
| Host.CompareResults | host.cpp:183-192 | `match` is false iff some index differs; then the returned index is the first that differs and all earlier indices agree; otherwise the whole range was scanned |
| Host.CheckDeviceAgainstReference | host.cpp:177-199 | kernel output and software reference agree on every index for all 8-bit inputs, so the host's verdict is always PASSED |
| Kernel.ReadImage | vadd.cpp:68-83 | the read loops copy row-major: `img[i][j] == in[i*WIDTH+j]` for every cell; the source buffer is not written |
| Kernel.PosterizeCells | vadd.cpp:86-104 | every `img_C[i][j]` is the specified posterization of `in1[i*WIDTH+j]` and `in2[i*WIDTH+j]`; `(diff > 0) ? diff : -diff` gives the same level as `|diff|`, without 32-bit overflow |
| Kernel.SharpenCells | vadd.cpp:107-126 | from a fully written `img_C`, every `C_filt[i][j]` is the specified sharpened cell: the border copied, the interior the clipped stencil |
| Kernel.WriteBack | vadd.cpp:130-136 | `out_r[i*WIDTH+j] == C_filt[i][j]` for every cell |
| Kernel.ImageDiffPosterize | vadd.cpp:28-137 | `out_r` becomes `Run(in1, in2)`, so it lies in [0, 255]; the inputs are read completely before `out_r` is written, so the result holds even if `out_r` aliases an input; the inputs are unchanged otherwise |

## Left out

- Everything in `main` outside the comparison loop is not modelled: OpenCL device discovery, binary loading, context, queue and buffer creation, memory migration, kernel launch and the `EventTimer` timing. `CheckDeviceAgainstReference` calls the kernel model directly in place of the device round trip.
- The `rand() % 256` test data is not generated. It appears only as the precondition that every input sample is in [0, 255].
- Console output and exit codes are not modelled. `CompareResults` returns the `match` flag and the index where the scan stopped; the expected and actual values that `main` prints are `swResults[i]` and `hwResults[i]` at that index.
- The `#pragma HLS` directives (interface, array partitioning, pipelining, unrolling) are not modelled. The loops run sequentially, in source order.
- Parallel or concurrent execution of the per-pixel loops is not modelled.
- 32-bit wrap-around of C `int` is not modelled. Inside the modelled range it cannot happen, and each method asserts this for its intermediates. Inputs outside [0, 255] are excluded by precondition, and `std::abs(INT_MIN)` along with them.
