# Image compression explorer — a Dafny model of the compression pipeline

The explorer is a single-page web tool. The user picks an image, a compression
type (JPEG, WebP, colour quantization or a "DCT"-style block averaging) and a
quality from the slider (1 to 100). The page resizes the image onto a canvas
so that neither side exceeds 1920 pixels. It then rewrites the canvas pixels
for the two simulated strategies and asks the browser to encode the canvas. Finally it shows
the size reduction and the compression ratio. All of this lives in
`src/app/page.tsx`.

This project models that pipeline in Dafny and proves properties of it:

| file | module | what it models |
|---|---|---|
| `results.dfy` | `Results` | `Option` and `Result` |
| `rounding.dfy` | `Rounding` | `Math.round` on exact non-negative rationals (`RoundHalfUp`) and the integer facts the proofs need |
| `raster.dfy` | `Slider`, `Raster` | the slider's `Quality` (1..100); RGBA byte buffers, `4 * (y * width + x) + c` indexing |
| `resize.dfy` | `Resize` | `resizeImageIfNeeded`: the 1920 cap and aspect-preserving rounding |
| `quantize.dfy` | `Quantize` | colour levels, the quantization step, the per-pixel loop, the palette (`colorMap`) and a bound on its size |
| `blocks.dfy` | `BlockAveraging` | block size, the four nested loops of the "DCT" strategy, and the per-pixel meaning of their result |
| `encoding.dfy` | `Encoding` | the arguments given to `canvas.toBlob` for each strategy |
| `pipeline.dfy` | `Pipeline` | one run of `compressImage`: resize, transform, choose encoder arguments |
| `stats.dfy` | `Stats` | the "Reduction" and "Ratio" lines of the statistics panel, with their text |

Modelling choices:

- Byte sizes and pixel values are natural numbers. Quotients are taken exactly.
- `Math.round` and `toFixed(2)` both round a tie upwards on non-negative values. `RoundHalfUp(n, d)` captures that: its contract pins the result to the unique `r` with `r <= n/d + 1/2 < r + 1`.
- The encoder quality `quality / 100` is written as the integer percentage `Some(quality)`. The fixed `0.9` is `Some(90)`, and "no quality argument" is `None`.
- The canvas is updated in place by the source. The model threads an immutable `seq<Byte>` through the same loops instead.
- The block-averaging loops read and write one buffer. `BlockAveraging.AverageBlocks` proves that the result still equals the per-pixel specification `BlockAverage`: every pixel becomes the floor of the mean of its block in the ORIGINAL image. This holds because each block is summed before it is painted, and no block reads a pixel another block has already painted.
- A division by zero in the statistics yields JavaScript's `Infinity`, and 0 / 0 yields `NaN`. `Stats.Shown` carries both, so the panel is modelled for every pair of sizes, an empty output included.

Points where the code's own comments or structure could suggest otherwise; the model follows the code:

- The scaled side has no lower bound, so a very thin image can get a side of 0; see Findings.
- The comment at `src/app/page.tsx:108` says "1-25 colors". `Math.max(2, …)` makes the range 2..25 (`Quantize.ColorLevels`).
- The comment at `src/app/page.tsx:115` says each channel is rounded to the nearest palette colour. The code floors it (`Quantize.Snap`).
- The page stores the shrink-case ratio text when the blob arrives (lines 142, 191, 202), while the reduction is recomputed at render time (lines 334-336). The stored ratio divides by the `originalSize` its callback captured, which can be stale: on the first upload it is still 0 (lines 58-61), so a shrunk file shows `0.00:1`, and on a later upload it is the previous file's size. The two lines can therefore disagree on the page. The model computes both lines from one pair of sizes, that is, as the page shows them once the captured size is current (see Left out).

## Model

| member | source | states |
|---|---|---|
| Rounding.RoundHalfUp | src/app/page.tsx:73 | `Math.round(n/d)` for non-negative rationals: the unique r with r <= n/d + 1/2 < r + 1 |
| Resize.TargetSize | src/app/page.tsx:66-79 | the result always fits in 1920 x 1920; an image that fits is unchanged; otherwise the longer side (width only when strictly wider) becomes 1920 and the other side is the nearest integer to side * 1920 / longer side |
| Resize.ScaledSideFits | src/app/page.tsx:73 | the scaled shorter side never exceeds 1920 |
| Resize.TargetSizeIdempotent | src/app/page.tsx:71-79 | resizing a resized size changes nothing |
| Resize.LongerSideBecomesMax | src/app/page.tsx:72-78 | an oversized image's longer side becomes 1920; a square oversized image becomes 1920 x 1920 |
| Resize.ZeroSideIff | src/app/page.tsx:72-77 | for sides >= 1, the result has a zero side exactly when the shorter side is under 1/3840 of the longer one |
| Resize.WideImageExample | src/app/page.tsx:72-74 | 3000 x 1000 becomes 1920 x 640, and the checked rule accepts it |
| Resize.ThinImageCollapses | src/app/page.tsx:72-74 | 5000 x 1 becomes 1920 x 0 as the code is written |
| Resize.CheckedTargetSize | src/app/page.tsx:71-82 | the size the canvas can actually use: fails with InvalidDimension exactly when the computed size has a zero side, otherwise it is the computed size with both sides >= 1 |
| Resize.CheckedTargetSizeAccepts | src/app/page.tsx:71-79 | the checked rule accepts exactly the images whose shorter side is at least 1/3840 of the longer one, and rejects 5000 x 1 |
| Raster.IdxCoordinates | src/app/page.tsx:159 | the index `4 * (y * width + x) + c` decodes back to column x, row y and channel c |
| Raster.CoordinatesIdx | src/app/page.tsx:174 | every index of a width x height buffer is the index of its own column, row and channel, all in range |
| Quantize.ColorLevels | src/app/page.tsx:108 | 2 to 25 levels; the floor of 2 applies exactly at qualities up to 9, and above it the value is the nearest integer to quality / 4 |
| Quantize.Factor | src/app/page.tsx:109 | the step is 10 to 128 and is the floor of 256 / levels (step * levels <= 256 < (step + 1) * levels) |
| Quantize.ColorLevelValues | src/app/page.tsx:108-109 | qualities 1, 2, 10 and 100 give 2, 2, 3 and 25 levels and steps 128, 85 and 10 |
| Quantize.Snap | src/app/page.tsx:116-118 | a channel becomes the largest multiple of the step not above it |
| Quantize.SnapUnique | src/app/page.tsx:116 | that multiple is the only one in (v - step, v] |
| Quantize.SnapIdempotent | src/app/page.tsx:116-118 | snapping a snapped value changes nothing |
| Quantize.QuantizeIdempotent | src/app/page.tsx:114-128 | quantizing a quantized buffer with the same step changes nothing |
| Quantize.Palette | src/app/page.tsx:112-122 | the colour map holds at most one colour per pixel, and the first pixel's colour whenever there is a pixel |
| Quantize.FirstColoursBound | src/app/page.tsx:114-122 | the colours of the first n pixels number at most n |
| Quantize.PaletteExtend | src/app/page.tsx:121-122 | adding one pixel adds exactly its colour to the set of colours |
| Quantize.QuantizePass | src/app/page.tsx:114-128 | the loop's buffer is the channel-wise snap of the input with alpha kept; its colour set is exactly the distinct colours of the output; each colour channel moved down by less than one step onto a multiple of it |
| Quantize.QuantizePixel | src/app/page.tsx:116-127 | one loop iteration extends the processed prefix and the colour set by one pixel |
| Quantize.QuantizeStep | src/app/page.tsx:116-127 | the pixel the loop reaches still holds its input value, and snapping it in place yields the next prefix |
| Quantize.QuantizeChannelsBounds | src/app/page.tsx:116-127 | the pass keeps alpha and moves each colour channel down by less than one step onto the grid |
| Quantize.LowQualityStep | src/app/page.tsx:108-109 | qualities up to 21 give at most 5 levels and a step of at least 51 |
| Quantize.SnapOnGrid | src/app/page.tsx:116-118 | with a step of at least 51, every snapped value is one of 0, step, ..., 5 * step |
| Quantize.CodeInjective | src/app/page.tsx:121 | distinct grid colours have distinct base-6 codes below 216 |
| Quantize.LowQualityPaletteSmall | src/app/page.tsx:108-134 | at qualities up to 21 the quantized image has at most 216 colours, so it is always encoded as PNG |
| BlockAveraging.BlockSize | src/app/page.tsx:148 | 2 to 11; the floor of 2 applies exactly at qualities 86 and above, and above it the value is the nearest integer to (110 - quality) / 10 |
| BlockAveraging.BlockSizeHighQuality | src/app/page.tsx:148 | qualities 95 and 100 give 2 x 2 blocks |
| BlockAveraging.BlockSizeLowQuality | src/app/page.tsx:148 | qualities 1 and 5 give 11 x 11 blocks |
| BlockAveraging.BlockSizeAtTen | src/app/page.tsx:148 | quality 10 gives 10 x 10 blocks |
| BlockAveraging.BlockSizeAntitone | src/app/page.tsx:147-148 | higher quality never gives larger blocks |
| BlockAveraging.RowSum | src/app/page.tsx:158-164 | a row's channel total is at most 255 per pixel |
| BlockAveraging.RectSum | src/app/page.tsx:157-165 | a rectangle's channel total is at most 255 per pixel |
| BlockAveraging.BlockArea | src/app/page.tsx:157-163 | every visited block has at least one pixel, so the division at 167-169 is never by zero |
| BlockAveraging.BlockMean | src/app/page.tsx:167-169 | the block colour is the floor of total / count: mean * count <= total < (mean + 1) * count |
| BlockAveraging.Origin | src/app/page.tsx:152-153 | the corner of a coordinate's block is a multiple of the block size, at or less than one block below the coordinate |
| BlockAveraging.SumRowOfBlock | src/app/page.tsx:158-164 | the inner accumulation loop sums one clipped row of the block for R, G and B and counts its pixels |
| BlockAveraging.SumBlock | src/app/page.tsx:157-165 | the accumulation loops give the block's R, G and B totals and its pixel count, which is at least 1 |
| BlockAveraging.PaintRow | src/app/page.tsx:173-178 | the inner write loop sets R, G, B of n pixels of one row and nothing else |
| BlockAveraging.PaintBlock | src/app/page.tsx:172-179 | the write loops set R, G, B of exactly the clipped block's pixels; alpha and all other pixels are untouched |
| BlockAveraging.UntouchedBlockMean | src/app/page.tsx:156-169 | when a block is reached, its pixels still hold their original values, so its mean is the mean in the original image |
| BlockAveraging.PaintedProgress | src/app/page.tsx:172-180 | painting the current block with its mean extends the finished region by that block |
| BlockAveraging.NothingDone | src/app/page.tsx:152-153 | before the first block, every sample holds its original value |
| BlockAveraging.RowOfBlocksDone | src/app/page.tsx:153-181 | when x passes the right edge, the whole block row is finished and the next row starts |
| BlockAveraging.AllBlocksDone | src/app/page.tsx:152-181 | when y passes the bottom edge, the buffer is the block-averaged image |
| BlockAveraging.AverageBlock | src/app/page.tsx:153-180 | one iteration of the block loop advances the row-major progress by one block |
| BlockAveraging.AverageRowOfBlocks | src/app/page.tsx:153-180 | the loop over one block row finishes that whole row of blocks |
| BlockAveraging.AverageBlocks | src/app/page.tsx:152-181 | the in-place loops produce exactly the per-pixel specification: alpha kept, each colour channel the floor mean of its block in the original image |
| BlockAveraging.PixelInExactlyOneBlock | src/app/page.tsx:152-158 | pixel (x, y) lies in block (kx, ky) if and only if kx = x / size and ky = y / size |
| BlockAveraging.BlockRect | src/app/page.tsx:157-158 | the clipped rectangle the loops visit for a pixel's block holds exactly the pixels of that block |
| BlockAveraging.RowSumBetween | src/app/page.tsx:158-164 | bounds on a row's samples bound its total |
| BlockAveraging.RectSumBetween | src/app/page.tsx:157-165 | bounds on a block's samples bound its total |
| BlockAveraging.BlockAverageWithin | src/app/page.tsx:167-169 | each averaged channel lies between the smallest and largest value of that channel in its block |
| BlockAveraging.BlockAverageUniform | src/app/page.tsx:172-178 | after the pass all pixels of a block have the same colour |
| BlockAveraging.BlockAverageIdempotent | src/app/page.tsx:152-181 | a second pass with the same block size changes nothing |
| BlockAveraging.SpanTotalClips | src/app/page.tsx:152-158 | the first k blocks along a side cover min(k * size, side) pixels |
| BlockAveraging.SpansCoverSide | src/app/page.tsx:152-158 | every block the loops visit along a side is non-empty, and the widths add up to the side |
| BlockAveraging.BlocksCoverImage | src/app/page.tsx:152-158 | the areas of all visited blocks add up to width * height: no pixel is skipped or visited twice |
| BlockAveraging.SpansMakeBlockArea | src/app/page.tsx:157-163 | a visited block's pixel count is the product of its clipped width and height |
| BlockAveraging.FiveByFiveInThrees | src/app/page.tsx:152-163 | a 5 x 5 image in 3 x 3 blocks has blocks of 9, 6, 6 and 4 pixels, 25 in all |
| Encoding.QuantizedFormat | src/app/page.tsx:134-135 | fewer than 256 colours gives PNG with no quality; otherwise JPEG at 0.9 |
| Encoding.ArgsFor | src/app/page.tsx:186-204 | WebP only for the WebP strategy; PNG only for quantization with fewer than 256 colours; every non-quantization strategy passes the slider's quality |
| Encoding.EncoderQualityInRange | src/app/page.tsx:304-309 | any quality handed to the encoder is in (0, 1]; none is handed exactly when the format is PNG |
| Encoding.QuantizationIgnoresSlider | src/app/page.tsx:134-135 | the quantization strategy's encoder arguments do not depend on the slider |
| Pipeline.Compress | src/app/page.tsx:90-206 | a run fails exactly when the computed size has a zero side; otherwise the image has the computed size and each strategy's pixels and encoder arguments; low-quality quantization always yields PNG |
| Stats.RoundedQuotient | src/app/page.tsx:335-336 | a rounded quotient is finite exactly when the divisor is non-zero, NaN exactly for 0 / 0, and otherwise the nearest unit |
| Stats.ReductionOf | src/app/page.tsx:333-336 | shown as a saving exactly when the file shrank, then at most 100%; finite exactly when the original is non-empty; the nearest whole percent of the change relative to the original |
| Stats.RatioOf | src/app/page.tsx:342-344 | `x:1` exactly when the file shrank; x is finite exactly when the smaller size is non-zero; when the file shrank x is Infinity exactly for a 0-byte output, otherwise x is NaN exactly for a 0-byte output (0 / 0); any finite x is at least 1.00 and is the larger size over the smaller, to the nearest hundredth |
| Stats.ReductionAntitone | src/app/page.tsx:334-335 | a smaller output never shows a smaller saving |
| Stats.FullReductionIff | src/app/page.tsx:335 | a saving shows as 100% exactly when the output is at most 0.5% of the original |
| Stats.DecimalText | src/app/page.tsx:335 | a number's text is a non-empty run of digits without a leading zero |
| Stats.ParseDecimalText | src/app/page.tsx:335 | reading a number's text back gives the number |
| Stats.WholeText | src/app/page.tsx:335-336 | a rounded number's text is non-empty and has no sign, colon or percent sign; a finite value is plain digits with no leading zero |
| Stats.FixedText | src/app/page.tsx:344 | `toFixed(2)` text has no sign, colon or percent sign; a finite value is written in canonical form: digits, a point, exactly two digits, and no leading zero in the whole part |
| Stats.ParseWholeText | src/app/page.tsx:335-336 | a rounded number is recovered from its text |
| Stats.ParseFixedText | src/app/page.tsx:344 | a number in hundredths is recovered from its `toFixed(2)` text |
| Stats.ReductionText | src/app/page.tsx:334-336 | the reduction text starts with a minus sign exactly when nothing was saved and ends in its only percent sign; a finite percentage between them is plain digits with no leading zero |
| Stats.RatioText | src/app/page.tsx:342-344 | the ratio text starts with `1:` exactly when the file did not shrink and ends with `:1` exactly when it did, with no other colon; a finite ratio is written in canonical `toFixed(2)` form (digits, a point, two digits, no leading zero) |
| Stats.ReductionTextRoundTrip | src/app/page.tsx:333-336 | the reduction line's text determines whether the file shrank and by what percentage |
| Stats.RatioTextRoundTrip | src/app/page.tsx:341-344 | the ratio line's text determines the direction and the ratio |
| Stats.HalvedExample | src/app/page.tsx:333-344 | 1000 bytes to 500 shows "50%" and "2.00:1" |
| Stats.GrownExample | src/app/page.tsx:333-344 | 1000 bytes to 1500 shows "-50%" and "1:1.50" |
| Stats.UnchangedExample | src/app/page.tsx:333-344 | an unchanged size shows "-0%" and "1:1.00" |
| Stats.EmptyOutputExample | src/app/page.tsx:333-344 | an empty output shows "100%" and "Infinity:1" |

## Left out

- Decoding the file, `drawImage`'s resampling, `getImageData`/`putImageData` and the encoder behind `canvas.toBlob` are browser services. The canvas pixels at the computed size are a parameter of `Pipeline.Compress`, and only the encoder's arguments are modelled, not the bytes it produces.
- The byte sizes behind the statistics come from the file and the encoded blob. They are parameters of `Stats.ReductionOf` and `Stats.RatioOf`.
- React state, effects, the 500 ms `setTimeout`, object URLs and their revocation, `console.log`, zoom, the download link and all rendering other than the two statistics lines are presentation, not computation.
- Concurrency between overlapping runs, and the stale `originalSize` captured by the blob callback, are not modelled: both statistics are computed from one pair of sizes.
- `formatSize` (the "Original" and "Compressed" lines) uses floating-point logarithms. It is not part of this model.
- The colour class of the reduction line (green when the file shrank) is modelled by `Stats.Reduction.saved` alone.
- Resize.TargetSize: rounds the exact quotient `side * 1920 / longer side`. The source rounds the floating-point product `(side / longer) * 1920`, which can land on the other side of a tie.
- Stats.ReductionOf: rounds the exact percentage. The source computes it in floating point, with the same possible tie difference.
- Stats.RatioOf: `toFixed(2)` switches to exponential notation at 10^21, far beyond any byte count, so this is not modelled. The model also rounds the exact ratio, while the source rounds the nearest double, which can fall on the other side of a tie: 201 bytes shrunk to 200 gives the double 1.00499…, shown as `1.00:1`, where the model gives `1.01:1`.
- Pipeline.Compress: uses `Resize.CheckedTargetSize` and returns a failure for a zero-sided canvas. As written, the page goes on with such a canvas: `getImageData` throws, or `toBlob` hands the callback no blob.
- A 3000 x 1000 image at quality 10 under the "DCT" strategy is covered piecewise rather than by one lemma. `Resize.WideImageExample` covers the size, `BlockAveraging.BlockSizeAtTen` the block size, `BlockAveraging.BlockAverageUniform` the flat blocks, and `Encoding.ArgsFor` the JPEG at quality 10.

## Findings

| source | as written | input that shows it | evidently intended | confidence | as-written member | corrected member |
|---|---|---|---|---|---|---|
| src/app/page.tsx:71-79 | the shorter side of an oversized image is `Math.round(short / long * 1920)` with no lower bound | a 5000 x 1 image gives a 1920 x 0 canvas; the quantization and "DCT" paths then call `getImageData` on an empty canvas, and the other paths get no blob | a usable canvas: a side of at least 1, or a reported invalid-dimension failure | medium, not executed | Resize.ThinImageCollapses | Resize.CheckedTargetSize |
