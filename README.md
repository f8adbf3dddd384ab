# ImageData, modelled in Dafny

This project models the `ImageData` class of ImageProcessor and the free helpers beside it in `ImageData.h`. An image is a `width x height` grid of RGBA byte pixels. Its member operations rewrite that grid in place:

- tone: invert, brightness;
- geometry: flips, quarter turns, resize, crop;
- fourteen two-image compositing operators (`blend` is the one left out);
- convolution with a 3x3 catalog kernel or with a run-time kernel;
- the kernel algebra: scale, normalize, custom kernels, and kernel-by-kernel convolution;
- the byte layouts exchanged with the image codec.

## Layout

| File | Module | What it holds |
|---|---|---|
| `pixels.dfy` | `Errors` | The exceptions as values: `Outcome` for operations that return nothing, `Result` for operations that return a value. Also `Option`. |
| `pixels.dfy` | `Pixels` | `Channel` (an integer in [0, 255]), `Pixel`, and `Grid` (`seq<seq<Pixel>>`). `Clamp` and `ToChannel` are the clamp-and-cast to `unsigned char`; `Wrap` is the narrowing cast of an `int`. |
| `arith.dfy` | `Arith` | Small facts of integer division and real arithmetic, used by the proofs. |
| `tone.dfy` | `Tone` | Invert and brightness on values. |
| `geometry.dfy` | `Geometry` | Flips, rotations, crop and nearest-neighbour resize on values. |
| `compositing.dfy` | `Compositing` | The per-channel rule of every compositing operator, and the grid they produce. |
| `sums.dfy` | `Sums` | Row-major double sums in the order the accumulation loops add their terms. |
| `kernels.dfy` | `Kernels` | The kernel catalog, scale, normalize, custom kernels and kernel convolution. Functions hold the specifications; methods hold the loops. |
| `convolution.dfy` | `Convolution` | What `applyKernel` computes for each pixel, with zero padding. |
| `packing.dfy` | `Packing` | `channelCount`, `packPixelData`, and the index layout of the `loadImage` unpacking loop. |
| `image.dfy` | `Images` | `class ImageData`, holding the fields `width`, `height`, `channels` and `pixels`. Every operation that changes the image is a method with `modifies this`. Each is proved to leave `pixels` equal to the value-level function of the old grid. |

The C++ exceptions become `Fail`/`Err` results, carrying the same exception kind and message. `ensures` clauses state that a failing call leaves the image unchanged.

Float arithmetic is modelled with `real`. This covers the kernel weights and sums, the `scale` of `add`, and the ratios of `resize`. The catalog kernels are integer-valued, so float sums of their small products are exact, and the model agrees with the code there.

## Model

| member | source | states |
|---|---|---|
| Images.ImageData.constructor | ImageData.h:35-41 | A new image has width, height and channel count 0 and no pixels. |
| Images.ImageData.GetPixel | ImageData.h:59-61 | Returns the pixel at row `y`, column `x`. |
| Images.ImageData.SetPixel | ImageData.h:63 | Replaces the pixel at (y, x). Every other pixel and the sides are unchanged. |
| Images.ImageData.Resized | ImageData.h:202 | `pixels.resize(h, row)` leaves `h` rows. The first `min(h, old row count)` rows are the old rows unchanged, every pixel of an appended row is zero, and when the old rows all have width `w` the result is an `h x w` grid. |
| Images.ImageData.LoadImage | ImageData.h:195-212 | Decoder failure throws `runtime_error("Failed to load image")` and changes nothing. On success the sides and channel count come from the file, and pixel (y, x) is the four bytes at `(y * width + x) * 4`. |
| Images.ImageData.UnpackRows | ImageData.h:203-210 | The pixel loops of `loadImage` leave `Unpacked(data, h, w)`, whatever the resized rows held before: an `h x w` grid whose pixel (y, x) is the four bytes at `(y * w + x) * 4`. |
| Packing.UnpackPacked | ImageData.h:203-210 | Unpacking the PNG (RGBA) packing of any grid gives the grid back. This round trip is between the `loadImage` index layout and `packPixelData`. |
| Packing.ChannelCount | ImageData.h:214-227 | PNG maps to RGBA (4); JPG and BMP map to RGB (3). |
| Packing.PackPixelData | ImageData.h:229-254 | The pushed bytes equal `Packed`: every row in order, each pixel's bytes in the format's layout. |
| Packing.PackedLength | ImageData.h:229-254 | The packed buffer holds `width * height * 4` bytes for PNG and `width * height * 3` for JPG and BMP. |
| Packing.PackedLayout | ImageData.h:229-254 | Pixel (y, x) sits at byte `(y * width + x) * n`. Its bytes are r, g, b, a for PNG and r, g, b for JPG and BMP, where alpha is dropped. |
| Images.ImageData.Invert | ImageData.h:325-337 | The grid becomes `InvertGrid` of the old grid. The sides are unchanged. |
| Tone.InvertPixel | ImageData.h:331-334 | Each of r, g, b becomes its complement to 255. Alpha is kept. |
| Tone.InvertInvolution | ImageData.h:325-337 | Inverting twice gives back the original image. |
| Images.ImageData.Brightness | ImageData.h:342-354 | The grid becomes `BrightnessGrid` of the old grid: each of r, g, b is shifted by `offset` and clamped to [0, 255]. |
| Tone.BrightnessPixel | ImageData.h:348-351 | Alpha is kept. |
| Tone.BrightnessZero | ImageData.h:342-354 | A zero offset changes nothing. |
| Tone.BrightnessCompose | ImageData.h:342-354 | Two offsets of the same sign compose to their sum, because clamping in between loses nothing. |
| Images.ImageData.FlipH | ImageData.h:401-410 | The in-place swaps leave `FlipHGrid` of the old grid: pixel (y, x) comes from (y, w - 1 - x). |
| Geometry.FlipHInvolution | ImageData.h:401-410 | Flipping left-right twice gives the image back. |
| Images.ImageData.FlipV | ImageData.h:412-421 | The in-place swaps leave `FlipVGrid` of the old grid: pixel (y, x) comes from (h - 1 - y, x). |
| Geometry.FlipVInvolution | ImageData.h:412-421 | Flipping top-bottom twice gives the image back. |
| Images.ImageData.RotateR | ImageData.h:423-435 | Width and height are swapped, and the grid becomes `RotateRGrid` of the old one. |
| Images.ImageData.RotateL | ImageData.h:437-449 | Width and height are swapped, and the grid becomes `RotateLGrid` of the old one. |
| Geometry.RotationsInverse | ImageData.h:423-449 | rotateR sends (y, x) to (x, h - 1 - y) in a grid with the sides swapped. rotateL undoes rotateR, and rotateR undoes rotateL. |
| Geometry.HalfTurn | ImageData.h:423-435 | Two right turns equal flipH followed by flipV. |
| Images.ImageData.Resize | ImageData.h:451-472 | Fails with `invalid_argument("Invalid input")`, leaving the image unchanged, exactly when `w` or `h` lies outside [1, 4096]. Otherwise the sides become (w, h) and the grid becomes `ResizeGrid` of the old one. |
| Geometry.RatioFloor | ImageData.h:458-465 | Truncating `x * (width / w)` gives `x * width / w`, which is a valid source index. |
| Geometry.ResizeSampleAt | ImageData.h:464-466 | The pixel the loop copies, at the truncated ratio indices, is the entry of `ResizeGrid`. |
| Geometry.ResizeSameSize | ImageData.h:451-472 | Resizing to the current size gives the image back. |
| Geometry.ResizeDouble | ImageData.h:451-472 | Resizing to twice the size copies pixel (y / 2, x / 2) to (y, x). |
| Images.ImageData.Crop | ImageData.h:474-499 | The outcome, the new sides and the new grid are those of `CropGrid`. A failing crop changes nothing. |
| Geometry.CropShape | ImageData.h:474-499 | Crop fails exactly when x lies outside [0, width] or y outside [0, height]. Otherwise `w` and `h` are clamped to the remaining extent, and pixel (i, j) is the old pixel (y + i, x + j). |
| Geometry.CropWhole | ImageData.h:474-499 | Cropping the whole image from the origin gives it back. |
| Images.ImageData.Combine | ImageData.h:521-785 | The loop shared by the thirteen modelled operators. It fails with `invalid_argument("Images must be the same dimensions to " + verb)` exactly when the sides differ, and then writes no pixel. Otherwise the grid becomes `CompositeGrid` of both old grids; this holds even when `other` is the same object. |
| Images.ImageData.CompositeOver | ImageData.h:521-538 | Shape check with the message "... to composite", then the composite-over grid. |
| Images.ImageData.ApplyAlphaMask | ImageData.h:540-555 | Shape check with "... to apply alpha mask", then alpha becomes the mask's red channel. |
| Images.ImageData.Multiply | ImageData.h:557-574 | Shape check with "... to multiply", then the multiply grid. |
| Images.ImageData.Screen | ImageData.h:576-593 | Shape check with "... to screen", then the screen grid. |
| Images.ImageData.Overlay | ImageData.h:595-633 | Shape check with "... to overlay", then the overlay grid. |
| Images.ImageData.Darken | ImageData.h:635-652 | Shape check with "... to darken", then the per-channel minimum. |
| Images.ImageData.Lighten | ImageData.h:654-671 | Shape check with "... to lighten", then the per-channel maximum. |
| Images.ImageData.Add | ImageData.h:673-690 | Shape check with "... to add", then `a + scale * b` clamped and truncated, with `scale` defaulting to 1. |
| Images.ImageData.Subtract | ImageData.h:692-709 | Shape check with "... to subtract", then `a - b` clamped. |
| Images.ImageData.Difference | ImageData.h:711-728 | Shape check with "... to find difference", then `abs(a - b)`. |
| Images.ImageData.Average | ImageData.h:730-747 | Shape check with "... to average", then `(a + b) / 2`. |
| Images.ImageData.Max | ImageData.h:749-766 | Shape check with "... to find max", then the per-channel maximum. |
| Images.ImageData.Min | ImageData.h:768-785 | Shape check with "... to find min", then the per-channel minimum. |
| Compositing.MultiplyChannel | ImageData.h:569-571 | The result is at most both inputs. It is the input itself when the other is 255, and 0 when the other is 0. |
| Compositing.ScreenChannel | ImageData.h:588-590 | The result is at least both inputs. It is the input itself when the other is 0, and 255 when the other is 255. |
| Compositing.OverlayChannel | ImageData.h:607-630 | Below 128 the result never brightens the channel; from 128 on it never darkens it. |
| Compositing.MinChannel | ImageData.h:780-782 | The result is one of the inputs and no larger than either. |
| Compositing.MaxChannel | ImageData.h:761-763 | The result is one of the inputs and no smaller than either. |
| Compositing.AddChannel | ImageData.h:685-687 | With scale 1 the result is the sum saturated at 255. A non-negative scale never darkens, a non-positive one never brightens, and scale 0 is the identity. |
| Compositing.SubtractChannel | ImageData.h:704-706 | The result is 0 exactly when a <= b, and otherwise equals a - b. It is never above a. |
| Compositing.DifferenceChannel | ImageData.h:723-725 | The result is `abs(a - b)`, which is 0 exactly when the channels agree. |
| Compositing.AverageChannel | ImageData.h:742-744 | The result lies between the inputs, and is their sum halved with truncation. |
| Compositing.CompositeOverChannel | ImageData.h:533-535 | With alpha 0 the result is the background channel; with alpha 1 it is the foreground channel. |
| Compositing.ApplyOp | ImageData.h:521-785 | Only the alpha mask changes alpha, and it changes nothing else. |
| Compositing.DuplicateOperators | ImageData.h:635-671 | darken equals min, and lighten equals max, on every pair of grids. |
| Compositing.SymmetricOperatorsCommute | ImageData.h:557-785 | multiply, screen, darken, lighten, add, difference, average, max and min do not depend on operand order, alpha aside. |
| Compositing.SelfCancellation | ImageData.h:692-728 | An image composited with itself by subtract or difference has black r, g and b, and keeps its alpha. |
| Compositing.CompositeOverExtremes | ImageData.h:521-538 | With alpha 0 the pixel takes the background's r, g and b; with alpha 1 it is kept. |
| Compositing.CompositeOverOpaque | ImageData.h:533-535 | With alpha 255 the channel becomes `(2 * bg - c) mod 256`: red 200 over red 10 gives 76. |
| Images.ImageData.FilterPixelAt | ImageData.h:1027-1061 | The accumulation loops for one output pixel compute `FilteredPixel`: each of r, g, b is its weighted sum clamped to [0, 255] and truncated, and alpha is the source pixel's. |
| Images.ImageData.Convolve | ImageData.h:1027-1066 | The grid becomes `Filtered` of the old grid. Every sample is read from the unmodified original, and the sides are unchanged. |
| Images.ImageData.ApplyFixedKernel | ImageData.h:790-834 | With a square N x N kernel, the grid becomes `Filtered` with the centre at (N / 2, N / 2). |
| Images.ImageData.ApplyKernel | ImageData.h:1018-1067 | Throws `invalid_argument("Invalid kernel size")`, writing nothing, exactly when there are no rows or row 0 is empty. Otherwise both loops run to the row count N and the column centre is `M / 2`. |
| Convolution.FilteredKeepsShapeAndAlpha | ImageData.h:1027-1066 | Filtering keeps the sides and copies every alpha value. |
| Convolution.IdentityKernel | ImageData.h:1018-1067 | The Default kernel leaves every pixel unchanged. |
| Convolution.BoxBlurSinglePixel | ImageData.h:1018-1067 | A 1x1 image under the unnormalized box blur keeps its colour. The eight padded samples are black. |
| Convolution.BoxBlurSingleChannel | ImageData.h:1040-1053 | For a 1x1 image, the box-blur weighted sum of one channel is that channel. |
| Convolution.NormalizedBoxBlurUniform | ImageData.h:1018-1067 | Away from the border, the normalized box blur maps a uniform image to itself. |
| Convolution.OneRowKernel | ImageData.h:1036-1053 | A one-row kernel `[a, b, c]` uses only `a`, because the loops stop at the row count. It samples one column to the left. |
| Kernels.GetKernel | ImageData.h:929-1016 | Every catalog kernel is 3 x 3. |
| Kernels.DefaultWeights | ImageData.h:929-935 | The Default kernel is 1 at the centre and 0 elsewhere. |
| Kernels.CatalogSums | ImageData.h:929-992 | The weights sum to 9 for box blur and 16 for Gaussian blur, to 0 for Sobel X, Sobel Y and Laplacian, and to 1 for the rest. |
| Kernels.ToString | ImageData.h:905-927 | The contract states that every declared kernel type has a name that is non-empty and is not the fallback "Unknown". The body returns the eight names "Default", "Box Blur", "Gaussian Blur", "Sobel X", "Sobel Y", "Laplacian", "Sharpen" and "Emboss"; `ToStringInjective` states that they differ. |
| Kernels.ToStringInjective | ImageData.h:905-927 | No two kernel types share a display name. |
| Kernels.ScaleKernel | ImageData.h:1069-1080 | The scaled copy equals `Scaled(kernel, scale)`. |
| Kernels.Scaled | ImageData.h:1069-1080 | Scaling keeps the kernel's shape. |
| Kernels.ScaledSum | ImageData.h:1069-1080 | Scaling the weights scales their sum. |
| Kernels.ScaledCompose | ImageData.h:1069-1080 | Scaling by 1 changes nothing, and two scalings compose into one. |
| Kernels.SumWeights | ImageData.h:1084-1091 | The row-by-row accumulation equals `KernelSum`. |
| Kernels.NormalizeKernel | ImageData.h:1082-1106 | The result equals `Normalized(kernel)`. |
| Kernels.Normalized | ImageData.h:1082-1106 | The shape is kept. A zero-sum kernel comes back unchanged; otherwise the weights sum to 1. |
| Kernels.NormalizedIdempotent | ImageData.h:1082-1106 | Normalizing twice equals normalizing once. |
| Kernels.CreateCustomKernel | ImageData.h:1108-1125 | The result equals `CustomKernel(values)`. |
| Kernels.CustomKernelCopies | ImageData.h:1108-1125 | Fails exactly for an empty grid or an empty first row. Otherwise the result is a `rows x values[0].size()` copy, and a rectangular input comes back unchanged. |
| Kernels.ConvolveEntry | ImageData.h:1141-1151 | The `u`/`v` loops compute the sum of `k1[u][v] * k2[i - u][j - v]` over the in-range indices. |
| Kernels.ConvolveKernels | ImageData.h:1127-1156 | The result equals `Convolved(k1, k2)`. |
| Kernels.ConvolvedShape | ImageData.h:1127-1156 | Fails exactly when the row-0 squareness test fails. Otherwise the result is `(N + M - 1)`-square, and entry (i, j) is the convolution sum. |
| Kernels.ConvolveIdentity | ImageData.h:1127-1156 | Convolving with the Default kernel embeds the kernel one cell in from each edge of an `(N + 2)`-square grid of zeros. |
| Kernels.ConvolveScaled | ImageData.h:1127-1156 | Convolution is linear in its first kernel: scaling it scales the result. |

## Left out

- The `stbi_load`, `stbi_write_*` and `stbi_image_free` calls, `saveImage`, and the `std::cout` output are foreign library I/O. `LoadImage` receives the decoder's result as a parameter: `None` stands for a failed load.
- Main.cpp and src/main.cpp are not part of this model. They are demo drivers that chain load, operation and save.
- `grayscale`, `threshold`, `contrast`, `tint` and `blend` are left out. Their results depend on float rounding before truncation, and no other operation builds on them.
- `noise` is left out, because it depends on `rand()`.
- Floats are modelled as exact reals. This applies to the kernel weights and sums, `add`'s `scale`, and `resize`'s ratios. Where float rounding changes a truncated result, the model can differ. Such cases are non-integer kernels after scaling or normalizing, non-integer `scale` values, and ratio products that land just below an integer. Integer-valued kernels and `add` with scale 1 are exact in both.
- Images.ImageData.LoadImage: requires that the old rows already have the file's width, or that the image is empty. `std::vector::resize` keeps existing rows at their old length. When the file is wider than those rows, the C++ writes past them, which is undefined behaviour. When it is narrower, the C++ is well defined and each kept row ends in stale pixels beyond `width`. The requires excludes both cases, so the model does not describe those stale trailing pixels.
- Images.ImageData.LoadImage: on a failed load the model keeps `width`, `height` and `channels` unchanged. The C++ passes these fields to the decoder as out-parameters before testing its result, so whether they survive a failure depends on the decoder, which is not part of this model.
- Images.ImageData.LoadImage: the pixel loops are the helper `UnpackRows`, which fills a local copy of the resized rows; `pixels` is assigned once afterwards. The C++ writes into `pixels` directly. Nothing reads the image during the loops, so the final state is the same, but the model does not show the partly written field.
- Images.ImageData.Crop: requires `w >= 0` and `h >= 0`. The C++ does not reject negative sizes; constructing the vectors then throws `std::length_error`.
- Images.ImageData.Crop: does not model the signed overflow of `x + w` and `y + h` (ImageData.h:482, 485) when `w` or `h` is near the `int` limit; the model's unbounded integers clamp such sizes to the remaining extent.
- Kernels.CreateCustomKernel: requires that no row is shorter than row 0, and so do `CustomKernel` and `CustomKernelCopies`. The C++ copies `rows x values[0].size()` entries without checking the later rows, and reading past a shorter row is undefined behaviour.
- Images.ImageData.Resize: requires a non-empty source when the arguments are valid. On an empty image the C++ indexes `pixels[0]` out of range.
- Images.ImageData.ApplyKernel: requires every row to hold at least as many weights as there are rows. The inner loop runs to the row count, and reading past a shorter row is undefined behaviour in the C++.
- Kernels.ConvolveKernels: requires every row of each kernel to be at least as long as the kernel has rows. The source checks row 0 only and reads the other rows unchecked.
- Images.ImageData.Brightness: does not model signed overflow of `pixel.r + offset` when `offset` is within 255 of the `int` limits.
- The fixed-size template overloads `scaleKernel<N>`, `normalizeKernel<N>` and `convolveKernels<N, M>` (ImageData.h:836-903) have the same loops as the run-time versions. `std::array` kernels are always square, so they are covered by `ScaleKernel`, `NormalizeKernel` and `ConvolveKernels`. `applyKernel<N>` is `ApplyFixedKernel`.
- The `default:` branches of `channelCount`, `toString` and `getKernel` cannot be reached with the closed enumerations modelled here.
- `getWidth` and `getHeight` (ImageData.h:55-57) and the non-const `getPixel` reference are not modelled separately: the fields and `GetPixel` stand for them. Writes through a returned `Pixel&` are what `SetPixel` models.
- Images.ImageData.CompositeOver: uses the raw alpha byte as in the source, so only alpha 0 and 1 mix as compositing normally would. `CompositeOverOpaque` records what alpha 255 does.
