# BMP viewer core in Dafny

This project models the two computational parts of a small BMP viewer.

- **The BMP decoder (`bmpfile.py`), module `Bitmap` in `bitmap.dfy`.**
  - `openFile` reads the unsigned little-endian header fields from fixed offsets: `bfSize`, `bfOffBits`, `biWidth`, `biHeight`, `biBitCount`, `biCompression` and `biClrUsed`.
  - It rejects any compression other than `BI_RGB`.
  - It sets `numColors` to `biClrUsed`, except that a `biClrUsed` of 0 at a depth of at most 8 becomes `1 << bpp` (256 at 8 bpp).
  - It loads the colour table, reordering each entry from B,G,R,A to (r,g,b,a). The table normally sits just before the pixel data; otherwise it is read from offset 0x36, with the number of entries cut down to what fits in the file.
  - `generatePixelGrid` dispatches to the 1, 4, 8 and 24 bpp unpackers. They turn padded rows, stored bottom-up, into a grid of (r,g,b) pixels.
  - Each unpacker is a pure specification function over a `Raster` snapshot of the object's fields. The class `BmpFile` has the source's fields. Its methods (`OpenFile`, `Parse1bpp` … `Parse24bpp`, `GeneratePixelGrid`) are the source's loops, and each is proved to compute its specification function.
- **The integer side of the pixel pipeline (`imageView.py`), module `Pipeline` in `pipeline.dfy`.**
  - `ImageView.rebuild` copies the decoded grid.
  - It runs a Gaussian low-pass filter for 1 bpp images shown below full size.
  - It applies the RGB channel mask in place.
  - It runs the brightness step with its clamp of every channel to [0,255].
  - It computes the target size as `max(1, int(dim * scale))` and resizes bilinearly only when a dimension changes.
  - The blur and the resize fill preallocated buffers. The mask and brightness loops update the grid in place. Grids are therefore `array2<Pixel>` in the methods, each proved equal to a function over `seq<seq<Pixel>>`: `Blurred`, `Masked`, `Brightened`, `Resized`, `Process`.
  - The class `ImageView` holds the view's settings (`scale`, the three mask flags, `gamma`) and the rendered `image`. `Rebuild`, `RenderBmp` and the three setters are proved against `Process`.

Python floats are modelled as exact reals, and `int()` as truncation toward zero (`Trunc`). Two float values come from formulas the model does not interpret, so they are passed in as a `Numerics` value:
- the kernel returned by `gaussian_kernel(1, 0.8)`;
- the YUV round trip of the brightness step.

The binary-image brightness bump and the bilinear mix are computed exactly.

Facts about the code that the model keeps:
- `openFile` never checks the `BM` signature (`SignatureIgnored`).
- A header field the file ends before reads as 0; a field the file ends inside reads the bytes that are present. A Python slice is cut short at the file end, and `int.from_bytes` of an empty slice is 0.
- `biHeight` is read unsigned, so a height read from a file is never negative and never selects top-down order (`HeaderNeverTopDown`). The orientation helpers still take an integer height (`OrientationReverses`).
- `openFile` rejects a non-zero `biCompression` at every depth; `_parse_24bpp` checks it again.
- Width 0 with height H gives H empty rows, and height 0 gives an empty grid; neither is an error.
- `rebuild` replaces a scale of at most 0 by 0.01.
- The brightness step scales the luma Y by `gamma / 1.5`; for a two-colour 1 bpp image it adds `(gamma/1.5 - 1) * 127` to each channel instead.

## Model

| member | source | states |
|---|---|---|
| Bitmap.LittleEndian | bmpfile.py:23-28 | `int.from_bytes(..., "little")` of n bytes is an unsigned value below 256^n |
| Bitmap.LittleEndianOfBytes | bmpfile.py:23-28 | reading back the n-byte little-endian encoding of a value below 256^n gives the value |
| Bitmap.BytesOfLittleEndian | bmpfile.py:23-28 | encoding a decoded byte string gives the same bytes, so the field reader is a bijection on n-byte strings |
| Bitmap.Slice | bmpfile.py:23-28 | a Python slice past the end of the file is cut short, and is empty when it starts at or past the end |
| Bitmap.Field | bmpfile.py:23-28 | a field is below 256^(hi-lo) and reads as 0 when the file ends before it |
| Bitmap.ReadHeader | bmpfile.py:23-28 | the six header fields and `biClrUsed` (line 34) are unsigned, 4 bytes wide (2 for bpp) |
| Bitmap.HeaderRoundTrip | bmpfile.py:23-34 | each field written at its offset (0x02, 0x0A, 0x12, 0x16, 0x1C, 0x1E, 0x2E) is read back, whatever follows the header |
| Bitmap.SignatureIgnored | bmpfile.py:23-28 | the two signature bytes do not affect the header read: there is no `BM` check |
| Bitmap.NumColors | bmpfile.py:34-36 | `biClrUsed` is kept unless it is 0 at a depth of at most 8, in which case it becomes 2^bpp (256 at 8 bpp) |
| Bitmap.PaletteStart | bmpfile.py:40-44 | the table starts `numColors*4` bytes before `bfOffBits` when that span lies in the file, else at 0x36 |
| Bitmap.PaletteCount | bmpfile.py:46-48 | at most `numColors` entries are read, every one lies in the file, and only a file end stops the count short |
| Bitmap.ColorTable | bmpfile.py:38-53 | the table has at most `numColors` entries and is empty above 8 bpp |
| Bitmap.ColorTableRoundTrip | bmpfile.py:38-53 | a palette stored as B,G,R,A just before the pixel data is read back entry for entry as (r,g,b,a) |
| Bitmap.RowStride | bmpfile.py:76-77 | the stride is a multiple of 4, holds the row's `bpp*width` bits, and exceeds them by less than 32 bits |
| Bitmap.IsTopDown | bmpfile.py:79-80 | a height selects top-down order exactly when it is negative, and the row count is then its negation |
| Bitmap.AbsHeight | bmpfile.py:82-83 | the row count is the height or its negation |
| Bitmap.HeaderNeverTopDown | bmpfile.py:26 | a height read from the file is never negative, so `_is_top_down` is false and `_abs_height` is the height |
| Bitmap.SourceRow | bmpfile.py:102 | displayed row y reads stored row y top-down and H-1-y bottom-up, always within [0,H) |
| Bitmap.SourceRowBijective | bmpfile.py:101-103 | the row mapping is its own inverse and one to one on [0,H) |
| Bitmap.RowOffset | bmpfile.py:103 | a stored row starts at or after `bfOffBits` |
| Bitmap.RowsApart | bmpfile.py:103 | consecutive stored rows start one stride apart, each a multiple of 4 bytes past `bfOffBits`, and the bytes a row's unpacker reads end before the next row starts |
| Bitmap.Bit | bmpfile.py:109 | `(v >> k) & 1` is 0 or 1 |
| Bitmap.HighNibble | bmpfile.py:135 | `(v >> 4) & 0x0F` is below 16 |
| Bitmap.LowNibble | bmpfile.py:137 | `v & 0x0F` is below 16 |
| Bitmap.PaletteColor | bmpfile.py:139-142 | an index inside the table gives that entry's (r,g,b) with the alpha dropped, an index past it gives black, and the channels are bytes |
| Bitmap.PixelAt | bmpfile.py:105-205 | a pixel read at any of the four depths has byte channels, and at 1 bpp it is one of the two palette colours |
| Bitmap.UnpackRow | bmpfile.py:103-112 | a displayed row has `width` pixels |
| Bitmap.Unpack | bmpfile.py:100-112 | a grid has `abs(height)` rows of `width` pixels |
| Bitmap.Parse1 | bmpfile.py:87-115 | it fails, with the wrong palette size, exactly when the table does not hold 2 entries; otherwise it gives `abs(height)` rows of `width` pixels |
| Bitmap.Parse4 | bmpfile.py:117-147 | it fails with the missing-palette error exactly when the table is empty; otherwise it gives `abs(height)` rows of `width` pixels |
| Bitmap.Parse8 | bmpfile.py:149-175 | it fails with the missing-palette error exactly when the table is empty; otherwise it gives `abs(height)` rows of `width` pixels |
| Bitmap.Parse24 | bmpfile.py:177-209 | non-zero compression fails with that compression, any other failure is the truncation error, and a grid has `abs(height)` rows of `width` pixels |
| Bitmap.PixelGrid | bmpfile.py:63-74 | a decoded grid has `abs(height)` rows of `width` pixels, and the unsupported-depth error occurs exactly when bpp is outside {1,4,8,24} |
| Bitmap.StoredRow24 | bmpfile.py:193-206 | a stored 24 bpp row yields `width` pixels |
| Bitmap.Packed | bmpfile.py:105-110 | bits packed most significant first form a value below 2^n |
| Bitmap.BitOfPacked | bmpfile.py:105-110 | pixel x of a 1 bpp byte is bit 7 - x%8: every bit a writer packed is recovered |
| Bitmap.NibblesOfPacked | bmpfile.py:133-137 | an even pixel takes the high nibble and an odd one the low nibble of the byte `16*hi + lo` |
| Bitmap.OrientationReverses | bmpfile.py:79-83 | the same stored rows read top-down give the bottom-up grid upside down |
| Bitmap.Truncated24 | bmpfile.py:193-198 | the 24 bpp parser fails with the truncation error exactly when some row's `row_offset + 3*width` passes the file end |
| Bitmap.Pad | bmpfile.py:76-77 | a written row is exactly one stride long and starts with the row's bytes |
| Bitmap.SpanIsProduct | bmpfile.py:103 | n strides laid end to end are `n * stride` bytes |
| Bitmap.SpanBelow | bmpfile.py:102-103 | a row of at most one stride that starts at a stored row below h ends no later than stored row h starts |
| Bitmap.Layout | bmpfile.py:100-103 | the pixel data of H rows padded to the stride is H strides long |
| Bitmap.LayoutAt | bmpfile.py:102-103 | byte k of stored row src is byte k of displayed row H-1-src: the writer stores the bottom row first |
| Bitmap.LayoutRow | bmpfile.py:102-103 | displayed row y lies whole at stored row H-1-y, after any prefix |
| Bitmap.WrittenByte | bmpfile.py:102-103 | byte k of stored row src, counted from the start of the file, is byte k of displayed row H-1-src |
| Bitmap.WrittenFits | bmpfile.py:193-198 | in a written file every stored row's `row_offset + len` lies inside the file |
| Bitmap.WrittenRow | bmpfile.py:102-103 | in a written file, displayed row y sits at `bfOffBits + (H-1-y)*stride` |
| Bitmap.RowsWritten | bmpfile.py:100-103 | in a written file every stored row fits, and every displayed row sits where the unpackers read it |
| Bitmap.UnpackIs | bmpfile.py:100-112 | a grid of the right shape whose every pixel is the one read at its row offset is the unpacked grid |
| Bitmap.EncodeRow24 | bmpfile.py:200-206 | the writer's 24 bpp row is three bytes a pixel |
| Bitmap.EncodeRow4 | bmpfile.py:132-137 | the writer's 4 bpp row packs two indices a byte into exactly the bytes the unpacker reads for that width |
| Bitmap.EncodeRow1 | bmpfile.py:105-109 | the writer's 1 bpp row packs eight bits a byte into exactly the bytes the unpacker reads for that width |
| Bitmap.Paletted | bmpfile.py:164-171 | the palette view of a grid of indices has that grid's shape |
| Bitmap.PixelOfRow24 | bmpfile.py:200-205 | pixel x of a row written as B,G,R bytes is read back as that pixel |
| Bitmap.PixelOfRow8 | bmpfile.py:164-171 | pixel x of an 8 bpp row is the palette colour of byte x |
| Bitmap.PixelOfRow4 | bmpfile.py:132-143 | pixel x of a row written two indices a byte, the even pixel in the high nibble, is the palette colour of index x |
| Bitmap.PixelOfRow1 | bmpfile.py:105-111 | pixel x of a row of bits packed most significant first is colour 1 when its bit is set and colour 0 otherwise |
| Bitmap.Parse24RoundTrip | bmpfile.py:177-209 | any grid of byte-valued pixels written bottom-up as padded B,G,R rows after any prefix parses back to itself |
| Bitmap.Parse8RoundTrip | bmpfile.py:149-175 | any grid of byte indices written as padded rows parses back to their palette colours, black past the table |
| Bitmap.Parse4RoundTrip | bmpfile.py:117-147 | any grid of 4-bit indices written two a byte parses back to their palette colours |
| Bitmap.Parse1RoundTrip | bmpfile.py:87-115 | any grid of bits written eight a byte parses back to the two palette colours, bit 1 the second |
| Bitmap.Decode24RoundTrip | bmpfile.py:19-74 | a whole 24 bpp file, header then padded rows, decodes to the grid it was written from |
| Bitmap.Decode8RoundTrip | bmpfile.py:19-74 | a whole 8 bpp file, header, palette just before the pixel data, then padded rows, decodes to the palette colours of its indices |
| Bitmap.Open | bmpfile.py:23-53 | opening fails exactly on non-zero compression, with that compression; otherwise the header is the one read and the table has at most `numColors` entries |
| Bitmap.Decode | bmpfile.py:23-74 | a compressed file fails with its compression; a decoded grid is `biHeight` rows of `biWidth` pixels |
| Bitmap.TwoByTwo | bmpfile.py:23-53 | the sample file is 70 bytes long |
| Bitmap.TwoByTwoDecodes | bmpfile.py:23-115 | a 2x2 monochrome file laid out by a BMP writer decodes to white-black over black-white |
| Bitmap.TwoByTwoOpens | bmpfile.py:23-53 | that file's header reads back as written and its palette is black then white |
| Bitmap.TwoByTwoRows | bmpfile.py:87-115 | its two bottom-up rows unpack to the expected pixels |
| Bitmap.BmpFile.Empty | bmpfile.py:2-16 | a new object has empty bytes, zero header fields, an empty colour table and an empty pixelmap |
| Bitmap.BmpFile.OpenFile | bmpfile.py:19-53 | the header fields become `ReadHeader(data)`; a compressed file fails and leaves `numColors` and the table unchanged; otherwise they become those of `Open` |
| Bitmap.BmpFile.ReadHeaderFields | bmpfile.py:23-28 | each header field is assigned its little-endian value |
| Bitmap.BmpFile.ReadColorTable | bmpfile.py:38-53 | the append loop builds exactly `ColorTable` of the file |
| Bitmap.BmpFile.Parse1bpp | bmpfile.py:87-115 | the nested loops return `Parse1` of the fields (wrong palette size when there are not 2 entries) and store a successful grid in `pixelmap` |
| Bitmap.BmpFile.Row1bpp | bmpfile.py:105-111 | the x loop returns `width` pixels, each the one its bit selects from the two palette colours |
| Bitmap.BmpFile.Parse4bpp | bmpfile.py:117-147 | the loops return `Parse4` (missing palette when the table is empty; black for an index past the table) and store the grid |
| Bitmap.BmpFile.Parse8bpp | bmpfile.py:149-175 | the loops return `Parse8` and store the grid |
| Bitmap.BmpFile.Parse24bpp | bmpfile.py:177-209 | the loops with the `i += 3` cursor return `Parse24` (compression and truncation errors included) and store the grid |
| Bitmap.BmpFile.GeneratePixelGrid | bmpfile.py:63-74 | the dispatch returns `PixelGrid` and stores a successful grid in `pixelmap`, leaving it unchanged on an error |
| Bitmap.OpenBmp | bmpfile.py:2-16 | constructing with a file opens it: `filename`, `bytes` and `fileSize` are set from the file and `pixelmap` is empty; it fails exactly when `Open` does, and otherwise the fields are the opened raster and `numColors` is the opened count |
| Pipeline.Trunc | imageView.py:106-108 | `int()` of a float truncates toward zero |
| Pipeline.ClampIndex | imageView.py:221-222 | `min(max(v, lo), hi)` lies in [lo, hi], is v inside it and the nearer bound outside it |
| Pipeline.ClampChannel | imageView.py:110-113 | `max(0, min(255, v))` lies in [0,255], is v inside it and the nearer bound outside it |
| Pipeline.Masked | imageView.py:69-78 | masking keeps the grid's shape, sets each disabled channel to 0 and keeps each enabled one |
| Pipeline.MaskAllEnabled | imageView.py:68 | with all three flags set the mask is the identity, so skipping it changes nothing |
| Pipeline.MaskIdempotent | imageView.py:69-78 | masking twice with the same flags is masking once |
| Pipeline.MaskActive | imageView.py:68 | with the gate closed the per-pixel mask is the identity, and with it open the mask changes some pixel |
| Pipeline.BrightnessActive | imageView.py:81 | the step is skipped exactly for a gamma within 1e-6 of 1 |
| Pipeline.Bump | imageView.py:104-108 | at gamma 1.5 a pixel is unchanged, a gamma of at least 1.5 never lowers a channel, and one of at most 1.5 never raises one |
| Pipeline.Brighten | imageView.py:89-114 | every brightened pixel is in [0,255], and a binary in-range pixel is unchanged at gamma 1.5 |
| Pipeline.Brightened | imageView.py:81-114 | the brightness step keeps the grid's shape and leaves every channel in [0,255] |
| Pipeline.BumpDirection | imageView.py:104-113 | on a two-colour 1 bpp image, a gamma of at least 1.5 never darkens a channel and one of at most 1.5 never brightens it |
| Pipeline.Blurred | imageView.py:210-229 | the blur returns a grid with the input's height and width |
| Pipeline.RowAccUniform | imageView.py:219-227 | over a single-colour image a kernel row accumulates the colour times the row's weight |
| Pipeline.KernelAccUniform | imageView.py:216-227 | over a single-colour image the accumulators hold the colour times the kernel's total weight |
| Pipeline.BlurUniform | imageView.py:195-229 | with weights normalised to sum 1, the blur leaves a single-colour image unchanged |
| Pipeline.TapsAsWritten | imageView.py:166-177 | as written, the upper index is clamped into [0, dim-1] and the lower one is only raised to 0 |
| Pipeline.AxisTaps | imageView.py:166-177 | with the lower index clamped as well, both indices lie in [0, dim-1], and the result equals the as-written one whenever that lower index was in range |
| Pipeline.LowerGuardNeverFires | imageView.py:166-170 | a pixel centre maps above -0.5, so the truncated lower index is never negative |
| Pipeline.TargetDim | imageView.py:120-121 | an output dimension is at least 1 |
| Pipeline.TargetDimBounds | imageView.py:120-121 | unless forced up to 1, an output dimension is `dim*scale` rounded down |
| Pipeline.LowerInRangeUnlessForced | imageView.py:120-121 | when the output dimension was not forced up to 1, every as-written lower index is inside the source |
| Pipeline.LowerEscapesWhenForced | imageView.py:120-124 | when scale is at most 1/(2*dim+1), the dimension is forced to 1 and the as-written lower index of output pixel 0 is at least dim |
| Pipeline.ThinImageCounterexample | imageView.py:120-124 | a 1x8 image at scale 0.25 is resized to 2x1, and the as-written lower row index is 1 in a one-row image |
| Pipeline.Mix | imageView.py:184-189 | four equal corners give that value back, and with weights in [0,1] and corners in [0,255] the result is in [0,255] |
| Pipeline.BlendNested | imageView.py:184-189 | the four-term bilinear formula is a lerp in y of two lerps in x |
| Pipeline.LerpBetween | imageView.py:184-189 | a lerp with a weight in [0,1] stays within any bounds of its two ends |
| Pipeline.BlendBounds | imageView.py:184-189 | with weights in [0,1] the blend stays within any bounds of its four corners |
| Pipeline.BlendUniform | imageView.py:184-189 | the four bilinear weights sum to 1 |
| Pipeline.TapWeight | imageView.py:166-176 | at a scale of at most 1 the weight `src - int(src)` lies in [0,1) |
| Pipeline.Resized | imageView.py:152-192 | the resize returns `new_h` rows of `new_w` pixels |
| Pipeline.ResizedInRange | imageView.py:152-192 | shrinking an image whose channels are in [0,255] gives channels in [0,255] |
| Pipeline.EffectiveScale | imageView.py:117-118 | a scale of at most 0 becomes 0.01 and a positive one is kept |
| Pipeline.BlurActive | imageView.py:64 | the blur runs exactly for 1 bpp images whose fixed-up scale is below 1 |
| Pipeline.Filtered | imageView.py:60-114 | the gated blur, mask and brightness stages keep the copied grid's height and width |
| Pipeline.Process | imageView.py:56-126 | rebuild's output is `max(1, int(H*scale))` rows by `max(1, int(W*scale))` columns |
| Pipeline.DefaultsShowGrid | imageView.py:27-34 | with the settings `render_bmp` resets to, the pipeline output is the decoded grid itself |
| Pipeline.CopyGrid | imageView.py:60 | the deep copy is a fresh buffer holding the grid's pixels |
| Pipeline.Accumulate | imageView.py:218-227 | the `r_acc`, `g_acc`, `b_acc` loops compute the kernel-weighted sum of the edge-clamped neighbourhood (`KernelAcc`) |
| Pipeline.GaussianBlur | imageView.py:210-229 | the blur fills a fresh buffer of the input's size with `Blurred` of the input |
| Pipeline.BlurRow | imageView.py:217-228 | the x loop fills output row y with that row of `Blurred` and leaves every other row as it was |
| Pipeline.MaskInPlace | imageView.py:68-78 | the in-place loop leaves exactly `Masked` of the old grid |
| Pipeline.BrightenInPlace | imageView.py:81-114 | the in-place loop leaves exactly `Brightened` of the old grid |
| Pipeline.BilinearResize | imageView.py:152-192 | the resize fills a fresh `new_h` x `new_w` buffer with `Resized` of the source (lower indices clamped) |
| Pipeline.ResizeRow | imageView.py:172-191 | the x loop fills output row `y_out` with that row of `Resized` and leaves every other row as it was |
| Pipeline.Decoded | imageView.py:60 | a stored `pixelmap` is reused and never fails; otherwise the file is decoded to `abs(height)` rows of `width` pixels |
| Pipeline.ImageView.constructor | imageView.py:8-24 | a new view has no file, scale and gamma 1.0, all channels on, and a black width x height image |
| Pipeline.ImageView.Filter | imageView.py:60-114 | the copy followed by the gated stages is a fresh buffer holding `Filtered` of the grid |
| Pipeline.ImageView.Render | imageView.py:116-129 | the scale is fixed up, and the rendered image is `Process` of the grid |
| Pipeline.ImageView.Rebuild | imageView.py:56-129 | without a file nothing changes; a decode error changes nothing; otherwise `pixelmap` holds the decoded grid, which the pipeline never alters, and the image is `Process` of it |
| Pipeline.ImageView.RenderBmp | imageView.py:27-34 | the settings are reset; a decode error leaves the image and `pixelmap` as they were; a decodable file is stored in `pixelmap` and shown exactly as decoded |
| Pipeline.ImageView.SetScale | imageView.py:36-40 | without a file nothing changes; otherwise the scale becomes `max(0.01, factor)`, a decode error leaves image and `pixelmap` as they were, and a decoded grid is stored in `pixelmap` and rebuilt at that scale |
| Pipeline.ImageView.SetRgbMask | imageView.py:42-46 | without a file nothing changes; otherwise the flags are stored, a decode error leaves image, scale and `pixelmap` as they were, and a decoded grid is stored in `pixelmap`, the scale fixed up and the image rebuilt with the new flags |
| Pipeline.ImageView.SetGamma | imageView.py:48-53 | without a file nothing changes; otherwise gamma becomes `max(0.01, value)`, a decode error leaves image, scale and `pixelmap` as they were, and a decoded grid is stored in `pixelmap`, the scale fixed up and the image rebuilt with the new gamma |

## Left out

- File I/O and the `print` calls of `openFile` (bmpfile.py:20-22, 55-61): `OpenFile` takes the file name and bytes as parameters. The `url` field is dropped, and `filename` is the name passed in rather than `url.split("/")[-1]` (bmpfile.py:21).
- `exit(1)` and the `ValueError` become the `DecodeError` values of a `Result`/`Outcome`. The model does not end the process.
- The `None` that `compression` and `bpp` hold before a file is opened is modelled as 0, and the `None` of `bytes` and `filename` as `[]` and `""`.
- The 1, 4 and 8 bpp unpackers index the file unchecked; a short file would raise `IndexError`. These reads are preconditions (`PixelReadsFit`, `InBounds`), not an invented error.
- `rebuild` reads `len(src[0])` (imageView.py:69, 85, 119), so a grid with no rows raises `IndexError` there. A grid of zero-width rows passes those lines; `new_w = max(1, 0) = 1` differs from 0, so `bilinear_resize` runs and raises `IndexError` at `src[y0][x0]` (imageView.py:179). `Ready` requires a grid with at least one row and one column, which rules out both.
- The kernel values of `gaussian_kernel` (`math.exp` and the normalisation, imageView.py:195-207) are part of the `Numerics` parameter. `BlurUniform` assumes only that the weights sum to 1.
- The YUV formulas (imageView.py:91-101) are the `yuv` function of `Numerics`. The clamp after them is modelled exactly.
- IEEE binary64 rounding is not modelled: every float is an exact real, so a value the source rounds differently at the last bit may differ.
- Python's default arguments `width=200, height=200` of the `ImageView` constructor (imageView.py:8) and `red=green=blue=True` of `set_rgb_mask` (imageView.py:42) are left out: `ImageView.constructor` and `ImageView.SetRgbMask` take every argument explicitly.
- The `src_w`/`src_h`/`scale` defaults of `bilinear_resize` (`None`, imageView.py:153-163) are left out: `rebuild` always passes all three.
- Qt rendering (`_render_from_pixelgrid`, `QImage`, `QPixmap`, `setMinimumSize`) is left out: rendering is the assignment of the output buffer to `image`.
- The constructor's `width_`/`height_` fields are left out: only the black start image of that size is kept.
- main.py (windows, drag and drop, sliders) and debouncedSlider.py (Qt timers) are not part of this model.
- `BmpFile.ReadHeaderFields`, `BmpFile.ReadColorTable`, `BmpFile.Row1bpp`, `Accumulate`, `BlurRow`, `ResizeRow`, `ImageView.Filter` and `ImageView.Render` are pieces of `openFile`, `_parse_1bpp`, `gaussian_blur`, `bilinear_resize` and `rebuild` split out as methods. Together they run the same statements in the same order.
- Pipeline.AxisTaps: clamps the lower index as well (see Findings), so on the failing input the resize returns a grid where the source raises `IndexError`.
- Pipeline.BilinearResize: uses `AxisTaps`, so it returns a grid on that input.
- Pipeline.ResizeRow: uses `AxisTaps`, so it returns a row on that input.
- Pipeline.Resized: uses `AxisTaps`, so it is defined on that input.
- Pipeline.Process: resizes with `Resized`, so it is defined on that input.
- Pipeline.ImageView.Render: resizes with `BilinearResize`, so it renders that input.
- Pipeline.ImageView.Rebuild: renders with `Render`, so it renders that input.
- Pipeline.ImageView.SetScale: rebuilds with `Render`, so it renders that input.
- Pipeline.ImageView.SetRgbMask: rebuilds with `Render`, so it renders that input.
- Pipeline.ImageView.SetGamma: rebuilds with `Render`, so it renders that input.

## Findings

| source | as written | input that shows it | evidently intended | confidence | as-written member | corrected member |
|---|---|---|---|---|---|---|
| imageView.py:166-177 | `y0 = int(src_y)` and `x0 = int(src_x)` are raised to 0 but never lowered to `src_h - 1` / `src_w - 1`. `rebuild` forces a dimension up to 1 with `max(1, ...)` while the scale stays small, so the first pixel centre then maps past the source | a 1-row, 8-column image at scale 0.25: `new_w = 2`, `new_h = max(1, int(0.25)) = 1`, so the resize runs; `src_y = 0.5/0.25 - 0.5 = 1.5`, `y0 = 1`, and `src[1]` does not exist (IndexError) | clamp the lower index into [0, dim-1] as the upper one is | high (not executed) | Pipeline.ThinImageCounterexample, Pipeline.LowerEscapesWhenForced, Pipeline.TapsAsWritten | Pipeline.AxisTaps, Pipeline.BilinearResize (Pipeline.LowerInRangeUnlessForced: the two agree whenever the dimension was not forced) |
