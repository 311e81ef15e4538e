# goripy utilities in Dafny

A model of the integer-centred core of **goripy**, a grab-bag library of Python
helpers for image, mask and machine-learning pipelines, together with the laws
its code and docstrings promise. It has one Dafny module per source file, plus a
few shared modules:

- **Shared modules.**
  - `Results`: `Result`/`Option` and the Python exceptions as values.
  - `Seqs`: sums and slices.
  - `PyNum`: Python slicing, floor and ceiling on reals, and `round` as half-to-even.
  - `Decimal` and `Strings`: decimal text, split and join.
  - `Grids`: column-major 2-D grids.
  - `Base64`: RFC 4648 section 4, stated as a pair of inverse functions.
  - `ConfNum`: numpy floats with NaN and the infinities.
- **Binary masks.**
  - The run-length codec (`MaskRle`), with its second copy (`FileMask`).
  - The Base64 transport with an 8-digit shape suffix (`MaskEncode`).
  - The bounding box (`MaskBbox`).
  - The CVAT `<mask>` read/write pair (`CvatMask`). The XML item is a string attribute map.
  - The frame-to-job table (`CvatAnno`).
- **The GPU `DeviceAllocator`** (`GpuAlloc`). It is a class over a capacity sequence and a tenant map. It does a best-fit allocation and has an allocate/deallocate inverse.
- **The multi-dataset batch scheduler** (`Multibatch`). Both the dataloader variant and the dataset variant are modelled.
- **Array helpers.**
  - Variable-length 2-D storage (`VarLen2DList`).
  - Padding a 2-D list (`ArrayList`).
  - `array_split` chunking (`ArrayChunk`).
  - Largest-remainder ratio partitions (`ArrayRatio`).
  - First-occurrence search and linspace sizes (`ArrayMisc`).
  - Pad cropping (`ArrayPad`).
  - Cyclic argument expansion (`Args`).
- **Image geometry on integer pixels.**
  - In-place border and centre fill (`ImgBorderFill`).
  - The square mask cropper (`ImgMaskCrop`), with its older copy (`ImgMaskCropper`).
  - Target sizes and centre padding (`ImgUtils`).
- **Text and bookkeeping.**
  - The best 2-D plot grid (`PlotGrid`).
  - Line wrapping (`StrUtils`).
  - The tqdm and stderr logger adapters (`Log`).
  - Nested-dict lookup (`DictUtils`) and flatten/unflatten (`DictDepth`).
  - Fancy time and byte-count strings (`TimeUtils`, `MemoryInfo`).
- **Confusion-matrix metrics.** Two copies: `ConfMetrics` and `ConfAggs`, and `MldlConfMetrics`.

Where the code works by updating state, the model keeps that form:
- A class whose methods update fields becomes a Dafny `class` with `modifies` clauses.
- Loops become `while` loops with invariants.
- Images filled in place become `array2` values.

Each such method is proved against a specification function, and the laws are proved
about that function. Python exceptions are modelled as `Err` values. Floats are exact
reals. NaN is a separate value. Python's `round` rounds half to even.

Where the code disagrees with its own docstrings or with evident intent, the model
keeps two members. One models the code as written, and a lemma exhibits the
discrepancy. The other is a corrected definition with the intended law proved. Both
are listed under "## Findings".

## Model

| member | source | states |
|---|---|---|
| `Args.ArgErrors` | src/goripy/args.py:39-47 | a list, tuple or array argument fails exactly when it is empty (ZeroDivisionError at the modulo) or its length does not divide `target_len` (ValueError); scalars never fail; both readings below fail alike |
| `Args.ListArgRepeats` | src/goripy/args.py:39-52 | a list, tuple or scalar argument becomes `target_len` values, value `i` being `arg[i mod len(arg)]` (the scalar itself for a scalar) |
| `Args.NdArrayMultiplies` | src/goripy/args.py:39-48 | as written, a numpy array `[1, 2]` expanded to length 4 gives `[2, 4]` (elementwise product), where repetition gives `[1, 2, 1, 2]` |
| `Args.IntendedRepeats` | src/goripy/args.py:16-37 | read as its docstring describes, every kind of sequence repeats cyclically to `target_len` values |
| `Args.IntendedAgrees` | src/goripy/args.py:39-52 | the as-written and the intended readings agree on every argument that is not a numpy array |
| `ArrayChunk.ArraySplit` | src/goripy/array/chunk.py:50 | `numpy.array_split` fails with ValueError exactly when the chunk count is below 1, and otherwise returns that many chunks |
| `ArrayChunk.ArraySplitSpec` | src/goripy/array/chunk.py:27 | `array_split` chunks concatenate back to the input, chunk `i` has `n / k` elements plus one for the first `n % k` chunks, and sizes differ by at most one |
| `ArrayChunk.ArraySplitMany` | src/goripy/array/chunk.py:50 | with more chunks than elements, the first chunks are singletons in order and the rest are empty |
| `ArrayChunk.NumChunks` | src/goripy/array/chunk.py:27 | the chunk count `max(1, ceil(n / chunk_size))` is at least 1; a zero chunk size is a ZeroDivisionError |
| `ArrayChunk.ChunkPartitionSizeSpec` | src/goripy/array/chunk.py:7-27 | for a positive size: `max(1, ceil(n / size))` chunks that concatenate back to the input, each of at most `chunk_size` elements |
| `ArrayChunk.ChunkPartitionNegativeSize` | src/goripy/array/chunk.py:27 | a negative chunk size gives the whole array as a single chunk |
| `ArrayChunk.ListChunksSame` | src/goripy/array/chunk.py:74-77 | gathering list elements through the index chunks of `arange(len(l))` gives exactly the chunks of the list itself |
| `ArrayChunk.ListVariantsSame` | src/goripy/array/chunk.py:54-103 | `chunk_partition_size_list` and `chunk_partition_num_list` return exactly what the array variants return on the list, errors included |
| `ArrayList.PadValue` | src/goripy/array/list.py:43-55 | the padding value is the given one, else the integer or floating dtype's maximum; any other dtype without one is a ValueError |
| `ArrayList.Width` | src/goripy/array/list.py:38-39 | the column count is the given one, else the longest sublist; an empty list without one fails in `max` |
| `ArrayList.LlistToArrr` | src/goripy/array/list.py:59-68 | a `len(llist)` x `dim1` array whose row `i` starts with `llist[i]` when it fits and holds the padding value elsewhere; fails exactly when no width or padding exists, the width is negative, or some sublist of two or more elements is longer than the width (a one-element sublist broadcasts into a zero-width row) |
| `ArrayMisc.FirstIndex` | src/goripy/array/misc.py:21-24 | the index of the first occurrence of a value, none exactly when it is absent |
| `ArrayMisc.FirstArgwhereZidxs` | src/goripy/array/misc.py:5-26 | one index per value, in the order of `vals`, each the first occurrence (`arr[zidxs[j]] == vals[j]`); ValueError exactly when some value is absent |
| `ArrayMisc.Linspace` | src/goripy/array/misc.py:45 | `numpy.linspace`: `num` points, the first `start`, the last `stop` |
| `ArrayMisc.DiscreteLinspaceSizes` | src/goripy/array/misc.py:30-48 | `num - 1` sizes for `num >= 1`; a negative `num` is a ValueError |
| `ArrayMisc.StepsSum` | src/goripy/array/misc.py:46 | adjacent differences telescope to the last limit minus the first |
| `ArrayMisc.LinspaceSizesSum` | src/goripy/array/misc.py:45-46 | the sizes add up to `round(stop) - round(start)` with half-to-even rounding |
| `ArrayMisc.LinspaceSizesNonNeg` | src/goripy/array/misc.py:45-46 | from a lower start to a higher stop no size is negative |
| `ArrayPad.PadsCycle` | src/goripy/array/pad.py:21 | `pad_width * (num_dims // num_pads)` gives dimension `i` the pair `i mod len(pad_width)` |
| `ArrayPad.CropArrayPadsSpec` | src/goripy/array/pad.py:12-28 | a ValueError exactly when the dimension count is not a multiple of `len(pad_width)` (ZeroDivisionError for an empty one); otherwise the dimension count is kept and each dimension is the slice `[before, dim - after)` of its cyclic pair, never larger than before |
| `ArrayPad.CropStaysInside` | src/goripy/array/pad.py:23-28 | every index of the cropped array reads an element of the input at an index inside the input's shape |
| `ArrayPad.CropInRange` | src/goripy/array/pad.py:23-28 | with pads that fit, dimension `i` has size `dim_i - before_i - after_i` and the element at `idx` is the input element at `idx + before` |
| `ArrayRatio.Partition` | src/goripy/array/ratio.py:19-33 | one size per ratio: the rounded exact shares `ratios / sum(ratios) * total`, corrected by the error spread in `argsort` order of the rounding differences |
| `ArrayRatio.SharesSum` | src/goripy/array/ratio.py:19-21 | the exact (unrounded) shares add up to `total` |
| `ArrayRatio.RoundingGap` | src/goripy/array/ratio.py:22 | half-to-even rounding moves a sum of `n` values by at most `n / 2` |
| `ArrayRatio.ShortfallBound` | src/goripy/array/ratio.py:26 | the error `total - sum(rounded)` is at most half the number of partitions either way, so the correction slices never run out of indices |
| `ArrayRatio.SpreadSum` | src/goripy/array/ratio.py:30-31 | adding one at the first `d` argsort positions, or removing one at the last `-d`, changes the sum by exactly `d` |
| `ArrayRatio.PartitionSum` | src/goripy/array/ratio.py:26-31 | the returned sizes add up to exactly `total` |
| `ArrayRatio.PartitionAt` | src/goripy/array/ratio.py:22-31 | with a shortfall `d` the `d` entries with the smallest rounded-minus-exact difference gain one, with an excess the `-d` largest lose one, every other entry keeps its rounded share, and with no error the rounded shares are returned unchanged; ties follow any valid argsort order |
| `ArrayRatio.ScaleInvariant` | src/goripy/array/ratio.py:12-19 | scaling every ratio by the same non-zero factor leaves the shares and the result unchanged |
| `Base64.Encode` | src/goripy/mask/encode.py:35 | `base64.b64encode` per section 4 of RFC 4648: four characters per started group of three bytes, all from the alphabet or `=` |
| `Base64.DecodeEncode` | src/goripy/mask/encode.py:35-62 | `b64decode` inverts `b64encode` on every byte string |
| `MaskEncode.Payload` | src/goripy/mask/encode.py:29-35 | the bytes before Base64 are the RLE words followed by the ASCII shape digits; an empty mask fails inside `mask_to_rle` |
| `MaskEncode.EncodeMask` | src/goripy/mask/encode.py:9-38 | the Base64 text of the payload, failing exactly for a mask with no cells; being a function of the mask, equal masks give identical strings |
| `MaskEncode.ShapeText` | src/goripy/mask/encode.py:32 | `"{:04d}{:04d}"` of the shape is all digits and ASCII |
| `MaskEncode.ShapeLength` | src/goripy/mask/encode.py:32 | for H, W up to 9999 the shape text is exactly 8 characters, the first four H and the last four W |
| `MaskEncode.SplitShape` | src/goripy/mask/encode.py:64-66 | `b[:-8]` and `b[-8:]` split the decoded bytes, the suffix being the last 8 bytes (all of them if fewer) |
| `MaskEncode.ParseShapeText` | src/goripy/mask/encode.py:66-67 | the decoder reads H from the first four shape digits and W from the last four, giving back the encoded shape |
| `MaskEncode.ReadWords` | src/goripy/mask/encode.py:64 | `frombuffer(..., uint32)` reads the payload as 4-byte unsigned (non-negative) words |
| `MaskEncode.ReadWordsFour` | src/goripy/mask/encode.py:30-64 | runs written as 4-byte little-endian words read back unchanged |
| `MaskEncode.ReadWordsEight` | src/goripy/mask/encode.py:30-64 | runs written as 8-byte words (`int64.tobytes()`) read back as 4-byte words give each run followed by a 0 |
| `MaskEncode.DecodeMask` | src/goripy/mask/encode.py:42-71 | whatever `decode_mask` returns is a well-formed grid; text that is not canonical Base64 (whole four-letter groups from the alphabet, `=` only at the end), a payload that is not whole words or non-digit shape text are errors |
| `MaskEncode.DecodePayload` | src/goripy/mask/encode.py:62-69 | decoding the Base64 of whole words plus an 8-digit shape decodes those words with that shape |
| `MaskEncode.RunsBelow` | src/goripy/mask/encode.py:29-30 | the runs of a mask of at most 9999 by 9999 cells fit in 32 bits |
| `MaskEncode.RoundTripIntended` | src/goripy/mask/encode.py:9-71 | with 4-byte words, `decode_mask(encode_mask(m)) == m` for every mask with H, W in 1..9999 |
| `MaskEncode.DecodeAsWritten` | src/goripy/mask/encode.py:29-64 | as written (8-byte words), every such mask decodes as an all-false mask of its shape |
| `MaskEncode.AsWrittenLosesSingleCell` | src/goripy/mask/encode.py:9-71 | as written, the 1 x 1 mask `[true]` decodes as `[false]` |
| `MaskEncode.ParseShapeDigits` | src/goripy/mask/encode.py:66-67 | any eight ASCII digits parse to two numbers of at most 9999 |
| `MaskEncode.LargeShapeMisread` | src/goripy/mask/encode.py:32-67 | with H or W above 9999 the decoder never returns a mask of the original shape |
| `MaskRle.Changes` | src/goripy/mask/rle.py:22 | the run-boundary positions from `argwhere(logical_xor(flat[1:], flat[:-1])) + 1` lie strictly inside the flattened mask |
| `MaskRle.EncodeFlat` | src/goripy/mask/rle.py:20-27 | `mask_to_rle` on the column-major cells: at least one run, and an IndexError at `mask_flat[0]` exactly when there are no cells |
| `MaskRle.MaskToRle` | src/goripy/mask/rle.py:5-27 | the encoder reads the grid in column-major (`ravel(order="F")`) order and fails exactly on a mask with zero cells |
| `MaskRle.RunsFrom` | src/goripy/mask/rle.py:22-24 | from any run boundary on, the adjacent differences are positive, sum to the remaining length and spell out the remaining cells as alternating runs |
| `MaskRle.EncodeFlatRuns` | src/goripy/mask/rle.py:22-25 | the runs sum to H·W, a leading 0 appears exactly when the first column-major cell is true, every other run is positive, and the runs alternate false/true starting with false to spell out the cells |
| `MaskRle.CumSum` | src/goripy/mask/rle.py:51 | `numpy.cumsum`: entry `i` is the sum of the first `i + 1` runs |
| `MaskRle.PairSlice` | src/goripy/mask/rle.py:52-53 | pair `m` paints the Python slice `[cum[2m]:cum[2m+1]]`, clipped to the buffer |
| `MaskRle.Painted` | src/goripy/mask/rle.py:49-53 | the buffer after `k` pairs: an all-false buffer of H·W cells with each pair's slice set to true |
| `MaskRle.Decoded` | src/goripy/mask/rle.py:31-55 | `rle_to_mask` returns an H x W grid read back in column-major order; a negative dimension is a ValueError |
| `MaskRle.RleToMask` | src/goripy/mask/rle.py:49-55 | the loop decoder returns exactly `Decoded`: every pair of cumulative sums painted true onto a zero buffer, an unpaired last sum ignored |
| `MaskRle.PaintPairs` | src/goripy/mask/rle.py:51-53 | the loop paints the `|rle| / 2` pairs in order onto the buffer |
| `MaskRle.SetTrue` | src/goripy/mask/rle.py:53 | the slice assignment `mask_flat[lo:hi] = 1` sets exactly `[lo, hi)` and keeps every other cell |
| `MaskRle.ExpandLength` | src/goripy/mask/rle.py:49-53 | the cells spelled out by a run list number exactly the sum of the runs |
| `MaskRle.PaintedPrefix` | src/goripy/mask/rle.py:52-53 | after `k` pairs the buffer is the alternating expansion of the first `2k` runs, cut or padded with false to H·W |
| `MaskRle.PaintedRuns` | src/goripy/mask/rle.py:49-53 | the decoded buffer is the alternating expansion of all runs, cut or padded with false; a final unpaired run changes nothing |
| `MaskRle.RoundTrip` | src/goripy/mask/rle.py:5-55 | for every mask with H·W ≥ 1, `rle_to_mask(mask_to_rle(m), (H, W)) == m` |
| `FileMask.MaskToRle` | src/goripy/file/mask.py:5-23 | the copy in `file/mask.py` computes the same function as `MaskRle.MaskToRle` |
| `FileMask.RleToMask` | src/goripy/file/mask.py:27-46 | the copy's loop decoder returns exactly what the `mask/rle.py` decoder returns |
| `FileMask.EncoderRuns` | src/goripy/file/mask.py:16-21 | the copy's runs sum to H·W, with a leading 0 exactly when the first column-major cell is true, every other run positive |
| `FileMask.RoundTrip` | src/goripy/file/mask.py:5-46 | the round trip holds for the copy: decoding its runs with the mask's shape gives the mask back |
| `MaskBbox.AnyCols` | src/goripy/mask/bbox.py:16 | `numpy.any(mask, axis=0)`: entry `j` is true exactly when column `j` holds a true cell |
| `MaskBbox.AnyRows` | src/goripy/mask/bbox.py:21 | `numpy.any(mask, axis=1)`: entry `i` is true exactly when row `i` holds a true cell |
| `MaskBbox.First` | src/goripy/mask/bbox.py:18 | the first true index of a profile, none exactly when the profile is all false |
| `MaskBbox.Last` | src/goripy/mask/bbox.py:19 | the last true index of a profile, none exactly when the profile is all false |
| `MaskBbox.BboxSpec` | src/goripy/mask/bbox.py:16-26 | the box exists exactly when some cell is true (an all-false mask is the IndexError of the `x0` scan); then 0 ≤ x0 < x1 ≤ W and 0 ≤ y0 < y1 ≤ H, the first and last columns and rows of the box hold a true cell, and every true cell lies in `[y0, y1) × [x0, x1)` |
| `MaskBbox.ScanForward` | src/goripy/mask/bbox.py:18-23 | `while not s[k]: k += 1` stops at the first true entry, or runs off the end when there is none |
| `MaskBbox.ScanBackward` | src/goripy/mask/bbox.py:19-24 | `while not s[k - 1]: k -= 1` stops one past the last true entry |
| `MaskBbox.MaskToBbox` | src/goripy/mask/bbox.py:5-26 | the four scans return exactly the box `Bbox` describes, or the IndexError |
| `CvatMask.MaskItem.Set` | src/goripy/cvat/mask.py:81-86 | `item.set(key, value)` maps `key` to `value` and keeps every other attribute |
| `CvatMask.ParseInts` | src/goripy/cvat/mask.py:37 | `map(int, parts)`: one integer per part, each the parse of its part; an error exactly when some part, once stripped of surrounding whitespace, is not an optional sign followed by ASCII digit groups joined by single `_` |
| `Decimal.ParseGroupedSpec` | src/goripy/mask/encode.py:67 | `int` reads a body of digits exactly when it is digit groups joined by single `_` (no leading, trailing or doubled `_`), and its value is that of the digits with the `_` dropped |
| `Decimal.ParseIntSpace` | src/goripy/mask/encode.py:67 | whitespace before or after the text does not change what `int` reads |
| `Decimal.ParseIntUnderscore` | src/goripy/mask/encode.py:67 | an `_` between two digit groups does not change what `int` reads |
| `Decimal.ParseIntToDecimal` | src/goripy/cvat/mask.py:37 | `int(str(n)) == n` for every integer |
| `Decimal.ParseRealSpace` | src/goripy/cvat/mask.py:39-42 | whitespace before or after the text does not change what `float` reads |
| `CvatMask.Paste` | src/goripy/cvat/mask.py:46-47 | the result is an `img_h` x `img_w` mask that equals the decoded crop inside the clipped slice `[top, top+height) × [left, left+width)` and is false outside it; a region the crop cannot be broadcast to is a ValueError |
| `CvatMask.ReadMask` | src/goripy/cvat/mask.py:10-49 | whatever `read_mask_from_xml_item` returns has shape `img_h` x `img_w` |
| `CvatMask.ReadMaskFromItem` | src/goripy/cvat/mask.py:37-49 | reading an item decodes `rle_to_mask(rle, (w, h)).T` and pastes it into a zero image, exactly as `ReadMask` describes |
| `CvatMask.PasteMethod` | src/goripy/cvat/mask.py:46-47 | the zero array with one slice assignment is exactly `Paste` |
| `CvatMask.PasteInto` | src/goripy/cvat/mask.py:47 | the slice assignment writes the crop into its rectangle and leaves every other cell false |
| `CvatMask.RunTexts` | src/goripy/cvat/mask.py:79 | one decimal text per run, `str(n)` of each |
| `CvatMask.WrittenCrop` | src/goripy/cvat/mask.py:73-76 | the encoded crop is the box crop of the transpose: `x1 - x0` rows by `y1 - y0` columns, at least one cell |
| `CvatMask.WrittenBox` | src/goripy/cvat/mask.py:72-75 | the box found on the transpose, axes named back, lies inside the mask |
| `CvatMask.SetAttrs` | src/goripy/cvat/mask.py:81-86 | the five `set` calls: `rle` is the joined run text, `left`/`top`/`width`/`height` are x0, y0, x1 − x0, y1 − y0 in decimal, every other attribute is kept |
| `CvatMask.WrittenFields` | src/goripy/cvat/mask.py:72-79 | the stored box lies inside the mask |
| `CvatMask.ComputeFields` | src/goripy/cvat/mask.py:72-79 | transpose, bounding box, crop, RLE and join compute exactly `WrittenFields` |
| `CvatMask.Store` | src/goripy/cvat/mask.py:81-86 | the five `item.set` calls leave the item's attributes equal to `SetAttrs` of the old ones |
| `CvatMask.WriteMaskToItem` | src/goripy/cvat/mask.py:53-86 | on success the item's attributes are `Written`; on failure the error is returned and the item is unchanged; the mask is a value, so the caller's mask is never modified |
| `CvatMask.ColsOfTranspose` | src/goripy/cvat/mask.py:73-75 | the column profile of the transpose is the row profile of the mask, and the other way round |
| `CvatMask.WrittenBoxIsBbox` | src/goripy/cvat/mask.py:73-75 | the box read off the transpose, axes swapped back, is the mask's own bounding box |
| `CvatMask.WrittenFails` | src/goripy/cvat/mask.py:75 | writing fails, with the IndexError of `mask_to_bbox`, exactly on an all-false mask |
| `CvatMask.WrittenAttrs` | src/goripy/cvat/mask.py:75-86 | a successful write stores the bounding box of the mask in `left`/`top`/`width`/`height` and the run text of its crop in `rle` |
| `CvatMask.ParseRunTexts` | src/goripy/cvat/mask.py:37-79 | the decimal texts of the runs parse back to the runs |
| `CvatMask.ReadRleText` | src/goripy/cvat/mask.py:37-79 | splitting the `", "`-joined run text and parsing gives the runs back |
| `CvatMask.ReadRoundedText` | src/goripy/cvat/mask.py:39-86 | `round(float(str(n))) == n` for the stored box numbers |
| `CvatMask.ReadSetAttrs` | src/goripy/cvat/mask.py:37-86 | reading the five attributes `write` sets gives back the runs and the box |
| `CvatMask.CropOfTranspose` | src/goripy/cvat/mask.py:44-76 | transposing the written crop gives the row-major box crop of the mask |
| `CvatMask.PasteCrop` | src/goripy/cvat/mask.py:46-47 | pasting the box crop at the box into a zero image restores a mask whose true cells all lie in the box |
| `CvatMask.WriteReadRoundTrip` | src/goripy/cvat/mask.py:10-86 | for a mask with a true cell, reading back what `write` stored, with the mask's own H and W, gives the mask |
| `CvatAnno.OwnerSpec` | src/goripy/cvat/anno.py:28-34 | a frame's job is that of a covering segment that no later segment covers (document order, later wins), and there is none exactly when no segment covers the frame |
| `CvatAnno.LaterWins` | src/goripy/cvat/anno.py:28-34 | a segment applied later overrides every earlier one on the frames it covers |
| `CvatAnno.UncoveredKeeps` | src/goripy/cvat/anno.py:34 | a segment leaves the frames it does not cover unchanged |
| `CvatAnno.CoversInRange` | src/goripy/cvat/anno.py:34 | a segment with non-negative bounds covers exactly frames `start..stop` (inclusive) below the array length, so a `stop` past the end is clipped silently |
| `CvatAnno.Fill` | src/goripy/cvat/anno.py:34 | the slice assignment sets exactly `[lo, hi)` to the job number and keeps every other entry |
| `CvatAnno.ComputeJobNums` | src/goripy/cvat/anno.py:7-36 | a fresh array of `stop_frame + 1` entries in which every covered frame holds the job of the last covering segment; uncovered frames are unspecified (`numpy.empty`); a negative size is a ValueError |
| `GpuAlloc.BestFit` | src/goripy/gpu/alloc.py:62-74 | among devices with remaining capacity ≥ the request, the one with the least remaining capacity, lowest index on ties; none exactly when no device has room |
| `GpuAlloc.BestFitUnique` | src/goripy/gpu/alloc.py:73-74 | the best-fit device is unique, so `argmin` over `flatnonzero` finds exactly it |
| `GpuAlloc.Alloc` | src/goripy/gpu/alloc.py:62-83 | `allocate` fails with ValueError exactly when no device has enough capacity, and otherwise grants the best-fit device |
| `GpuAlloc.AllocEffect` | src/goripy/gpu/alloc.py:78-83 | after a successful allocate the chosen device's capacity drops by `req`, every other device is unchanged, the tenant maps to `(device, req)` and every other record is kept |
| `GpuAlloc.Dealloc` | src/goripy/gpu/alloc.py:108-118 | `deallocate` of an unknown tenant changes nothing; otherwise the tenant's record is removed and the device count kept |
| `GpuAlloc.AllocValid` | src/goripy/gpu/alloc.py:78-83 | every recorded device still exists after an allocate |
| `GpuAlloc.AllocDealloc` | src/goripy/gpu/alloc.py:78-118 | `allocate(t, r)` then `deallocate(t)`, for a `t` not present before, restores the capacities and the tenant map |
| `GpuAlloc.ReallocLeaks` | src/goripy/gpu/alloc.py:80-118 | re-allocating an existing tenant overwrites its record, so after a deallocate its earlier reservation stays taken with no tenant holding it |
| `GpuAlloc.DeviceAllocator.constructor` | src/goripy/gpu/alloc.py:22-35 | a copy of the capacities and an empty tenant map |
| `GpuAlloc.DeviceAllocator.Allocate` | src/goripy/gpu/alloc.py:38-87 | updates the capacity array and tenant map in place to `Alloc`'s new state and returns the device; on the error path nothing changes |
| `GpuAlloc.DeviceAllocator.Deallocate` | src/goripy/gpu/alloc.py:90-120 | updates the state in place to `Dealloc` of the old state |
| `GpuAlloc.DeviceAllocator.TenantIds` | src/goripy/gpu/alloc.py:123-137 | returns exactly the keys of the tenant map, each once |
| `Multibatch.PickSpec` | src/goripy/mldl/multibatch.py:111-112 | the picked loader has the smallest progress ratio `curr / len`, lowest index on ties |
| `Multibatch.PickUnfinished` | src/goripy/mldl/multibatch.py:109-112 | while some loader is unfinished, a finished one is never picked |
| `Multibatch.PerBatch` | src/goripy/mldl/multibatch.py:99 | items per batch of loader `i` is `batch_size[i] * point_size[i] * world_size`, with the point size a (possibly fractional) real, so the product is a real as numpy's float product is |
| `Multibatch.ItemsStep` | src/goripy/mldl/multibatch.py:114-115 | one more batch from loader `d` adds that loader's items per batch to the step's items |
| `Multibatch.Fill` | src/goripy/mldl/multibatch.py:106-117 | the inner loop keeps the shapes of the progress and the step row |
| `Multibatch.FillProgress` | src/goripy/mldl/multibatch.py:109-117 | the inner loop moves no loader past its length and, from an unfinished state, makes progress |
| `Multibatch.FillColumns` | src/goripy/mldl/multibatch.py:114-117 | the inner loop adds to the step row exactly the batches it takes from each loader |
| `Multibatch.FillEnough` | src/goripy/mldl/multibatch.py:109 | the inner loop stops with at least `min_step_items` items unless every loader is finished |
| `Multibatch.FillItems` | src/goripy/mldl/multibatch.py:115 | the inner loop's item count is the items of the batches it added |
| `Multibatch.Steps` | src/goripy/mldl/multibatch.py:104-119 | every step row has one entry per loader |
| `Multibatch.StepsColumns` | src/goripy/mldl/multibatch.py:104-119 | each loader's column sums to its length less the progress already made |
| `Multibatch.StepsMinItems` | src/goripy/mldl/multibatch.py:106-119 | every step row except the last accounts for at least `min_step_items` items |
| `Multibatch.MultibatchesSpec` | src/goripy/mldl/multibatch.py:68-121 | the dataloader schedule: one entry per loader in every row, each column summing to that loader's `dataloader_len`, every row but the last holding at least `min_step_items` items, counted as the real sum of batches times fractional items per batch; `numpy.stack` of no rows (all lengths 0) is a ValueError |
| `Multibatch.ComputeMultibatchesDataloader` | src/goripy/mldl/multibatch.py:96-121 | the two nested `while` loops compute exactly the schedule `Multibatches` describes |
| `Multibatch.FillStep` | src/goripy/mldl/multibatch.py:106-117 | the inner `while` loop computes exactly `Fill` from a zero row |
| `Multibatch.DsFillShape` | src/goripy/mldl/multibatch.py:42-60 | the dataset variant's inner loop keeps the shapes of the progress and the row |
| `Multibatch.DatasetOvershoots` | src/goripy/mldl/multibatch.py:40-58 | as written, one dataset of one point with point size 2.0 never finishes: progress jumps to 2, past the length 1, and the equality exit test never fires |
| `Multibatch.DsFillStep` | src/goripy/mldl/multibatch.py:45-60 | the dataset variant's inner `while` loop as written computes exactly `DsFill` |
| `Multibatch.ComputeMultibatchesDataset` | src/goripy/mldl/multibatch.py:33-64 | the dataset variant's nested loops as written compute exactly `MultibatchesDataset` within the given number of iterations |
| `Multibatch.FixFillProgress` | src/goripy/mldl/multibatch.py:50-58 | with progress counted in points, the inner loop moves no dataset past its length and makes progress |
| `Multibatch.BatchesLeftStep` | src/goripy/mldl/multibatch.py:50-53 | taking `min(batch, len - curr)` points leaves one batch fewer to come |
| `Multibatch.FixColumns` | src/goripy/mldl/multibatch.py:50-57 | with progress counted in points, the inner loop's row plus the batches left afterwards equals the batches left before |
| `Multibatch.FixEnough` | src/goripy/mldl/multibatch.py:45 | the corrected inner loop stops with at least `min_step_items` items unless every dataset is finished |
| `Multibatch.FixStepsColumns` | src/goripy/mldl/multibatch.py:40-62 | with progress counted in points, dataset `j` is read in exactly `ceil((len - curr) / batch)` batches |
| `Multibatch.FixedMultibatchesSpec` | src/goripy/mldl/multibatch.py:5-64 | the corrected dataset schedule reads every dataset in `ceil(len / (batch_size * world_size))` batches whatever the point sizes; all lengths 0 is a ValueError |
| `Multibatch.AgreeFill` | src/goripy/mldl/multibatch.py:45-60 | with point size 1.0 the inner loop as written, whenever it finishes, ends where the corrected one does |
| `Multibatch.AgreeMultibatches` | src/goripy/mldl/multibatch.py:5-64 | with every point size 1.0, the dataset variant as written returns, whenever it returns, the corrected schedule, so every dataset is read to its full `dataset_len` |
| `VarLen2DList.Get` | src/goripy/store/varlen2dlist.py:38-43 | `storage[idx]` is an IndexError exactly when `idx` is outside `-n..n-1`; otherwise it is a row of at most the array's width |
| `VarLen2DList.GetPrefix` | src/goripy/store/varlen2dlist.py:38-43 | a row whose recorded length fits reads back as its first `len` cells, from a non-negative or the matching negative index |
| `VarLen2DList.FromList` | src/goripy/store/varlen2dlist.py:46-78 | `from_2d_list` fails with ValueError exactly on an empty list; otherwise the lengths are the row lengths, the width is the largest of them, and every row reads back unchanged |
| `VarLen2DList.Count` | src/goripy/store/varlen2dlist.py:113 | a row's count of entries differing from `invalid` is at most its length |
| `VarLen2DList.FromArraySpec` | src/goripy/store/varlen2dlist.py:81-116 | `from_2d_numpy_array` fails with ValueError exactly on an empty array; otherwise each row's length is its count of non-`invalid` entries and the columns are cut to the largest count |
| `VarLen2DList.FromArrayPadded` | src/goripy/store/varlen2dlist.py:81-116 | rows padded on the right with `invalid` (and free of it inside) read back unchanged |
| `VarLen2DList.InteriorInvalid` | src/goripy/store/varlen2dlist.py:113-114 | an `invalid` entry inside a row is counted out, not treated as an end: `[1, 0, 1]` with invalid 0 reads back as `[1, 0]` |
| `VarLen2DList.GetNumBytes` | src/goripy/store/varlen2dlist.py:166-183 | the byte count is the value array's cells times the value item size plus the lengths times the length item size |
| `ImgBorderFill.FillRect` | src/goripy/img/border_fill.py:166-171 | one slice assignment `arr[r0:r1, c0:c1] = v` sets exactly the cells of that rectangle and leaves every other cell as it was |
| `ImgBorderFill.FillRegions` | src/goripy/img/border_fill.py:165-233 | with `fill_border` the four border slices are overwritten, otherwise the centre slice, each bound normalised as a Python slice; every other cell keeps its value |
| `ImgBorderFill.FillBorderAbs` | src/goripy/img/border_fill.py:117-171 | `fill_border_abs` fails, leaving the image untouched, exactly when the fill value cannot be expanded to one value per channel; otherwise the centre is `[top_b, H - bot_b) x [left_b, W - right_b)` and the border (or centre) cells take the expanded value |
| `ImgBorderFill.FillBorderRel` | src/goripy/img/border_fill.py:175-233 | `fill_border_rel` is the same with the centre at `round(H * top_br / 2)` to `round(H * (1 - bot_br / 2))` and likewise across |
| `ImgBorderFill.BorderIsComplement` | src/goripy/img/border_fill.py:165-171 | with ordered in-range bounds, filling the border and filling the centre touch complementary sets of cells |
| `ImgBorderFill.AbsBoundsInRange` | src/goripy/img/border_fill.py:160-169 | border widths that fit the image make the border exactly the rows above `top_b`, the last `bot_b` rows, the columns left of `left_b` and the last `right_b` columns |
| `ImgBorderFill.HalfRatio` | src/goripy/img/border_fill.py:222-225 | a ratio in `[0, 1]` of half a dimension, rounded, lands between 0 and the far-side bound |
| `ImgBorderFill.RelBoundsInRange` | src/goripy/img/border_fill.py:194-225 | ratios in the documented `[0, 1]` interval give ordered in-range centre bounds |
| `ImgBorderFill.RandomBorderFiller.constructor` | src/goripy/img/border_fill.py:34-63 | the filler stores the drawn ratios, `fill_border` and `fill_value` |
| `ImgBorderFill.RandomBorderFiller.Call` | src/goripy/img/border_fill.py:80-113 | calling the filler is `fill_border_rel` with the stored ratios, each `None` override replaced by the stored value |
| `ImgMaskCrop.NewSizeBounds` | src/goripy/img/mask_crop.py:58-65 | with a border ratio in `[0, 1)` the square side is at least `min_size` and at least the box's height and width |
| `ImgMaskCrop.AxisSpanSpec` | src/goripy/img/mask_crop.py:71-97 | a run of at least the box's extent centred on the box, cut to the image, contains the box, and the original and square copy windows are ordered, in range and of equal extent |
| `ImgMaskCrop.FitWindowsSpec` | src/goripy/img/mask_crop.py:50-97 | what `fit` computes from a non-empty mask: a side of at least `min_size` and the box extents, copy windows that are valid and contain the whole box |
| `ImgMaskCrop.BoxOfMask` | src/goripy/img/mask_crop.py:51 | the bounding box `fit` reads fails with IndexError exactly on an all-false mask and otherwise lies inside the mask |
| `ImgMaskCrop.CopyWindow` | src/goripy/img/mask_crop.py:154-155 | the window of the image is copied into the square window and no other cell of the crop changes |
| `ImgMaskCrop.BuildCrop` | src/goripy/img/mask_crop.py:138-162 | the fresh `new_size x new_size` crop holds the image's window inside the copy window and the background everywhere else |
| `ImgMaskCrop.SquareMaskCropper.constructor` | src/goripy/img/mask_crop.py:16-20 | a new cropper is not fitted |
| `ImgMaskCrop.SquareMaskCropper.Fit` | src/goripy/img/mask_crop.py:23-101 | `fit` fails with IndexError, changing nothing, exactly on an all-false mask; otherwise the cropper is fitted and its fields are the windows `FitWindows` computes from the mask's box |
| `ImgMaskCrop.SquareMaskCropper.Store` | src/goripy/img/mask_crop.py:67-101 | the field assignments of `fit` store the window and mark the cropper fitted |
| `ImgMaskCrop.SquareMaskCropper.Crop` | src/goripy/img/mask_crop.py:104-164 | `crop` before `fit` is a ValueError; otherwise it fails exactly when the background cannot be expanded to the channels, and else returns the fresh square holding the fitted window of the image and the background elsewhere |
| `ImgMaskCropper.SquareMaskCropper.constructor` | src/goripy/img/mask_cropper.py:14-18 | a new cropper is not fitted |
| `ImgMaskCropper.SquareMaskCropper.Fit` | src/goripy/img/mask_cropper.py:21-98 | the older `fit` fails with IndexError, changing nothing, exactly on an all-false mask; otherwise it stores the same windows as the newer copy |
| `ImgMaskCropper.SquareMaskCropper.Store` | src/goripy/img/mask_cropper.py:64-98 | the field assignments of `fit` store the window and mark the cropper fitted |
| `ImgMaskCropper.SquareMaskCropper.Crop` | src/goripy/img/mask_cropper.py:101-127 | as written, `crop` before `fit` is a ValueError and after `fit` always the TypeError of calling `arg_list_to_arg_arr` without its `target_dtype` |
| `ImgUtils.TargetSizeMax` | src/goripy/img/utils.py:33-37 | a zero current side is a ZeroDivisionError and nothing else is |
| `ImgUtils.TargetSizeMin` | src/goripy/img/utils.py:75-79 | a zero current side is a ZeroDivisionError and nothing else is |
| `ImgUtils.ScaledPair` | src/goripy/img/utils.py:36-47 | the side scaled by its own ratio lands on its target; the other side, rounded, is within half a unit of its exact scaled length and on the right side of its own target |
| `ImgUtils.TargetSizeMaxSpec` | src/goripy/img/utils.py:11-49 | `compute_target_img_size_max` fits inside `max_size`, meets it on one side, and is the current size scaled by the smaller ratio up to rounding |
| `ImgUtils.TargetSizeMinSpec` | src/goripy/img/utils.py:53-91 | `compute_target_img_size_min` covers `min_size`, meets it on one side, and is the current size scaled by the larger ratio up to rounding |
| `ImgUtils.PadFillImg` | src/goripy/img/utils.py:124-133 | as written, `pad_fill_img` never returns: a shape of neither 2 nor 3 dimensions is a ValueError and every other image the TypeError of the two-argument `arg_list_to_arg_arr` call |
| `ImgUtils.U16` | src/goripy/img/utils.py:129 | `astype(numpy.uint16)` gives a value below 65536 and keeps one already in range |
| `ImgUtils.FillRegionsComplement` | src/goripy/img/utils.py:155-167 | the four corners and four sides cover exactly the cells outside the copied rectangle |
| `ImgUtils.FillEight` | src/goripy/img/utils.py:155-167 | the eight fill assignments set exactly the cells of those regions and leave the rest |
| `ImgUtils.PadFillImgIntended` | src/goripy/img/utils.py:95-169 | with `target_dtype` supplied, the padded image is fresh, of the expanded size cast to `uint16`, holds the image at offset `((S_h - h) // 2, (S_w - w) // 2)` and the fill value everywhere else; it succeeds exactly when the shape has 2 or 3 dimensions, both expansions succeed and each image side fits its target side (or is a single row or column broadcast into a zero-sized target, giving an empty image); otherwise the ValueError or the expansion's own error |
| `PlotGrid.CeilDiv` | src/goripy/plot/grid.py:59-60 | `math.ceil(a / b)` is the least `q` with `q * b >= a` |
| `PlotGrid.CeilDivBack` | src/goripy/plot/grid.py:58-60 | from `ceil(size / k)` rows, `ceil(size / rows)` columns never exceed `k`, so each step has fewer columns |
| `PlotGrid.Next` | src/goripy/plot/grid.py:58-64 | one loop step keeps `ncols * nrows >= size` and strictly lowers `ncols` |
| `PlotGrid.SwappedReverse` | src/goripy/plot/grid.py:69-71 | the comprehension over `[::-1]` gives the pairs in reverse order, each swapped |
| `PlotGrid.StopIndex` | src/goripy/plot/grid.py:80-82 | the `curr_idx` loop stops at the first index whose next distance is not smaller, or at the next-to-last index |
| `PlotGrid.EnumCovers` | src/goripy/plot/grid.py:56-64 | every appended pair has at least `size` cells, exactly `size` when `allow_diff_size` is false |
| `PlotGrid.MirrorSymmetric` | src/goripy/plot/grid.py:68-71 | the candidate list read backwards is the list with each pair swapped |
| `PlotGrid.CandidatesGood` | src/goripy/plot/grid.py:53-71 | every candidate is a grid of at least `size` cells, of exactly `size` when sizes may not differ |
| `PlotGrid.BestGridDimsCovers` | src/goripy/plot/grid.py:5-84 | a returned `(ncols, nrows)` holds at least `size` plots, exactly `size` when `allow_diff_size` is false |
| `PlotGrid.NonPositiveSizeFails` | src/goripy/plot/grid.py:48-68 | a size below 1 ends in the IndexError of `ncols_nrows_list[-1]` |
| `PlotGrid.FiveHasNoGrid` | src/goripy/plot/grid.py:62-68 | as written, size 5 without `allow_diff_size` is an IndexError: only `(5, 1)` is listed and `[:-1]` removes it |
| `PlotGrid.IntendedAlwaysGrid` | src/goripy/plot/grid.py:5-84 | with `[:-1]` dropping only a pair that crossed the diagonal, every positive size gets a grid of at least (or, without `allow_diff_size`, exactly) `size` cells |
| `PlotGrid.IntendedCandidatesGood` | src/goripy/plot/grid.py:55-70 | with the intended `[:-1]`, the mirrored candidate list has at least two entries, each a grid of at least (or, without `allow_diff_size`, exactly) `size` cells |
| `PlotGrid.EnumEndsCrossed` | src/goripy/plot/grid.py:56-64 | when every pair is appended, the last one has fewer columns than rows |
| `PlotGrid.IntendedAgreesDiffAllowed` | src/goripy/plot/grid.py:62-68 | with `allow_diff_size` the code as written and the intended reading return the same result |
| `PlotGrid.EnumerateCandidates` | src/goripy/plot/grid.py:53-64 | the `while ncols >= nrows` loop builds exactly `(size, 1)` followed by the enumerated pairs |
| `PlotGrid.ScanStop` | src/goripy/plot/grid.py:80-82 | the `curr_idx` loop stops at `StopIndex` |
| `PlotGrid.ComputeBest2dGridDims` | src/goripy/plot/grid.py:5-84 | the function step by step returns exactly `BestGridDims` |
| `StrUtils.RangeStep` | src/goripy/str.py:14 | `range(0, n, step)` is the increasing run `0, step, 2*step, ...` below `n`, its last element within one step of `n` |
| `StrUtils.Slices` | src/goripy/str.py:17-20 | the comprehension over `zip(idxs[:-1], idxs[1:])` yields one slice per pair of consecutive cut points |
| `StrUtils.FlattenSlices` | src/goripy/str.py:17-20 | the slices between consecutive cut points, concatenated, span the first to the last cut |
| `StrUtils.LinesSpec` | src/goripy/str.py:1-22 | `add_newlines` joins with newlines lines that partition the input in order, each but the last exactly `line_len` long and the last 1 to `line_len` long |
| `StrUtils.LineBoundsCut` | src/goripy/str.py:14-15 | the cut points run from 0 to `len(orig_str)` in order |
| `StrUtils.AddNewlinesErrors` | src/goripy/str.py:14-15 | `add_newlines` fails exactly when `line_len` is missing (TypeError), zero (ValueError), or negative or the string empty (IndexError at `[-1]`) |
| `StrUtils.AddNewlinesRoundTrip` | src/goripy/str.py:1-22 | removing the inserted newlines from the result gives back an input that had none of its own |
| `StrUtils.DropLast` | src/goripy/str.py:50-64 | `s[:-1]` is the prefix one shorter, or empty |
| `StrUtils.AddNewlinesWhitespace` | src/goripy/str.py:25-66 | the token loop computes `WrapAll` of the whitespace tokens, and the final character is dropped |
| `StrUtils.WrapAllWords` | src/goripy/str.py:46-62 | after each token the text is empty or ends in whitespace and splits into exactly the tokens so far |
| `StrUtils.StepWords` | src/goripy/str.py:48-62 | one iteration keeps that invariant and adds its token |
| `StrUtils.WrapKeepsWords` | src/goripy/str.py:25-66 | the output of `add_newlines_whitespace` splits into exactly the input's whitespace-separated tokens: only separators change |
| `StrUtils.WrapAllUnlimited` | src/goripy/str.py:40-57 | with both limits infinite the loop only appends each token and a space |
| `StrUtils.UnlimitedJoins` | src/goripy/str.py:40-66 | with both limits infinite the output is the tokens joined by single spaces |
| `StrUtils.StepBreaks` | src/goripy/str.py:48-62 | a token that would pass `max_len` starts a new line with its length plus one; a line reaching `min_len` ends in a newline and restarts at 0; otherwise the token and a space are appended |
| `Log.TqdmLinesSpec` | src/goripy/log.py:29-35 | `TqdmLogger.write` logs at most one record, never an empty one, free of `\n` and `\r` and holding every other character of the message in order |
| `Log.TqdmLogger.constructor` | src/goripy/log.py:19-26 | the writer keeps its logger and level |
| `Log.TqdmLogger.Write` | src/goripy/log.py:29-35 | `write` appends to the logger exactly the records `TqdmLines` describes, at the writer's level |
| `Log.TqdmLogger.Flush` | src/goripy/log.py:38-39 | `flush` logs nothing |
| `Log.FeedKeepsText` | src/goripy/log.py:81-87 | the chunk loop loses and adds nothing: the logged messages followed by the new buffer are the old buffer followed by the chunks, and the buffer ends as the last chunk |
| `Log.FeedMessages` | src/goripy/log.py:81-87 | every message the chunk loop logs is non-empty, and chunks free of a character keep it out of the buffer and the messages |
| `Log.ChunksSpec` | src/goripy/log.py:78 | the chunks of `message.split("\n")` hold no `\n` and together are the message without its `\n` |
| `Log.WriteOutSpec` | src/goripy/log.py:76-87 | one `write` logs non-empty messages free of `\n` that, followed by the new buffer, are the old buffer plus the message without its `\n`; the buffer keeps the text after the last `\n`, or grows by the whole message |
| `Log.WriteKeeps` | src/goripy/log.py:76-87 | a `write` keeps the writer's invariant: the messages it logged, non-empty and free of `\n`, followed by the buffer are all text written without its `\n` |
| `Log.StderrLogger.constructor` | src/goripy/log.py:57-66 | the writer starts with an empty buffer and its invariant holds |
| `Log.StderrLogger.Write` | src/goripy/log.py:76-87 | whatever the logger holds, `write` sets the buffer and appends to the logger exactly the records `WriteOut` says, and keeps the invariant: the messages this writer logged plus the buffer are everything written without its `\n` |
| `Log.StderrLogger.Del` | src/goripy/log.py:69-73 | whatever the logger holds, `__del__` logs a non-empty buffer once and empties it, keeping the invariant |
| `Log.StderrLogger.Flush` | src/goripy/log.py:90-91 | `flush` changes neither the buffer nor the records |
| `DictUtils.FindKey` | src/goripy/dict.py:36 | the index found holds the key and no earlier item does; nothing is found exactly when no item has the key |
| `DictUtils.ChainGet` | src/goripy/dict.py:7-40 | `chain_get` returns the value the keys reach one lookup after the other, or `default` as soon as a lookup raises |
| `DictUtils.ChainNoneStays` | src/goripy/dict.py:33-38 | once a lookup fails, every longer chain gives the default: the loop stops at the first failure |
| `DictUtils.ChainAppend` | src/goripy/dict.py:33-36 | looking up `k1` and then `k2` from the result is looking up `k1 + k2` |
| `DictUtils.ChainThroughDicts` | src/goripy/dict.py:33-36 | a present key leads into its nested value, from which the remaining keys go on |
| `DictUtils.NonContainerFails` | src/goripy/dict.py:35-38 | indexing a non-container, `None`, or a list with a string key gives the default |
| `DictDepth.NewUuid` | src/goripy/dict/depth.py:49 | the drawn flat key is not yet in the flat dict |
| `DictDepth.FlattenRec` | src/goripy/dict/depth.py:36-53 | `_flatten_recursive` only adds to the shared flat dict, one new key per leaf and none already there; the key map has the dict's keys in order, a nested key map exactly for each value whose type is `dict`, and unflattens back to the items |
| `DictDepth.Flatten` | src/goripy/dict/depth.py:5-32 | `flatten` gives a flat dict with one entry per leaf and a key map mirroring the nested dict, which together unflatten back to it |
| `DictDepth.ErrorStays` | src/goripy/dict/depth.py:94-99 | a missing flat key stops `_unflatten_recursive` with that KeyError |
| `DictDepth.UnflattenRec` | src/goripy/dict/depth.py:87-101 | the loop of `_unflatten_recursive` computes exactly `UnflattenPrefix`: nested key maps become nested dicts, flat keys their values, a missing key a KeyError |
| `DictDepth.UnflattenMethod` | src/goripy/dict/depth.py:57-83 | `unflatten` wraps the recursive result in a dict |
| `DictDepth.RoundTrip` | src/goripy/dict/depth.py:5-101 | `unflatten(*flatten(d)) == d` for every nested dict and every choice of fresh keys |
| `DictDepth.EmptyAndSubclass` | src/goripy/dict/depth.py:45-51 | an empty nested dict becomes an empty key map and no leaf, while an instance of a dict subclass is a single leaf |
| `DictDepth.AppendKeeps` | src/goripy/dict/depth.py:43-47 | appending to the key map leaves what its earlier items unflatten to unchanged |
| `DictDepth.ExtendKeeps` | src/goripy/dict/depth.py:49-51 | adding entries to the flat dict does not change what an already-covered key map unflattens to |
| `TimeUtils.FloorModBounds` | src/goripy/time.py:31-35 | Python's float `%` by a positive modulus lands in `[0, m)` |
| `TimeUtils.SplitTime` | src/goripy/time.py:30-36 | minutes and seconds are below 60 and milliseconds below 1000, and together with the hours they are the time difference truncated to a whole millisecond |
| `TimeUtils.SprintFancyTimeDiff` | src/goripy/time.py:27-28 | a ValueError exactly for a `high_unit` other than `hours`, `minutes` and `seconds` |
| `TimeUtils.PadWidth` | src/goripy/time.py:39-51 | `{:0wd}` prints a field below `10^w` in exactly `w` digits |
| `TimeUtils.FieldsParse` | src/goripy/time.py:39-51 | each padded field has the width of its range and reads back as itself |
| `TimeUtils.RenderParses` | src/goripy/time.py:38-51 | in each of the three formats, reading the printed fields back gives the milliseconds they stand for |
| `TimeUtils.FancyTimeRoundTrip` | src/goripy/time.py:7-51 | in every mode the printed text reads back as the time difference truncated to whole milliseconds |
| `TimeUtils.MillisRoundTrip` | src/goripy/time.py:7-51 | a whole number of milliseconds is printed and read back exactly |
| `MemoryInfo.UnitScan` | src/goripy/memory/info.py:15-22 | the loop stops, if it does not fail with IndexError, at a known unit with a value of at most 1024, and that unit is the requested one when one is requested |
| `MemoryInfo.LJust3` | src/goripy/memory/info.py:22 | `{:3s}` is the unit name padded on the right with spaces to 3 columns |
| `MemoryInfo.SprintFancyNumBytes` | src/goripy/memory/info.py:1-24 | the `while` loop and the format call compute exactly `FancyNumBytes` |
| `MemoryInfo.ScanValue` | src/goripy/memory/info.py:18-20 | the value the loop stops at is the input divided by 1024 once per unit step |
| `MemoryInfo.PastLastUnit` | src/goripy/memory/info.py:18-22 | at or past the last unit there is only the IndexError |
| `MemoryInfo.NoUnitFails` | src/goripy/memory/info.py:18-22 | with no unit requested the loop fails exactly when the value exceeds 1024 GiB |
| `MemoryInfo.NoUnit` | src/goripy/memory/info.py:1-24 | with no unit requested the unit shown is the smallest at which the value is at most 1024 (exactly 1024 stays in the lower unit), and the value shown is the input in that unit |
| `MemoryInfo.GivenUnit` | src/goripy/memory/info.py:18-22 | as written, a requested unit succeeds exactly when the value in that unit is at most 1024, and then shows that value |
| `MemoryInfo.UnknownUnit` | src/goripy/memory/info.py:18 | a unit that is not one of the four ends in the IndexError |
| `MemoryInfo.BytesOfTwoKiB` | src/goripy/memory/info.py:18-22 | as written, 2048 bytes requested in `B` is an IndexError rather than `2048.00 B` |
| `MemoryInfo.Layout` | src/goripy/memory/info.py:22 | the text is the value with two decimals, a space and the unit in three columns |
| `MemoryInfo.IndexOf` | src/goripy/memory/info.py:15 | the index of a known unit name holds that name |
| `MemoryInfo.InUnitSpec` | src/goripy/memory/info.py:1-24 | with the requested unit used as the display unit, every known unit shows the value in that unit, and where the code as written succeeds the two agree |
| `ConfMetrics.Precision` | src/goripy/conf/metrics.py:5-40 | precision is NaN exactly for a class without positives or without negatives, unwritten exactly when otherwise `tp + fp` is 0, and otherwise `tp / (tp + fp)`; never infinite |
| `ConfMetrics.Recall` | src/goripy/conf/metrics.py:44-79 | recall is NaN exactly for a class without positives or negatives, and otherwise `tp / (tp + fn)` |
| `ConfMetrics.Accuracy` | src/goripy/conf/metrics.py:83-115 | accuracy is NaN exactly for a class without examples, and otherwise `(tp + tn) / (tp + fp + fn + tn)` |
| `ConfMetrics.F1Score` | src/goripy/conf/metrics.py:119-154 | F1 is NaN exactly for a class without positives or negatives, unwritten exactly when otherwise `2 tp + fp + fn` is 0, and otherwise `2 tp / (2 tp + fp + fn)` |
| `ConfMetrics.FBeta` | src/goripy/conf/metrics.py:158-199 | F-beta is NaN exactly for a class without positives or negatives and never infinite |
| `ConfMetrics.FBetaOf` | src/goripy/conf/metrics.py:187-199 | with `b2 = b * b`, F-beta is NaN exactly for a degenerate class, unwritten exactly when `(1 + b2) tp + fp + b2 fn` is 0, and otherwise `(1 + b2) tp / ((1 + b2) tp + fp + b2 fn)` |
| `ConfMetrics.Elementwise` | src/goripy/conf/metrics.py:30-38 | the array functions compute each class's metric from its own four aggregates |
| `ConfMetrics.FBetaOneIsF1` | src/goripy/conf/metrics.py:144-197 | with the default `b = 1.0` the F-beta score is the F1 score, class by class |
| `ConfMetrics.FBetaZeroIsPrecision` | src/goripy/conf/metrics.py:187-197 | with `b = 0` the F-beta score is precision |
| `ConfMetrics.F1IsHarmonicMean` | src/goripy/conf/metrics.py:119-154 | where precision and recall are positive, F1 is their harmonic mean |
| `ConfMetrics.MetricsInUnitInterval` | src/goripy/conf/metrics.py:5-199 | on non-negative counts every defined metric lies in `[0, 1]` |
| `ConfMetrics.UnwrittenCells` | src/goripy/conf/metrics.py:33-192 | on counts, recall, accuracy, F1 and F-beta with `b != 0` never leave a cell unwritten; precision does exactly for a class with positives and negatives but no predicted positive |
| `ConfMetrics.FBetaDenominator` | src/goripy/conf/metrics.py:190-192 | with `b != 0` a class with positives has a positive F-beta denominator |
| `ConfAggs.Rows` | src/goripy/conf/aggs.py:77-82 | the rows of a `C x 4` array, row `i` holding columns 0 to 3 as tp, fp, fn, tn |
| `ConfAggs.PnNormalizeConfAggs` | src/goripy/conf/aggs.py:5-43 | `pn_normalize_conf_aggs` returns a fresh `C x 4` array whose every row is the normalised row of the input: tp and fn over the positives, fp and tn over the negatives, 0 where that count is 0 |
| `ConfAggs.NormalizedCounts` | src/goripy/conf/aggs.py:30-41 | after normalisation the positives of a class sum to 1 when it has any and are 0 otherwise; likewise the negatives |
| `ConfAggs.NormalizeIdempotent` | src/goripy/conf/aggs.py:5-43 | normalising twice is normalising once |
| `ConfAggs.NormalizeNonNeg` | src/goripy/conf/aggs.py:30-41 | normalisation keeps counts non-negative |
| `ConfAggs.NormalizeKeepsRecall` | src/goripy/conf/aggs.py:33-40 | recall only looks at the positives, so normalisation keeps it |
| `ConfAggs.NormalizedAccuracyIsBalanced` | src/goripy/conf/aggs.py:30-41 | on normalised aggregates accuracy is the balanced accuracy, the mean of the two rates |
| `ConfAggs.ComputeConfMetricArr` | src/goripy/conf/aggs.py:47-84 | `compute_conf_metric_arr` is the chosen metric of each class's row |
| `ConfAggs.ComputeConfMetricAvg` | src/goripy/conf/aggs.py:88-136 | "macro" is the NaN-ignoring mean; any method other than "macro" and "micro" (or a "micro" whose arrays do not broadcast) is a ValueError |
| `ConfAggs.MacroIsMean` | src/goripy/conf/aggs.py:121-123 | the macro average of defined metrics is their mean |
| `ConfAggs.MacroIgnoresNaN` | src/goripy/conf/aggs.py:121-123 | a NaN metric does not change the macro average |
| `ConfAggs.MicroIsWeightedMean` | src/goripy/conf/aggs.py:125-128 | the micro average of defined metrics is their mean weighted by each class's positives |
| `ConfAggs.MicroRecallPools` | src/goripy/conf/aggs.py:125-128 | micro-averaged recall is the pooled true positives of the non-degenerate classes over the positives of all classes |
| `MldlConfMetrics.Masked` | src/goripy/mldl/conf_metrics.py:24-25 | the divided-then-masked cell is NaN exactly where the denominator is 0 and the quotient elsewhere; never unwritten or infinite |
| `MldlConfMetrics.MetricsNaNAtZeroDenominator` | src/goripy/mldl/conf_metrics.py:5-126 | each of the older metrics is NaN exactly where its own denominator is 0 and otherwise its quotient |
| `MldlConfMetrics.AgreesWithConfMetrics` | src/goripy/mldl/conf_metrics.py:5-126 | on a class with positives and negatives where the newer metric is defined, the older one gives the same value |
| `MldlConfMetrics.CellMetric` | src/goripy/mldl/conf_metrics.py:165 | a metric of the handed columns is never infinite |
| `MldlConfMetrics.Weigh` | src/goripy/mldl/conf_metrics.py:160-163 | the weighted cell is left unwritten exactly where the class's count is 0 |
| `MldlConfMetrics.ComputeConfMetricArr` | src/goripy/mldl/conf_metrics.py:130-167 | `compute_conf_metric_arr` is the metric of each class's (optionally weighted) columns |
| `MldlConfMetrics.UnweightedIsMetric` | src/goripy/mldl/conf_metrics.py:150-165 | without `pn_weighted` each entry is the metric of the class's own aggregates |
| `MldlConfMetrics.WeightedDegenerate` | src/goripy/mldl/conf_metrics.py:155-165 | with `pn_weighted` a class without positives or negatives gets an unspecified value for every metric but recall, which is unspecified exactly without positives |
| `MldlConfMetrics.WeightedRecall` | src/goripy/mldl/conf_metrics.py:155-165 | weighting leaves recall unchanged for a class with positives |
| `MldlConfMetrics.WeightedAccuracyIsBalanced` | src/goripy/mldl/conf_metrics.py:155-165 | with `pn_weighted` accuracy is the balanced accuracy |
| `MldlConfMetrics.ComputeConfMetricAvg` | src/goripy/mldl/conf_metrics.py:171-206 | no `average` is a ValueError, "macro" the NaN-ignoring mean, any other string an UnboundLocalError, and "micro" fails only when the arrays do not broadcast |
| `MldlConfMetrics.MacroAgrees` | src/goripy/mldl/conf_metrics.py:194-196 | the older macro average is the newer one |
| `MldlConfMetrics.MicroNaNPropagates` | src/goripy/mldl/conf_metrics.py:198-204 | a NaN metric in any class makes the older micro average NaN, as it sums with `numpy.sum` |
| `MldlConfMetrics.MicroAgreesWithoutNaN` | src/goripy/mldl/conf_metrics.py:198-204 | without NaN metrics the older micro average is the newer one |

## Left out

- File and disk I/O are not part of this model:
  - `save_mask_to_rle_file` / `load_mask_from_rle_file`;
  - `VariableLength2DListStorage.save` / `load`, and `save_storage_dict` / `load_storage_dict`;
  - `file/json.py`, `file/xml.py` and `memory/get.py`.
- `GpuAlloc.DeviceAllocator`: `_save` and `_load` are taken as the identity, so each method acts on the fields directly. Use by several processes at once is not modelled; the class itself takes no lock.
- `GpuAlloc.DeviceAllocator.TenantIds`: the order of the returned ids follows Python dict insertion order. The model promises only that each tenant appears exactly once.
- Randomness is not modelled:
  - `randomize()`, `uuid.py`, and the random matrices in `mask_shadow.py` and `shadow.py` are left out.
  - `ImgBorderFill.RandomBorderFiller` takes its drawn border ratios as constructor parameters.
  - `DictDepth.NewUuid` returns some key not yet in the flat dict. It is not a UUID.
- Wrappers around OpenCV, skimage, PIL and albumentations are left out: `mask_shadow.py`, `shadow.py`, `img/encode.py`, `img/pad_resize.py`, and `img_to_rgb` in `img/utils.py`.
- Other modules outside the integer core are not part of this model:
  - the torch and float-numerics modules: `mldl/loss_functions.py`, `tensor/img_stats.py`, `mldl/weights.py`;
  - plotting, the cloud client and debug-string helpers: `plot/imgs.py`, `gcs/endpoint.py`, `gpu/info.py`, `gpu.py`, `tensor/info.py`, `array/info.py`, `tqdm.py`, `pickle.py`, `pymodule.py`;
  - `cvat/box.py`.
- Numerics:
  - numpy dtype casts (`astype`, `target_dtype`) and fixed integer widths are dropped, and values stay unbounded integers.
  - Floats are exact reals. The metric modules carry NaN and the infinities as separate values.
  - IEEE rounding is not modelled.
- `Base64`: the RFC 4648 section 4 codec is stated through its inverse-pair laws. Its bit-level internals are not re-derived.
- `Base64.Decode` and `MaskEncode.DecodeMask`: only canonical text is decoded: whole four-letter groups from the RFC 4648 alphabet, with `=` only in the last group. Python's default non-validating `b64decode` first discards characters outside the alphabet and ignores what follows a completed padding. Such text is a ValueError here.
- `CvatMask.ParseInts` and `Decimal.ParseInt`: `int` is modelled on surrounding whitespace, an optional `+` or `-`, and ASCII digit groups joined by single `_`. Python's `int` also accepts non-ASCII decimal digits; such strings are ValueErrors here.
- `Decimal.ParseReal` and `CvatMask.ReadRounded`: `float` is modelled on surrounding whitespace, an optional `+` or `-`, and ASCII digit groups with at most one `.` and at least one digit. Python's `float` also accepts an exponent, `inf`, `nan` and non-ASCII digits; such strings are ValueErrors here, since an exact real cannot hold `inf` or `nan`.
- `ArrayRatio.Partition`: ratios that sum to zero are excluded by its precondition. The source divides by that sum and produces NaN sizes.
- `ArrayRatio.Partition`: the fancy-index correction of `round_val_arr` is modelled as a value function rather than as an update in place.
- `Multibatch.ComputeMultibatchesDataloader`: its precondition asks for one of two cases. Either every loader length is 0, or `min_step_items` is positive and every length is positive. Outside those cases the source never finishes: a zero length beside positive ones yields a NaN progress ratio, and a non-positive `min_step_items` adds empty steps forever.
- `Multibatch.ComputeMultibatchesDataloader`: the `uint32` progress counters are unbounded here.
- `Multibatch.MultibatchesDataset`: its precondition excludes a dataset of length 0 beside datasets of positive length. There the source's progress ratio `0 / 0` is NaN, `numpy.argmin` picks that dataset every time, it contributes 0 points and 0 items, and the loop never ends.
- `Multibatch.MultibatchesDataset`: the as-written dataset variant need not terminate. The model therefore takes a `fuel` bound and returns `OutOfFuel` when the bound runs out.
- `ImgMaskCrop.SquareMaskCropper.Fit`: the border ratio must lie in [0, 1). That is the documented range; a ratio of 1 would divide by zero.
- `ImgMaskCrop.SquareMaskCropper.Crop`: the image must be at least as large as the fitted copy window. The source assumes an image of the mask's size.
- `ImgBorderFill.FillBorderAbs`, `ImgBorderFill.FillBorderRel`, `ImgMaskCrop.SquareMaskCropper.Crop` and `ImgUtils.PadFillImgIntended` expand their arguments as `arg_list_to_arg_arr` is documented to. They use the repeating reading of `Args.ArgListToArgArrIntended`, not the multiplying one; see Findings.
- `VarLen2DList.FromList` and `CvatAnno.ComputeJobNums`: the cells that `numpy.empty` leaves unwritten are left unspecified.
- `VarLen2DList.GetNumBytes`: item sizes are parameters in place of numpy dtypes.
- `Log.Logger` stands in for `logging.Logger`. It is the list of records it has received, and handlers and formatting are left out.
- `TimeUtils.SprintFancyTimeDiff`: `{:02d}`-style fields on float arithmetic are taken on exact reals.
- `MemoryInfo.SprintFancyNumBytes`: `{:.2f}` is taken as rounding the exact value half to even.
- `PlotGrid.BestGridDims`: the log-ratio distance to the target aspect ratio is a parameter of the model.
- `MldlConfMetrics`: an `average` other than the known methods leaves a local unbound and fails with an `UnboundLocalError`, as in the source.

## Findings

| source | as written | input that shows it | evidently intended | confidence | as-written member | corrected member |
|---|---|---|---|---|---|---|
| src/goripy/mask/encode.py:29-64 | `encode_mask` writes the runs with `tobytes()` in the int64 dtype from `mask_to_rle`, while `decode_mask` reads the payload as 4-byte `uint32` words | the 1 x 1 mask `[true]` encodes runs `[0, 1]` as 8-byte words, and decodes as `[false]` | runs written as 4-byte words, so that `decode_mask(encode_mask(m)) == m` | high; not executed | `MaskEncode.DecodeAsWritten` | `MaskEncode.RoundTripIntended` |
| src/goripy/args.py:39-48 | for a numpy array, `arg * num_repeats` multiplies elementwise | `arg_list_to_arg_arr(numpy.array([1, 2]), 4, ...)` gives `[2, 4]` | repeat the values cyclically, as for a list or tuple: `[1, 2, 1, 2]` | high; not executed | `Args.NdArrayMultiplies` | `Args.IntendedRepeats` |
| src/goripy/mldl/multibatch.py:50-58 | the dataset variant adds `round(batch_points * point_size)` items to a progress counter measured in data points | one dataset of length 1, batch size 1, point size 2.0, one GPU: progress jumps to 2 and never equals 1, so the loop does not end | advance the progress by `batch_points` and count items separately | high; not executed | `Multibatch.DatasetOvershoots` | `Multibatch.FixedMultibatchesSpec` |
| src/goripy/img/mask_cropper.py:127 | `crop` calls `arg_list_to_arg_arr` with two arguments, and the function requires `target_dtype` | any call of `crop` after `fit` raises `TypeError` | pass the image dtype as `target_dtype`, as the newer `img/mask_crop.py` does | high; not executed | `ImgMaskCropper.SquareMaskCropper.Crop` | `ImgMaskCrop.SquareMaskCropper.Crop` |
| src/goripy/img/utils.py:129-133 | `pad_fill_img` calls `arg_list_to_arg_arr` with two arguments | any 2- or 3-dimensional image raises `TypeError` | pass `target_dtype` and pad the image centred with the fill value | high; not executed | `ImgUtils.PadFillImg` | `ImgUtils.PadFillImgIntended` |
| src/goripy/plot/grid.py:66-68 | `[:-1]` always drops the last listed pair, which without `allow_diff_size` can be the only exact grid | `compute_best_2d_grid_dims(5, allow_diff_size=False)` lists only `(5, 1)`, drops it and fails on `[-1]` with `IndexError` | drop the last pair only when it has crossed the diagonal (more rows than columns) | medium; not executed | `PlotGrid.FiveHasNoGrid` | `PlotGrid.IntendedAlwaysGrid` |
| src/goripy/memory/info.py:18-22 | the unit loop keeps dividing while the value exceeds 1024, even after reaching the requested unit | `sprint_fancy_num_bytes(2048, unit="B")` goes past `"B"` and runs off `units`, giving `IndexError` | with a unit given, divide until that unit is reached and show the value in it | medium; not executed | `MemoryInfo.BytesOfTwoKiB` | `MemoryInfo.InUnitSpec` |
