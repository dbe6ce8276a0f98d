# Database generator: tiling and augmentation geometry

A Dafny model of the core of `DatabaseGenerator.cpp`, the program that turns
raw photographs into a labelled 64 x 64 image data set with two classes,
`empty` and `robot`. The model covers the following:

- **Region tiler** (`readAndRegionSplit`). It cuts an image into a grid of
  non-overlapping 64 x 64 tiles, with `w = width/64 - 1` columns and
  `h = height/64 - 1` rows. Tiles are enumerated as `i % w`, `i / w`.
- **Sliding-window tiler** (`readAndPixelSplit`). It produces 64 x 64
  windows at stride 10. The step counts are `(width-64)/10` and
  `(height-64)/10`, computed with C++ truncating division. y is the outer
  loop and x the inner loop.
- **Robot augmentation** (`readAndPostProcess`). It first cuts a centred
  square. Then, for each scale in {1.0, 0.9, 0.8}, it cuts a centred zoom
  window. For each angle in {0} it rotates, and for each kernel size in
  {1, 3, 5, 7, 9, 11} it blurs. Each combination becomes one output.
- **Counters and output names.** There are three global counters.
  `emptyImageNr` is shared by both tilers. `robotImageNr` and
  `robotImageInputCount` belong to the augmentation. Every record is
  written to `NewDatabase/Training/<category>/<n>.jpg`.

Everything is pure. A decoded image is only its size: `Option<Image>`, with
`None` standing for a file `imread` cannot decode. An output record keeps the
rectangles and parameters that select its pixels. It also keeps its
category, split and number. The counters are an immutable `Counters` value
threaded from step to step. A run is the list of candidate files of the
three input directories, in `main`'s order.

Modules:
- `Wrappers` holds `Option`.
- `Geometry` holds `Rect`, the ROI bounds rule and C++ `/` and `%`. It also
  holds `Pairs`, the row-major cross product that every nested loop here
  follows, and `Grid`.
- `Labeler` holds categories, splits, records, counters, sequential
  numbering and output paths.
- `RegionTiler`, `SlidingWindowTiler` and `RobotAugmentation` hold the three
  generators.
- `DatabaseGenerator` holds the per-file steps, the run and whole-run
  theorems.

## Model

| member | source | states |
|---|---|---|
| Geometry.TruncDiv | DatabaseGenerator.cpp:154-155 | C++ `/` truncates toward zero: the remainder is smaller than the divisor in magnitude and never has the opposite sign of the dividend; on non-negative operands it is floor division |
| Geometry.TruncMod | DatabaseGenerator.cpp:113-114 | C++ `%` is the remainder of the truncated quotient: smaller than the divisor in magnitude, with the dividend's sign, equal to Euclidean `%` for non-negative operands |
| Geometry.TruncDivNegative | DatabaseGenerator.cpp:154-155 | on a negative dividend the step count differs from Euclidean division: (-7)/10 is 0, not -1, and (-64)/10 is -6, not -7 |
| Geometry.Pairs | DatabaseGenerator.cpp:157-159 | two nested loops visit `|outer| * |inner|` pairs, each made of an outer and an inner element |
| Geometry.PairsIndex | DatabaseGenerator.cpp:157-161 | the pair of outer element `a` and inner element `b` is visited as number `a * |inner| + b` |
| Geometry.PairsAt | DatabaseGenerator.cpp:111-114 | visit number `k` is the pair `(outer[k / n], inner[k % n])`, the `i / w`, `i % w` enumeration |
| Geometry.GridBounds | DatabaseGenerator.cpp:111-115 | every grid origin is a multiple of the step and no further than the last column and row |
| Geometry.GridRowMajor | DatabaseGenerator.cpp:111-114 | a later tile is on a later row, or on the same row further right |
| Geometry.GridDisjoint | DatabaseGenerator.cpp:111-115 | with steps of at least 64 no two tiles of a grid share a pixel |
| Labeler.Label | DatabaseGenerator.cpp:119-121 | record `k` of a batch takes counter value `first + k`, in order, with the batch's category and the `Training` split |
| Labeler.Decimal | DatabaseGenerator.cpp:121 | a number prints as a non-empty string of decimal digits, with a leading `0` only for 0 itself |
| Labeler.DecimalRoundTrip | DatabaseGenerator.cpp:121 | reading the printed number back gives the number |
| Labeler.DecimalInjective | DatabaseGenerator.cpp:121 | different numbers print differently |
| Labeler.OutputPath | DatabaseGenerator.cpp:119-121 | a `Training` record's path starts with `NewDatabase/Training/` and every path ends in `.jpg` |
| Labeler.OutputPathInjective | DatabaseGenerator.cpp:119-121 | two records have the same path exactly when split, category and number agree |
| RegionTiler.Columns | DatabaseGenerator.cpp:109 | `w` is at least -1, positive exactly when the image is at least 128 wide, and `(w + 1) * 64 <= width < (w + 2) * 64` |
| RegionTiler.Rows | DatabaseGenerator.cpp:110 | `h` is at least -1, positive exactly when the image is at least 128 high, and `(h + 1) * 64 <= height < (h + 2) * 64` |
| RegionTiler.RegionTilesAsWritten | DatabaseGenerator.cpp:109-116 | the loop as written asks for exactly one region when the image is under 64 pixels both ways, and otherwise for as many regions as the corrected tiler produces |
| RegionTiler.RegionTiles | DatabaseGenerator.cpp:109-111 | with `w, h >= 1` there are exactly `w * h` tiles; when either is not positive there are none |
| RegionTiler.RegionTileShape | DatabaseGenerator.cpp:111-116 | tile `k` is the 64 x 64 square at `((k % w) * 64, (k / w) * 64)`, inside the image, short of the last full column and row |
| RegionTiler.RegionTilesDisjoint | DatabaseGenerator.cpp:111-115 | two different region tiles of one image share no pixel |
| RegionTiler.RegionTilesRowMajor | DatabaseGenerator.cpp:111-114 | region tiles come out row by row, left to right |
| RegionTiler.RegionTilesComplete | DatabaseGenerator.cpp:111-114 | every grid cell `(cx, cy)` is emitted, as tile `cy * w + cx` |
| RegionTiler.RegionAsWrittenAgrees | DatabaseGenerator.cpp:109-116 | once one side holds a full tile, the loop as written produces exactly the region tiles |
| RegionTiler.RegionAsWrittenEscapes | DatabaseGenerator.cpp:109-116 | on an image smaller than 64 both ways, the loop as written asks for one 64 x 64 region at the origin, which lies outside the image, so `image(myROI)` throws |
| RegionTiler.RegionExample | DatabaseGenerator.cpp:109-115 | a 200 x 140 image gives two tiles, at (0, 0) and (64, 0) |
| SlidingWindowTiler.XSteps | DatabaseGenerator.cpp:154 | for a wide enough image `xSteps * 10 <= width - 64 < (xSteps + 1) * 10`; for a narrower one the count is between -6 and 0 |
| SlidingWindowTiler.YSteps | DatabaseGenerator.cpp:155 | the same for the height |
| SlidingWindowTiler.SlidingWindows | DatabaseGenerator.cpp:154-161 | there are `max(0, xSteps) * max(0, ySteps)` windows |
| SlidingWindowTiler.PixelSplit | DatabaseGenerator.cpp:154-169 | the two nested loops, with negative step counts running zero times, produce exactly the window sequence and its count |
| SlidingWindowTiler.SlidingWindowShape | DatabaseGenerator.cpp:157-161 | every window is 64 x 64, has both origin coordinates on the stride lattice and lies inside the image |
| SlidingWindowTiler.SlidingWindowsRowMajor | DatabaseGenerator.cpp:157-161 | windows come out with y outer and x inner |
| SlidingWindowTiler.SlidingWindowsSmallImage | DatabaseGenerator.cpp:154-159 | an image narrower or lower than 64 gives no window |
| SlidingWindowTiler.SlidingWindowsSkipLastOffset | DatabaseGenerator.cpp:154-159 | the window at offset `xSteps * 10` would fit, yet every emitted window starts left of it |
| SlidingWindowTiler.SlidingWindowExample | DatabaseGenerator.cpp:154-159 | a 150 x 90 image has 8 x 2 steps and gives 16 windows |
| RobotAugmentation.SquareCrop | DatabaseGenerator.cpp:196-201 | the crop is a square of side `min(width, height)` inside the image, offset only along the longer side, centred to within one pixel |
| RobotAugmentation.ZoomCrop | DatabaseGenerator.cpp:206-210 | the zoom window is a square inside the `dim` square, centred to within two pixels, of side `floor(scale * dim)`, and the whole square at scale 1.0 |
| RobotAugmentation.Combinations | DatabaseGenerator.cpp:204-229 | there are `3 * 1 * 6 = 18` parameter combinations |
| RobotAugmentation.Variants | DatabaseGenerator.cpp:204-237 | a decodable robot image yields 18 outputs |
| RobotAugmentation.VariantOrder | DatabaseGenerator.cpp:204-237 | combination (scale `s`, angle `a`, blur `b`) is output `s * 6 + a * 6 + b`: scale outer, rotation middle, blur inner |
| RobotAugmentation.CombinationAt | DatabaseGenerator.cpp:204-229 | combination `k` is scale `k / 6`, the single angle and blur size `k % 6` |
| RobotAugmentation.VariantAt | DatabaseGenerator.cpp:204-237 | output `k` is made with scale `k / 6`, angle 0 and blur size `k % 6` |
| RobotAugmentation.VariantWellFormed | DatabaseGenerator.cpp:197-229 | every output's square lies in the image, its zoom window lies in the square and in the image, its angle is 0 and its blur size positive and odd |
| RobotAugmentation.CombinationsDistinct | DatabaseGenerator.cpp:43-45 | the 18 combinations are pairwise different |
| RobotAugmentation.VariantsDistinct | DatabaseGenerator.cpp:204-237 | the outputs of one image use pairwise different parameters |
| RobotAugmentation.FullScaleIsWholeSquare | DatabaseGenerator.cpp:197-210 | the square's side is `min(width, height)`, and the first output's zoom window is the whole square |
| RobotAugmentation.ZoomCollapses | DatabaseGenerator.cpp:206-213 | for a one-pixel-wide or one-pixel-high image, the 0.9 and 0.8 zoom windows are empty |
| DatabaseGenerator.ReadAndRegionSplit | DatabaseGenerator.cpp:101-125 | an undecodable file changes nothing; otherwise record `k` is an `empty`/`Training` record carrying region tile `k`, numbered `emptyImageNr + k`, each 64 x 64 and inside the image; only `emptyImageNr` advances, by the record count |
| DatabaseGenerator.ReadAndPixelSplit | DatabaseGenerator.cpp:146-172 | an undecodable file changes nothing; otherwise record `k` is an `empty`/`Training` record carrying window `k`, numbered on from the shared `emptyImageNr`, each 64 x 64, on the stride lattice and inside the image; only `emptyImageNr` advances |
| DatabaseGenerator.ReadAndPostProcess | DatabaseGenerator.cpp:191-242 | an undecodable file changes nothing; otherwise 18 `robot`/`Training` records numbered on from `robotImageNr`, record `k` carrying variant `k` (scale outer, blur inner), with odd positive blur sizes; `robotImageNr` advances by 18, `robotImageInputCount` by 1 and `emptyImageNr` stays |
| DatabaseGenerator.RunJobsNumbering | DatabaseGenerator.cpp:35-37 | over any sequence of files, each category's records are numbered on from its counter without gaps; each counter ends at its start plus its records; the input counter grows by the decodable robot images; every record goes to `Training` |
| DatabaseGenerator.NumberedIncreasing | DatabaseGenerator.cpp:121 | with gap-free numbering, a later record of the same category has a larger number |
| DatabaseGenerator.GenerateNumbering | DatabaseGenerator.cpp:49-55 | over a whole run, `empty` records (both tilers together) are numbered 0, 1, 2, ... and so are `robot` records; the final counters equal the record counts and the number of decodable robot images |
| DatabaseGenerator.GenerateDistinctPaths | DatabaseGenerator.cpp:119-121 | every record of a run, the last included, is written under `NewDatabase/Training/`, and no two records share an output file |
| DatabaseGenerator.FullRunScenario | DatabaseGenerator.cpp:49-55 | one 200 x 140 region source, one 150 x 90 sliding-window source and one robot source give 18 `empty` and 18 `robot` records, with final counters (18, 18, 1) |

## Findings

| source | as written | input that shows it | evidently intended | confidence | as-written member | corrected member |
|---|---|---|---|---|---|---|
| DatabaseGenerator.cpp:109-116 | `w = width/64 - 1` and `h = height/64 - 1` are both -1 for an image under 64 pixels both ways. Their product is 1, so the loop runs once. | A 50 x 40 image asks for the ROI (0, 0, 64, 64), which does not fit in the image (`RegionTiler.RegionAsWrittenEscapes`); `image(myROI)` throws, nothing in `main` catches it, and the run ends at that file. | No tile when `w` or `h` is not positive, as for every other small image. | not executed | RegionTiler.RegionTilesAsWritten | RegionTiler.RegionTiles |

The corrected tiler is proved to keep every tile inside the image
(`RegionTiler.RegionTileShape`). It agrees with the code as written whenever
one side is at least 64 (`RegionTiler.RegionAsWrittenAgrees`). The per-file
step `DatabaseGenerator.ReadAndRegionSplit` and the whole run use the
corrected tiler.

## Left out

- Pixel operations: `imread`, `imwrite`, `resize`, `getRotationMatrix2D`, `warpAffine` and `GaussianBlur` are library calls. Decoding is an `Option<Image>` holding only the size. Each record keeps the rectangles and parameters that select its pixels, not the pixels.
- Directory enumeration (`opendir`/`readdir`) is input plumbing. The candidate files of each directory are an input sequence, in enumeration order.
- Output-folder set-up (`initDatabaseFolder`, `performSystemCommand`) is shell I/O and is not modelled.
- Write failures are not modelled. The source takes the number before `imwrite` runs, so a failed write still uses up its number. The model treats every record as written.
- RobotAugmentation.ZoomCrop: scales are exact tenths, not the doubles 1.0, 0.9 and 0.8. In binary floating point `1 - 0.9` and `1 - 0.8` are slightly below 0.1 and 0.2, so whenever the exact offset `(10 - tenths) * dim / 20` is a positive whole number the source's truncated offset is one less than the model's. That happens for every `dim` that is a multiple of 20 at scale 0.9 and every multiple of 10 at scale 0.8: for `dim = 480` the source uses offsets 23 and 47 where the model uses 24 and 48. The zoom side `floor(scale * dim)` is the same in both.
- Rotation geometry is not modelled. The only angle is 0, and the float rotation centre does not affect any rectangle. Each record keeps the angle.
- Generate: a region image under 64 x 64 both ways ends the source's run, because the out-of-bounds `image(myROI)` throws and nothing catches it; later region files and the pixel and robot directories are then never processed. The model skips such an image and continues.
- ReadAndPostProcess: it still emits 18 records for an image one pixel wide or high. In the source, the 0.9 and 0.8 zoom windows are empty there (`RobotAugmentation.ZoomCollapses`). The six scale-1.0 records are written first, advancing `robotImageNr` by 6. Then `resize` throws on the empty 0.9 window; nothing in `main` catches it, so the source's run ends at that file with 6 records from it and `robotImageInputCount` not incremented, while the model writes 18 and goes on.
- RegionTiler.RegionTilesAsWritten: the 32-bit `int` product `w * h` and the 32-bit counters are unbounded integers here. Overflow would need an image about 2.9 million pixels on a side, or more than 2^31 outputs.
- The commented-out routing of every fourth output to `Validation` is dead code. The `Validation` split exists as a value, but no record uses it.
