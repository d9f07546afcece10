# MagiCarver seam carving, modelled in Dafny

MagiCarver resizes images by seam carving. A *seam* is a connected path of pixels, one per
line, running top to bottom (*vertical*) or left to right (*horizontal*). The program computes
an energy map of the image (Sobel by default; Prewitt and Roberts as alternatives). It then
builds a cumulative energy map by dynamic programming over the lines and backtracks from the
cheapest cells of the last line to get the k lowest-energy seams, which it does not let share
a pixel. Removing those seams shrinks the image. Averaging in new pixels along them enlarges it.

The repository holds two revisions of the engine, and both are modelled:

* the **root** revision (`SeamImage.cs`, `SeamFunctions/CumulativeEnergy.cs`,
  `EnergyFunctions/Sobel.cs`, `Seam.cs`, `CompareSeam.cs`, `CompareSeam2.cs`). It records
  the rank of every harvested seam in an *index map* and carves all k seams in one pass over
  the image;
* the **trunk** revision (`trunk/...`). It marks claimed pixels in a used mask and removes one
  seam at a time, shifting the later pixels of each line back by one. It refreshes only the
  energy and the cumulative energy around the removed seam.

## Modules

| file | module | what it holds |
|---|---|---|
| `wrappers.dfy` | `Wrappers` | `Option`, `Result` and `Outcome`, with the .NET exceptions the source can raise as error values |
| `numerics.dfy` | `Numerics` | `Byte` and `Int32`, the unchecked 32-bit addition, and the byte cap and integer square root used by the filters |
| `constants.dfy` | `Constants` | the enumerations (directions, step codes, marking kinds) and energy constants |
| `utilities.dfy` | `Utilities` | sizes, points, `InBounds`, value snapshots of two-dimensional arrays, and `ShiftArray` |
| `pixels.dfy` | `Pixels` | 24-bit pixels and their luminance |
| `sweep.dfy` | `Sweep` | the "line / lateral" view of a direction, shared by every direction-generic loop |
| `comparers.dfy` | `Comparers` | the three comparers, and the sort of (point, energy) pairs |
| `seam.dfy` | `Seams` | `Seam` and the `PixelLocations` decoder |
| `bitmaps.dfy` | `Bitmaps` | `CopyBitmap`, `ShiftPixels` and `ShiftAddPixels` over pixel arrays |
| `prewitt.dfy`, `sobel.dfy` | `EdgeFilters`, `SobelFilter` | the Prewitt, Roberts and Sobel energies, and the `Sobel` energy-function class with its energy map |
| `energy_maps.dfy` | `CumulativeMaps` | the cumulative-energy fill loop, shared by both revisions and specified by a recurrence |
| `minimal_seams.dfy` | `MinimalSeams` | the least-cost interpretation of that recurrence |
| `root_cumulative.dfy`, `root_backtrack.dfy` | `RootCumulative`, `RootBacktrack` | the root `CumulativeEnergy` class and the specification of its backtracking |
| `carving.dfy` | `Carving` | the root one-pass carve driven by the index map |
| `root_seam_image.dfy` | `RootSeamImage` | the root `SeamImage` class |
| `trunk_cumulative.dfy`, `trunk_backtrack.dfy` | `TrunkCumulative`, `TrunkBacktrack` | the trunk `CumulativeEnergy` class and its backtracking |
| `trunk_seam_image.dfy` | `TrunkSeamImage` | the trunk `SeamImage` class |

Classes whose fields the source updates in place (`SeamImage`, `CumulativeEnergy`, `Sobel`)
are Dafny classes over `array2` fields. Their methods are proved against functions of value
snapshots of those arrays: `FillMap`'s recurrence, the backtracking walk, the kept and removed
scans of the root carve, and `Edited` / `EditedAll` for the trunk's per-point edits.
Properties about several calls are lemmas about those functions: sortedness and permutation,
decode bounds and connectivity, least cost of the recurrence, and shift-undoes-splice.

Modelling notes on points where the source is surprising:

* Integer widths are explicit. The dynamic-programming addition wraps like unchecked C# `int`
  (`Numerics.Wrap32`). Filter results are capped to a byte.
* The root `SeamImage` constructor allocates its index maps filled with zeros
  (`SeamImage.cs:49-50`). If `CarveSeams` runs on such a map with k ≥ 1, every pixel counts as
  belonging to a removed seam (`Carving.ZeroRanksDropEverything`).
* The root `AddSeam` calls `GetKthLowestEnergySeam` with a null index map, so it fails as soon
  as its loop runs. The model returns that failure as an error value.
* The root `CumulativeEnergy.RecomputeEnergyMapRange` has its whole body commented out
  (`SeamFunctions/CumulativeEnergy.cs:261-283`). The model's version does nothing.
* The trunk `SeamImage.GetKBestSeams` passes `ref i`, but
  `trunk/SeamFunctions/CumulativeEnergy.cs:297` takes `k` by value. So the counter is passed
  by value.
* The root `CopyBitmap` and `ShiftAddPixels` (`SeamImage.cs:478-567`) differ from the trunk
  ones (`trunk/SeamImage.cs:396-484`) only in unused, commented-out variables. The
  `Bitmaps` members model both.

## Model

| member | source | states |
|---|---|---|
| `Comparers.ComparePairs` | trunk/SeamFunctions/CumulativeEnergyComparePairs.cs:10 | −1, 1 or 0 exactly when the first pair's value is less than, greater than or equal to the second's |
| `Comparers.ComparePairsAntisymmetric` | trunk/SeamFunctions/CumulativeEnergyComparePairs.cs:10 | swapping the arguments negates the result |
| `Comparers.ComparePairsIgnoresKey` | trunk/SeamFunctions/CumulativeEnergyComparePairs.cs:10 | the points of the pairs never influence the result |
| `Comparers.ComparePairsTransitive` | trunk/SeamFunctions/CumulativeEnergyComparePairs.cs:10 | "at most" and "less than" chain transitively |
| `Comparers.ComparePairsTotal` | trunk/SeamFunctions/CumulativeEnergyComparePairs.cs:10 | any two pairs are comparable, so the comparer is a total preorder fit for the sort |
| `Comparers.CompareSeams` | CompareSeam2.cs:10 | −1, 1 or 0 exactly as the start indices are less, greater or equal |
| `Comparers.CompareSeamsAntisymmetric` | CompareSeam2.cs:10 | swapping the arguments negates the result |
| `Comparers.CompareSeamsIgnoresOtherFields` | CompareSeam2.cs:10 | seams with the same start indices compare alike whatever their codes, direction and cost |
| `Comparers.CompareSeamsTransitive` | CompareSeam2.cs:10 | "at most" and "less than" chain transitively |
| `Comparers.ComparePoints` | CompareSeam.cs:10 | −1, 1 or 0 exactly as the x coordinates are less, greater or equal |
| `Comparers.ComparePointsAntisymmetric` | CompareSeam.cs:10 | swapping the arguments negates the result |
| `Comparers.ComparePointsIgnoresY` | CompareSeam.cs:10 | points in the same column compare equal |
| `Comparers.ComparePointsTransitive` | CompareSeam.cs:10 | "at most" and "less than" chain transitively |
| `Comparers.InsertPermutes` | SeamFunctions/CumulativeEnergy.cs:223 | one insertion step of the sort adds exactly the inserted pair to the multiset |
| `Comparers.InsertSorted` | SeamFunctions/CumulativeEnergy.cs:223 | inserting into a list sorted by value keeps it sorted |
| `Comparers.SortPairs` | trunk/SeamFunctions/CumulativeEnergy.cs:240 | `List.Sort` with the pair comparer, as a stable insertion sort; its contract is stated by `Comparers.SortPairsIsSortedPermutation` (see Left out for the order of equal values) |
| `Comparers.SortPairsIsSortedPermutation` | SeamFunctions/CumulativeEnergy.cs:223 | the sort with the pair comparer returns a permutation of its input, of the same length, sorted ascending by value |
| `Numerics.Wrap32Congruent` | SeamFunctions/CumulativeEnergy.cs:145-146 | the unchecked 32-bit sum agrees with the exact sum modulo 2³², and equals it whenever the exact sum fits |
| `Numerics.Cap255` | trunk/EnergyFunctions/Sobel.cs:55-60 | the cap returns its argument or 255, never more than 255, and nothing negative for a non-negative argument |
| `Numerics.ISqrtIsFloorRoot` | trunk/EnergyFunctions/Sobel.cs:53 | the integer square root r of n satisfies r² ≤ n < (r+1)², which is what the truncated `Math.Sqrt` gives on these exact inputs |
| `Numerics.ISqrtUnique` | trunk/EnergyFunctions/Sobel.cs:53 | that root is the only natural number with the property |
| `Pixels.GetPixel` | trunk/Utilities.cs:34-46 | inside the size, the pixel's luma, which lies between its darkest and brightest channel; outside it, 255 |
| `Pixels.LuminanceBetween` | trunk/Utilities.cs:34-46 | the luma of a pixel lies between its darkest and brightest channel, and a grey pixel keeps its level |
| `EdgeFilters.PrewittEnergy` | trunk/EnergyFunctions/Prewitt.cs:10-39 | Prewitt's GetPixelEnergy; what it promises is stated by `PrewittFlat`, `PrewittIgnoresCentre` and `PrewittMirror` |
| `EdgeFilters.PrewittFlat` | trunk/EnergyFunctions/Prewitt.cs:14-26 | eight neighbours of one value give Prewitt energy 0 |
| `EdgeFilters.PrewittIgnoresCentre` | trunk/EnergyFunctions/Prewitt.cs:14-21 | only the eight neighbours are read: lookups that agree on them give the same energy |
| `EdgeFilters.PrewittMirror` | trunk/EnergyFunctions/Prewitt.cs:23-26 | mirroring the image left to right leaves the energy at the mirrored cell unchanged |
| `EdgeFilters.RobertsEnergy` | trunk/EnergyFunctions/Roberts.cs:10-30 | Roberts' GetPixelEnergy; what it promises is stated by `RobertsFlat`, `RobertsReadsBlock`, `RobertsSaturates` and `RobertsHalfTurn` |
| `EdgeFilters.RobertsFlat` | trunk/EnergyFunctions/Roberts.cs:14-22 | a 2×2 block of one value gives Roberts energy 0 |
| `EdgeFilters.RobertsReadsBlock` | trunk/EnergyFunctions/Roberts.cs:14-17 | only the four cells of the block are read |
| `EdgeFilters.RobertsSaturates` | trunk/EnergyFunctions/Roberts.cs:22-27 | the unclamped maximum 510 is capped to 255 |
| `EdgeFilters.RobertsHalfTurn` | trunk/EnergyFunctions/Roberts.cs:19-22 | turning the image half a revolution leaves the energy of the turned block unchanged |
| `Utilities.InBounds` | trunk/Utilities.cs:48-51 | the bounds test: both coordinates non-negative and below the size; `Sweep.AtInBounds` states it per direction |
| `Sweep.AtInBounds` | trunk/Utilities.cs:48-51 | a point given by line and lateral coordinates is in bounds exactly when both lie inside the direction's extents |
| `Sweep.Choose3` | SeamFunctions/CumulativeEnergy.cs:136-143 | the nested strict-less-than selection picks a minimum of the three values; the first only when it is strictly less than both others, the third on every tie with it |
| `Sweep.Min3` | SeamFunctions/CumulativeEnergy.cs:136-143 | the selected value is one of the three and at most each of them |
| `Utilities.Snap2` | trunk/Utilities.cs:56-84 | the value snapshot of a two-dimensional array has its dimensions and its cells |
| `Utilities.ShiftArray` | trunk/Utilities.cs:56-84 | along the line at the offset, each cell in [from, to−1) receives its successor and the last visited cell becomes the default (the cell at `from` when the range is shorter than two); every other cell keeps its value |
| `Seams.Delta` | Seam.cs:36-57 | a step code moves the lateral coordinate by at most one, and only STRAIGHT leaves it in place |
| `Seams.PixelLocations` | Seam.cs:16-64 | the decoder loop returns exactly `Locations`: the decoded points, or an index-out-of-range error when it reads past the step codes |
| `Seams.YieldedLines` | Seam.cs:20-62 | the k-th point the decoder yields lies on line k (y = k for a vertical seam, x = k otherwise), and a successful decoding yields exactly those points |
| `Seams.LocationsClosedForm` | Seam.cs:18-59 | at most as many points as step codes and as lines; point k has lateral coordinate StartIndex plus the deltas of codes 0..k |
| `Seams.LocationsFailure` | Seam.cs:31-34 | decoding fails only with index out of range, and only when there are fewer codes than lines |
| `Seams.LocationsBounds` | Seam.cs:31 | every point lies on a line inside the extent, with a lateral coordinate at most the lateral extent (equal to it is allowed); a negative lateral coordinate does not stop the walk |
| `Seams.LocationsConnected` | Seam.cs:36-62 | consecutive points are on consecutive lines and differ laterally by at most one |
| `Seams.LocationsComplete` | Seam.cs:31-34 | with a code per line and a lateral coordinate that stays below the extent, decoding yields exactly one point per line |
| `Bitmaps.Average` | trunk/SeamImage.cs:443-445 | the floor average of two channels, which lies between them, so the cast to byte never truncates |
| `Bitmaps.AverageSame` | trunk/SeamImage.cs:443-445 | averaging a pixel with itself gives the pixel |
| `Bitmaps.CopyBitmap` | trunk/SeamImage.cs:396-414 | the destination becomes the overlap of the source laid over its old contents; nothing else changes |
| `Bitmaps.OverlaidCorner` | trunk/SeamImage.cs:403-411 | inside the overlap the copy holds the source's pixels, and a same-size copy is the source |
| `Bitmaps.OverlaidIdempotent` | trunk/SeamImage.cs:396-414 | copying the same source twice is the same as copying it once |
| `Bitmaps.ShiftPixels` | trunk/SeamImage.cs:109-171 | succeeds exactly when the line segment lies in the bitmap; then the bitmap is the shifted-out one (successors moved one step back, the last current cell black), and on failure nothing changes |
| `Bitmaps.ShiftedOutLine` | trunk/SeamImage.cs:119-130 | from the shifted cell to the current extent, the new line is the old line one step further on, closed by a black pixel |
| `Bitmaps.ShiftedOutKeepsFront` | trunk/SeamImage.cs:113-131 | the cells before the shifted one keep their pixels |
| `Bitmaps.ShiftAddPixels` | trunk/SeamImage.cs:424-484 | succeeds exactly when every pixel it touches lies in the bitmap's buffer, read in buffer order (the pixel after a row's last is the first of the row below, as the vertical splice reads it when its loop does not run on a full-width row); then the bitmap is the spliced one, and on failure nothing changes |
| `Bitmaps.SpliceRow` | trunk/SeamImage.cs:432-445 | the vertical splice inside the bitmap: the loop moves row y's pixels from x+2 on one step right and the pixel it stops at becomes the average of its two neighbours in buffer order; every pixel ends as `SplicedRowCell` of the old bitmap |
| `Bitmaps.SpliceColumn` | trunk/SeamImage.cs:457-475 | the horizontal splice inside the bitmap: column x's pixels from y+1 on move one row down, the last dropped, and pixel y+1 becomes the average of pixel y and the old pixel y+1; every pixel ends as `SplicedColumnCell` of the old bitmap |
| `Bitmaps.SplicedRowLine` | trunk/SeamImage.cs:428-446 | from x+2 to the current width the new row is the floor average of the old pixels x+1 and x+2 followed by the old row from x+2, its last pixel dropped |
| `Bitmaps.SplicedColumnLine` | trunk/SeamImage.cs:452-476 | from y+1 down, the new column is the average of the old pixels y and y+1 followed by the old column from y+1, its last pixel dropped |
| `Bitmaps.ShiftUndoesSpliceRow` | trunk/SeamImage.cs:424-446 | shifting out the averaged pixel of a vertical splice restores the old bitmap except for a black last pixel of the row |
| `Bitmaps.ShiftUndoesSpliceColumn` | trunk/SeamImage.cs:452-476 | shifting out the averaged pixel of a horizontal splice restores the old bitmap except for a black last pixel of the column |
| `SobelFilter.Clamp` | trunk/EnergyFunctions/Sobel.cs:13-29 | GetSobelPixel's clamp lands in [0, n) for a non-empty extent and leaves coordinates inside it alone (replicated border) |
| `SobelFilter.SobelPixel` | trunk/EnergyFunctions/Sobel.cs:11-32 | GetSobelPixel reads a coordinate inside the size as GetPixel does, and 255 everywhere when the size is empty |
| `SobelFilter.GradientX` | trunk/EnergyFunctions/Sobel.cs:50 | the first Sobel gradient; `GradientsAreKernels` states it as a kernel convolution |
| `SobelFilter.GradientY` | trunk/EnergyFunctions/Sobel.cs:51 | the second Sobel gradient; `GradientsAreKernels` states it as a kernel convolution |
| `SobelFilter.SobelEnergy` | trunk/EnergyFunctions/Sobel.cs:36-63 | the energy of an out-of-bounds centre is 255 |
| `SobelFilter.SobelMagnitude` | trunk/EnergyFunctions/Sobel.cs:50-60 | for an in-bounds centre the energy r is min(255, ⌊√(gx²+gy²)⌋): r² ≤ gx²+gy² < (r+1)² below 255, and gx²+gy² ≥ 255² when capped |
| `SobelFilter.GradientsAreKernels` | trunk/EnergyFunctions/Sobel.cs:40-51 | the two gradients are the convolutions of the clamped 3×3 neighbourhood with the Sobel kernels |
| `SobelFilter.SobelFlat` | trunk/EnergyFunctions/Sobel.cs:13-53 | a neighbourhood of one grey level has energy 0 |
| `SobelFilter.SobelTranspose` | trunk/EnergyFunctions/Sobel.cs:40-60 | transposing the image transposes the energy: the two kernels swap roles |
| `SobelFilter.RefreshedIff` | EnergyFunctions/Sobel.cs:27-50 | a cell is rewritten exactly when some seam point covers it (the point itself, or the cell before it on its line) |
| `SobelFilter.RefreshedInGrid` | EnergyFunctions/Sobel.cs:29-49 | every rewritten cell lies in the current grid, on a line the seam passes through |
| `SobelFilter.Sobel.constructor` | trunk/EnergyFunctions/EnergyFunction.cs:8 | a new energy function holds a fresh all-zero map of the given dimensions, where the source holds null until `ComputeEnergy` (see Left out) |
| `SobelFilter.Sobel.GetEnergy` | trunk/EnergyFunctions/EnergyFunction.cs:10-18 | the stored energy in bounds (bounds as InBounds decides them) and 255 outside |
| `SobelFilter.Sobel.ComputeEnergy` | trunk/EnergyFunctions/Sobel.cs:70-81 | a fresh map of the bitmap's dimensions holding the Sobel energy on every current cell and 0 elsewhere |
| `SobelFilter.Sobel.ComputeLocalEnergy` | trunk/EnergyFunctions/Sobel.cs:83-138 | the `== -1` branch never fires, so every current cell gets the Sobel energy over the whole bitmap and every other cell keeps its value; a missing bitmap changes nothing |
| `SobelFilter.Sobel.ComputeLocalEnergyAlongSeam` | EnergyFunctions/Sobel.cs:23-53 | the cells the seam's points cover get their Sobel energy and nothing else changes; a missing bitmap changes nothing, and a seam that fails to decode or has a negative lateral coordinate raises index out of range; what the energy map holds after that failure is not stated |
| `SobelFilter.RefreshAlongSeam` | EnergyFunctions/Sobel.cs:27-51 | the seam walk of the root ComputeLocalEnergy over any grid and energy: it succeeds exactly when the seam decodes and no point has a negative lateral coordinate, and then every covered cell is rewritten and nothing else; what the grid holds after a failure is not stated |
| `SobelFilter.RefreshPoints` | EnergyFunctions/Sobel.cs:27-51 | the foreach over the decoded points: it succeeds exactly when no point has a negative lateral coordinate, a failure being IndexOutOfRange, and then every covered cell holds the energy and every other cell its old value |
| `SobelFilter.RefreshAround` | EnergyFunctions/Sobel.cs:29-50 | one seam point: the cell before it when its lateral coordinate is positive and the point itself when below the extent |
| `SobelFilter.FillByColumns` | trunk/EnergyFunctions/Sobel.cs:74-80 | every current cell gets the energy function's value; cells outside the current size keep theirs |
| `SobelFilter.RefreshByRows` | trunk/EnergyFunctions/Sobel.cs:89-110 | the vertical ComputeLocalEnergy loop, row by row: every current cell recomputed, the rest kept |
| `SobelFilter.RefreshByColumns` | trunk/EnergyFunctions/Sobel.cs:114-135 | the other direction's loop, column by column: the same result |
| `CumulativeMaps.FillMap` | SeamFunctions/CumulativeEnergy.cs:52-185 | after ComputeSubEnergyMap's loops every grid cell holds the recurrence over the arrays as they were on entry: a rewritten leading cell its energy, a rewritten later cell its energy plus the least of its three predecessors (int.MaxValue outside the grid), added with 32-bit wrap-around; unrewritten cells and cells outside the grid keep their values |
| `CumulativeMaps.FillLeading` | SeamFunctions/CumulativeEnergy.cs:72-81 | the first loop: from the start offset on, each cell of the leading line gets its energy, so the fill state moves to line 1 |
| `CumulativeMaps.FillLine` | SeamFunctions/CumulativeEnergy.cs:119-150 | the inner loop on line a: every cell from the line's start to its end gets the recurrence value, the other arrays are unchanged, and it stops at the line's length |
| `CumulativeMaps.WriteCell` | SeamFunctions/CumulativeEnergy.cs:145-146 | one write moves the fill state one cell on, keeps the line before finished and changes no other cell |
| `CumulativeMaps.CumStepValue` | SeamFunctions/CumulativeEnergy.cs:119-146 | a rewritten later cell is the wrapped sum of its energy and the nested-strict-less-than minimum of its three predecessors, which are the vertical (x−1,y−1), (x,y−1), (x+1,y−1) or horizontal (x−1,y−1), (x−1,y), (x−1,y+1) cells |
| `CumulativeMaps.CumLeadingValue` | SeamFunctions/CumulativeEnergy.cs:72-80 | a rewritten cell of the leading line (row 0 or column 0) holds its energy |
| `CumulativeMaps.CellValue` | SeamFunctions/CumulativeEnergy.cs:121-146 | the value the inner loop writes at a cell is the recurrence's value there |
| `CumulativeMaps.ReadPredecessor` | SeamFunctions/CumulativeEnergy.cs:125-133 | a predecessor reads as its map value, or int.MaxValue when out of bounds (and, for the trunk, when claimed) |
| `CumulativeMaps.EntireFillWritesAll` | SeamFunctions/CumulativeEnergy.cs:30-49 | ComputeEntireEnergyMap's fill (start offset 0, end offset the last lateral index) rewrites every cell of the grid |
| `CumulativeMaps.SingleStartCone` | trunk/SeamFunctions/CumulativeEnergy.cs:282 | a fill from one start index rewrites, on line a, every cell from start−a+1 on and nothing left of start−a; the cell at start−a exactly when the leading line was filled or the end test allows it |
| `CumulativeMaps.ZerosSnapshot` | SeamFunctions/CumulativeEnergy.cs:36 | a freshly allocated cumulative map reads as all zeros |
| `CumulativeMaps.NoClaimsSnapshot` | SeamFunctions/CumulativeEnergy.cs:37 | a freshly allocated used mask reads as no cell claimed |
| `RootCumulative.EndpointsCoverLastLine` | SeamFunctions/CumulativeEnergy.cs:198-221 | the harvested list has one entry per cell of the last line (along index extent-1), in lateral order, each carrying that cell's cumulative energy |
| `RootCumulative.Harvest` | SeamFunctions/CumulativeEnergy.cs:196-221 | fails with IndexOutOfRange exactly when the image has no lines but a positive lateral extent (reading line -1); otherwise returns the last-line endpoints |
| `RootCumulative.ScanLine` | SeamFunctions/CumulativeEnergy.cs:427-438 | the sideways scan loop returns the same neighbour as the reference scan `Scan` |
| `RootCumulative.SkipClaimed` | SeamFunctions/CumulativeEnergy.cs:427-433 | skipping claimed cells stops at an unclaimed or out-of-bounds cell without changing the scan's result |
| `RootCumulative.WalkStarts` | SeamFunctions/CumulativeEnergy.cs:318-329 | the walk state before the loop (start cell, index pixelCount-1, no cells, no codes) is consistent with the reference walk |
| `RootCumulative.WalkEnds` | SeamFunctions/CumulativeEnergy.cs:370-374 | a walk that reaches index 0 yields the seam whose start index is the lateral coordinate of the last cell reached |
| `RootCumulative.WalkFails` | SeamFunctions/CumulativeEnergy.cs:331-368 | a failing reference walk makes the whole seam construction fail with the same error |
| `RootCumulative.TracingStarts` | SeamFunctions/CumulativeEnergy.cs:318-329 | after claiming and ranking the start cell and allocating straight codes, the loop invariant holds |
| `RootCumulative.TracingEnds` | SeamFunctions/CumulativeEnergy.cs:370-374 | when the loop invariant holds at index 0 the construction succeeds with exactly the codes written and every visited cell claimed and ranked |
| `RootCumulative.ClaimsAbove` | SeamFunctions/CumulativeEnergy.cs:360 | claiming cells at or beyond the current line does not change the next step's choice |
| `RootCumulative.LineBehindUnclaimed` | SeamFunctions/CumulativeEnergy.cs:360 | cells claimed so far all lie at or after line a, so line a-1 is the same in the old and new claim grids |
| `RootCumulative.PickMove` | SeamFunctions/CumulativeEnergy.cs:342-358 | the chosen neighbour and its direction code are those of the reference choice `Picked` |
| `RootCumulative.Rank` | SeamFunctions/CumulativeEnergy.cs:320 | writing k into the index map fails with IndexOutOfRange exactly when the cell lies outside the map; otherwise only that cell changes, to k |
| `RootCumulative.CumulativeEnergy.constructor` | SeamImage.cs:45 | the object initializer: a new object has the given energy function; the maps, masks and endpoint lists, which the source leaves null, are empty (see Left out) |
| `RootCumulative.CumulativeEnergy.ViewOf` | SeamFunctions/CumulativeEnergy.cs:241-259 | the read-only view of one direction's map and claim grid is well formed |
| `RootCumulative.CumulativeEnergy.ComputeEntireEnergyMap` | SeamFunctions/CumulativeEnergy.cs:30-50 | replaces one direction's map and claim grid by fresh ones of the image size, fills the whole map by the cumulative recurrence from zeros, leaves the other direction alone, and sorts the last-line endpoints; fails with IndexOutOfRange exactly when there are no lines but a positive lateral extent |
| `RootCumulative.CumulativeEnergy.Reset` | SeamFunctions/CumulativeEnergy.cs:34-47 | installs the new grids for the chosen direction, empties its list and returns the last lateral offset |
| `RootCumulative.CumulativeEnergy.ComputeSubEnergyMap` | SeamFunctions/CumulativeEnergy.cs:52-224 | refills the columns or rows between the offsets by the recurrence, leaves cells outside the size unchanged, and stores the sorted last-line endpoints; same failure condition as the harvest |
| `RootCumulative.CumulativeEnergy.SetUsedPixel` | SeamFunctions/CumulativeEnergy.cs:226-239 | an out-of-bounds cell throws ArgumentOutOfRange and changes nothing; otherwise exactly that cell becomes claimed |
| `RootCumulative.CumulativeEnergy.GetNeighbour` | SeamFunctions/CumulativeEnergy.cs:377-439 | returns the reference neighbour `NeighbourOf` for the left, straight and right cases |
| `RootCumulative.CumulativeEnergy.StraightNeighbourOf` | SeamFunctions/CumulativeEnergy.cs:394-397 | the cell directly behind, at cost IntMax when claimed; reading line -1 fails with IndexOutOfRange |
| `RootCumulative.CumulativeEnergy.SideNeighbourOf` | SeamFunctions/CumulativeEnergy.cs:386-393 | the first unclaimed cell sideways on the line behind, or the first out-of-bounds cell at cost IntMax |
| `RootCumulative.CumulativeEnergy.ChooseNeighbour` | SeamFunctions/CumulativeEnergy.cs:338-349 | the move chosen from the three neighbours is the reference `Choice` |
| `RootCumulative.CumulativeEnergy.Commit` | SeamFunctions/CumulativeEnergy.cs:351-365 | records the move's code, claims and ranks its cell; fails with ArgumentOutOfRange or IndexOutOfRange exactly when the cell is outside the image or the index map |
| `RootCumulative.CumulativeEnergy.Claim` | SeamFunctions/CumulativeEnergy.cs:318 | claiming the start cell fails exactly when it lies outside the image |
| `RootCumulative.CumulativeEnergy.BuildSeam` | SeamFunctions/CumulativeEnergy.cs:315-375 | the seam, the error, the claimed cells and the ranked cells are those of the reference construction `Build`; a null index map fails with NullReference; a start outside the size claims nothing, and a start inside it whose rank cannot be written (no index map, or a start outside it) has claimed exactly that cell |
| `RootCumulative.CumulativeEnergy.TraceBack` | SeamFunctions/CumulativeEnergy.cs:322-374 | from the claimed and ranked start cell the loop produces the reference seam and claims and ranks exactly its cells |
| `RootCumulative.CumulativeEnergy.WalkBack` | SeamFunctions/CumulativeEnergy.cs:331-368 | the loop keeps the walk invariant down to index 0, or fails with the reference walk's error |
| `RootCumulative.CumulativeEnergy.Iterate` | SeamFunctions/CumulativeEnergy.cs:333-367 | one loop iteration advances the walk invariant by one line, or fails with the reference error |
| `RootCumulative.CumulativeEnergy.GetKthLowestEnergySeam` | SeamFunctions/CumulativeEnergy.cs:285-313 | k outside the endpoint list throws ArgumentOutOfRange and changes nothing; otherwise builds the seam from the k-th endpoint, carrying its cumulative energy as seam value; when the k-th endpoint lies outside the size nothing is claimed, and when it lies inside but its rank cannot be written exactly it is claimed |
| `RootCumulative.CumulativeEnergy.RecomputeEnergyMapRange` | SeamFunctions/CumulativeEnergy.cs:261-283 | the body is commented out, so the method has no effect: it modifies nothing |
| `RootBacktrack.ScanStep` | SeamFunctions/CumulativeEnergy.cs:382-425 | the sideways step for a left or right neighbour is +1 or -1, as the direction and side pick it |
| `RootBacktrack.ScanSkips` | SeamFunctions/CumulativeEnergy.cs:429-432 | a claimed cell is skipped: scanning from it gives the same result as scanning past it |
| `RootBacktrack.ScanStops` | SeamFunctions/CumulativeEnergy.cs:427-438 | the scan stops at an unclaimed cell with its cumulative energy, or at the first out-of-bounds cell with IntMax |
| `RootBacktrack.ScanSkipsClaimed` | SeamFunctions/CumulativeEnergy.cs:427-438 | the scan's result lies on the same line, every cell strictly between is claimed, and it is either an unclaimed in-bounds cell with its energy or an out-of-bounds cell at IntMax |
| `RootBacktrack.ScanFrame` | SeamFunctions/CumulativeEnergy.cs:427-438 | the scan reads only its own line |
| `RootBacktrack.StepFrame` | SeamFunctions/CumulativeEnergy.cs:338-349 | one step of the walk reads only the line behind the current cell |
| `RootBacktrack.StraightFrame` | SeamFunctions/CumulativeEnergy.cs:394-397 | the straight neighbour reads only the line behind |
| `RootBacktrack.Step` | SeamFunctions/CumulativeEnergy.cs:338-365 | a successful step lands on a cell inside both the image and the index map |
| `RootBacktrack.StepChoice` | SeamFunctions/CumulativeEnergy.cs:342-358 | the step moves one line back; left wins only when strictly below both others, straight when not above left and strictly below right, right otherwise, and the cell matches the code |
| `RootBacktrack.StepGoesBack` | SeamFunctions/CumulativeEnergy.cs:387-419 | every successful step lands on the previous line |
| `RootBacktrack.WalkShape` | SeamFunctions/CumulativeEnergy.cs:329-368 | a walk of i steps yields i+1 codes (the first Straight) and i cells, on consecutive lines and inside image and index map |
| `RootBacktrack.BuildShape` | SeamFunctions/CumulativeEnergy.cs:322-374 | a built seam has one code per line, the first Straight, the right direction, value 0, one claimed cell per line ending at the start, and start index the lateral coordinate of the first cell |
| `RootBacktrack.ExtendStep` | SeamFunctions/CumulativeEnergy.cs:331-368 | unrolling one iteration: a walk from p equals, once its next move is known, the walk from the moved-to cell extended by that move |
| `RootBacktrack.Advance` | SeamFunctions/CumulativeEnergy.cs:338-367 | a move taken on the current claim grid keeps the walk invariant relative to the original grid |
| `RootBacktrack.Halt` | SeamFunctions/CumulativeEnergy.cs:338-340 | a step that fails part way makes the whole walk fail with that error |
| `RootBacktrack.Finish` | SeamFunctions/CumulativeEnergy.cs:331 | at index 0 the walk is complete with the cells and codes accumulated, led by Straight |
| `RootBacktrack.BuildOfWalk` | SeamFunctions/CumulativeEnergy.cs:315-375 | the seam construction equals the reference walk from the start: its error, or its codes with start index the lateral coordinate of its origin |
| `MinimalSeams.PrevStep` | SeamFunctions/CumulativeEnergy.cs:123-146 | in a recurrent table the chosen predecessor is an adjacent in-grid cell on the previous line, no costlier than any of the three, and the cell holds its energy plus that predecessor's value |
| `MinimalSeams.StepBound` | SeamFunctions/CumulativeEnergy.cs:136-146 | a cell's value is at most its energy plus the value of any adjacent cell on the previous line |
| `MinimalSeams.IsPathSnoc` | SeamFunctions/CumulativeEnergy.cs:125-133 | a connected path extended by an adjacent in-grid position on the next line is still a connected path |
| `MinimalSeams.CostSnoc` | SeamFunctions/CumulativeEnergy.cs:145-146 | extending a path adds exactly the energy of the new cell to its cost |
| `MinimalSeams.TableIsLowerBound` | SeamFunctions/CumulativeEnergy.cs:117-185 | a recurrent table's value at the end of any connected path from the leading line is at most that path's total energy |
| `MinimalSeams.Backtrack` | SeamFunctions/CumulativeEnergy.cs:329-368 | tracing predecessors back from line a gives one position per line ending at the start position |
| `MinimalSeams.BacktrackIsPath` | SeamFunctions/CumulativeEnergy.cs:338-365 | the traced positions form a connected in-grid path |
| `MinimalSeams.BacktrackCost` | SeamFunctions/CumulativeEnergy.cs:315-375 | the traced path's total energy equals the table value it started from, so the table value is attained |
| `MinimalSeams.Table` | SeamFunctions/CumulativeEnergy.cs:52-185 | the tabulated cumulative values have one row per line and one entry per lateral position |
| `MinimalSeams.TableCell` | SeamFunctions/CumulativeEnergy.cs:145-146 | each entry of the table is the cumulative value of that cell |
| `MinimalSeams.EnergyWithin` | SeamFunctions/CumulativeEnergy.cs:145-146 | under the bound hypothesis every cell's energy lies within [-b, b] |
| `MinimalSeams.PredInside` | SeamFunctions/CumulativeEnergy.cs:125-133 | a predecessor inside the grid reads its cumulative value, one outside reads int.MaxValue |
| `MinimalSeams.StepWithin` | SeamFunctions/CumulativeEnergy.cs:136-146 | with bounded predecessors (or int.MaxValue at an edge) the new sum stays within the next bound, so the 32-bit addition does not wrap |
| `MinimalSeams.SumWithin` | SeamFunctions/CumulativeEnergy.cs:145-146 | a bounded energy plus a bounded minimum stays within the next bound and is unchanged by 32-bit wrap-around |
| `MinimalSeams.CumExact` | SeamFunctions/CumulativeEnergy.cs:72-185 | each cumulative value lies within (a+1)*b in magnitude and equals its energy plus the least of its three predecessors (energy alone on line 0), without wrap-around |
| `MinimalSeams.CumLeading` | SeamFunctions/CumulativeEnergy.cs:72-80 | a leading-line cell is bounded by b and holds exactly its energy |
| `MinimalSeams.CumStep` | SeamFunctions/CumulativeEnergy.cs:119-146 | a later cell with bounded predecessors is bounded by (a+1)*b and holds its energy plus their minimum |
| `MinimalSeams.PlainWritesAll` | SeamFunctions/CumulativeEnergy.cs:30-49 | a full recompute writes every cell of the grid |
| `MinimalSeams.PredBound` | SeamFunctions/CumulativeEnergy.cs:125-133 | every predecessor read is either int.MaxValue (outside the grid) or within the bound for its line |
| `MinimalSeams.TableTabulates` | SeamFunctions/CumulativeEnergy.cs:52-185 | the table agrees with the cumulative values cell by cell |
| `MinimalSeams.CumHolds` | SeamFunctions/CumulativeEnergy.cs:119-146 | every cell of the table satisfies the recurrence, below int.MaxValue |
| `MinimalSeams.CumIsRecurrent` | SeamFunctions/CumulativeEnergy.cs:30-185 | a full recompute over unclaimed cells with small enough energies yields a recurrent table |
| `MinimalSeams.CumIsLeastCost` | SeamFunctions/CumulativeEnergy.cs:30-375 | after such a recompute each cell holds the least total energy over all connected paths from the leading line to it, and the predecessor trace attains it |
| `Carving.KeptLine` | SeamImage.cs:311-330 | the cells the carve keeps from the first l cells of a line number at most l |
| `Carving.Record` | SeamImage.cs:315-320 | appending a removed cell puts it at the end of its rank's list (a new list when the rank is new) and leaves every other rank's list as it was |
| `Carving.KeptLineMember` | SeamImage.cs:311-330 | a cell is kept from a line prefix exactly when it lies on that line, within the prefix, and has rank at least k |
| `Carving.KeptScanMember` | SeamImage.cs:309-331 | a cell is among those kept so far exactly when the scan has passed it and its rank is at least k |
| `Carving.RankedScanMember` | SeamImage.cs:313-320 | a cell is listed under rank r exactly when the scan has passed it and its rank is r |
| `Carving.RemovedScanAt` | SeamImage.cs:300-320 | the removed-pixel dictionary has an entry for r exactly when r < k and some passed cell has rank r, and that entry lists those cells in scan order |
| `Carving.CopiedOrRecorded` | SeamImage.cs:313-329 | every passed cell is either copied or listed in the dictionary, never both, and a listed cell is listed under its own rank, which is below k |
| `Carving.KeptScanSplit` | SeamImage.cs:309-311 | the cells kept so far are those of the finished lines followed by those of the current line |
| `Carving.KeptScanPrefix` | SeamImage.cs:309-331 | the cells kept from fewer lines are a prefix of those kept from more |
| `Carving.EvenLinesAlign` | SeamImage.cs:306-330 | when every finished row keeps exactly m cells, the x-th kept cell of row y lands at flat position y*m + x of the destination |
| `Carving.FlatDistinct` | SeamImage.cs:325-329 | distinct (x, y) cells of an m-wide row-major buffer have distinct flat offsets |
| `Carving.ZeroRanks` | SeamImage.cs:49-50 | an index map as the constructor allocates it holds rank 0 in every cell |
| `Carving.Unranked` | SeamImage.cs:313 | an index map with int.MaxValue in every cell ranks no cell |
| `Carving.ZeroRanksDropEverything` | SeamImage.cs:313-322 | over an all-zero index map a carve with k >= 1 keeps no pixel |
| `Carving.ZeroRanksListEverything` | SeamImage.cs:315-320 | over an all-zero index map every passed cell is listed under rank 0 |
| `Carving.UnrankedKeepsEverything` | SeamImage.cs:325-329 | over an unranked map every passed cell is copied |
| `Carving.UnrankedListsNothing` | SeamImage.cs:313-320 | over an unranked map no cell is recorded as removed |
| `Carving.Place` | SeamImage.cs:325-329 | writing a copied pixel at the destination cursor extends the filled prefix by that pixel and advances the cursor, wrapping to the next row at the width |
| `Carving.CarveRows` | SeamImage.cs:286-332 | the vertical carve fails with IndexOutOfRange exactly when more pixels are kept than the new width*height buffer holds; otherwise the new bitmap is the kept pixels in row-major order and the dictionary is the removed cells by rank |
| `Carving.FillRows` | SeamImage.cs:306-331 | the row-by-row copy loop fills the destination with the kept pixels in scan order, or reports the overflow |
| `Carving.CarveRow` | SeamImage.cs:311-330 | one row of the copy loop keeps the scan invariant |
| `Carving.RowStep` | SeamImage.cs:313-329 | one cell of the copy loop either records the cell under its rank or copies it to the cursor |
| `Carving.CarveColumns` | SeamImage.cs:334-365 | the horizontal carve fails with IndexOutOfRange exactly when some column keeps more pixels than the new height; otherwise each column holds its kept pixels top down, black below, and the dictionary is the removed cells by rank |
| `Carving.FillColumns` | SeamImage.cs:337-363 | the column loop fills every column as above, or reports the overflow |
| `Carving.CarveColumn` | SeamImage.cs:339-362 | one column keeps the loop invariant or fails exactly when it keeps too many pixels |
| `Carving.CarveColumnCells` | SeamImage.cs:342-362 | one column's cells are written as its kept pixels down the column, black below, leaving other columns untouched |
| `Carving.ColumnStep` | SeamImage.cs:344-361 | one cell of the column loop records or copies it, writing only its own column |
| `RootSeamImage.RanksAddedIsRankCells` | SeamFunctions/CumulativeEnergy.cs:320 | a grid that differs from another exactly by rank k on the given cells is that grid with those cells overwritten by k |
| `RootSeamImage.LastRound` | SeamImage.cs:204-221 | the round that last claimed a cell, if any: the cell is in that round's claims and in none after it |
| `RootSeamImage.RanksThroughAt` | SeamImage.cs:204-221 | after the rounds of GetKBestSeams each index-map cell holds the number of the last round that claimed it, or its old value |
| `RootSeamImage.RankedBelowIffClaimed` | SeamImage.cs:204-221 | a cell whose old rank was at least the number of rounds ends below it exactly when some round claimed it |
| `RootSeamImage.HarvestAscending` | SeamFunctions/CumulativeEnergy.cs:223 | seams harvested from sorted endpoint lists in round order have non-decreasing seam values |
| `RootSeamImage.ClaimCells` | SeamFunctions/CumulativeEnergy.cs:226-239 | a mask with further cells claimed keeps the mask's shape |
| `RootSeamImage.ClaimsAddedIsClaimCells` | SeamFunctions/CumulativeEnergy.cs:226-239 | a mask that differs from another by exactly the claims of some cells is that mask with those cells claimed |
| `RootSeamImage.ClaimCellsCompose` | SeamImage.cs:205-221 | claiming the cells of one round and then of the next claims both rounds' cells |
| `RootSeamImage.ClaimCellsNone` | SeamImage.cs:205 | claiming no cells leaves a mask unchanged, as before round 0 |
| `RootSeamImage.ClaimCellsAdded` | SeamFunctions/CumulativeEnergy.cs:226-239 | a mask with cells claimed holds exactly the old claims and those cells |
| `RootSeamImage.ClaimsAddedNone` | SeamImage.cs:210 | a mask with no cells added is that mask: a single-direction round claims nothing in the other mask |
| `RootSeamImage.Claiming` | SeamImage.cs:205-221 | a view with cells claimed keeps its direction, size and cumulative map, and stays well formed |
| `RootSeamImage.ClaimingAgain` | SeamImage.cs:205-221 | adding one round's claims to the view with earlier claims gives the view with both |
| `RootSeamImage.RoundRecorded` | SeamImage.cs:205-221 | after a round on the harvest so far, the index map is ranked by all rounds so far and the masks hold all their claims |
| `RootSeamImage.RoundOf` | SeamImage.cs:207-218 | round i: the lookup of rank i in the direction, or in both (vertical first) keeping the vertical seam only when strictly cheaper, the first exception ending it; a single-direction round claims nothing in the other mask |
| `RootSeamImage.RoundOfBoth` | SeamImage.cs:214-217 | an Optimal round is the vertical lookup, then the horizontal one, the strictly cheaper vertical seam kept, ranking the cells of both |
| `RootSeamImage.HauledNext` | SeamImage.cs:205-221 | round i of the harvest reads the views with the claims of rounds 0..i-1 made and extends the harvest by its seam and cells |
| `RootSeamImage.HauledResumed` | SeamImage.cs:205-221 | running the loop from round i on the harvest of the first i rounds finishes the whole harvest |
| `RootSeamImage.RoundHarvested` | SeamImage.cs:207-218 | a round's seam is the harvested seam of its rank: the endpoint list's direction and cost |
| `RootSeamImage.HauledHarvested` | SeamImage.cs:201-223 | a completed harvest has one seam and one cell batch per round, each seam harvested for its rank, and no claims in the other direction's mask |
| `RootSeamImage.RoundIgnoresOther` | SeamImage.cs:210 | a vertical round reads nothing of the horizontal view |
| `RootSeamImage.HauledIgnoresOther` | SeamImage.cs:607-615 | a vertical harvest reads nothing of the horizontal view, so the horizontal thread cannot affect the vertical one |
| `RootSeamImage.HauledStops` | SeamImage.cs:205-221 | an exception ends the harvest: every longer harvest ends with the same exception |
| `RootSeamImage.MarkingsSound` | SeamImage.cs:569-584 | every marking comes from a stylus point of some stroke, with that stroke's kind |
| `RootSeamImage.MarkingsComplete` | SeamImage.cs:573-583 | every stylus point of every stroke yields a marking of its stroke's kind |
| `RootSeamImage.RefinedUnmarked` | SeamImage.cs:586-599 | a cell outside the image or never marked keeps its energy |
| `RootSeamImage.RefinedMarked` | SeamImage.cs:590-597 | a marked cell inside the image takes the energy (50000 or -50000) of its last marking |
| `RootSeamImage.SeamImage.constructor` | SeamImage.cs:41-51 | the new image has the bitmap's size, a fresh seam function sharing the energy function, the Sobel energy of the bitmap in a fresh energy map, and two all-zero index maps |
| `RootSeamImage.SeamImage.RecomputeEntireMap` | SeamImage.cs:88-92 | recomputes both cumulative maps with fresh, unclaimed masks; fails exactly when one of width and height is zero and the other is not |
| `RootSeamImage.SeamImage.KthSeam` | SeamImage.cs:206-218 | GetKthLowestEnergySeam of rank i is `Lookup` of rank i on the direction's view: the seam backtracked (`Build`) from the i-th endpoint, valued at its cost, or the lookup's exception; on success it ranks i exactly the cells that backtrack claims and claims exactly those cells in the direction's mask |
| `RootSeamImage.SeamImage.GetKBestSeams` | SeamImage.cs:194-224 | no list exactly when both sides are shorter than k; otherwise the result is `Hauled` over the views on entry: k seams (none for a negative k), the j-th harvested in round j, `claims[j]` the cells that round's backtracks claimed, each index-map cell ranked by the last round that claimed it, and the masks holding exactly the claimed cells besides their old claims; or the first exception of a lookup |
| `RootSeamImage.SeamImage.Harvest` | SeamImage.cs:205-221 | the for loop of GetKBestSeams: the seams and claims are those of `Resumed` from round 0 (so of `Hauled`), the first exception ending the loop; when no round raises, n seams, `claims[j]` the cells of seam j, the index map ranked by the rounds and the claim masks holding exactly the claimed cells besides their old claims |
| `RootSeamImage.SeamImage.Step` | SeamImage.cs:206-221 | one iteration on the harvest so far is `RoundOf` over the views with its claims made; its seam and cells extend the harvest, and the loop invariant (index map ranked by the rounds, masks holding the harvest's claims) is kept |
| `RootSeamImage.SeamImage.Round` | SeamImage.cs:208-218 | one round is `RoundOf` over the views as they stand: its seam or exception, the round number written on exactly the cells it ranks, and exactly its claims added to each mask |
| `RootSeamImage.SeamImage.CalculateIndexMaps` | SeamImage.cs:601-625 | the horizontal seams are `Hauled` of height rounds and the vertical seams `Hauled` of width rounds, both over the views on entry, with the first exception as the failure; on success both index maps are ranked by their rounds, `hclaims[j]` and `vclaims[j]` the cells of seam j; nothing else of the image changes |
| `RootSeamImage.SeamImage.ViewFor` | SeamImage.cs:210 | the view the lookups of a direction read: that direction over the image's size, and the seam function's own view of its map and mask when they cover the image |
| `RootSeamImage.SeamImage.RoundSingle` | SeamImage.cs:208-211 | a Vertical or Horizontal round is the lookup of rank i on that direction's view, ranking i exactly its cells and claiming them in that mask |
| `RootSeamImage.SeamImage.RoundBoth` | SeamImage.cs:212-218 | an Optimal round is `RoundOf`: both lookups ranked in the one index map, each direction's claims in its own mask |
| `RootSeamImage.SeamImage.HorizontalThread` | SeamImage.cs:607-610 | the horizontal thread's seams are `Hauled` of height horizontal rounds, claims included, and it leaves the vertical view unchanged |
| `RootSeamImage.SeamImage.VerticalThread` | SeamImage.cs:612-615 | the vertical thread's seams are `Hauled` of width vertical rounds, claims included |
| `RootSeamImage.SeamImage.CarveSeams` | SeamImage.cs:286-381 | a non-positive new size is InvalidArgument, an index map smaller than the image IndexOutOfRange; otherwise the vertical carve packs the kept pixels row-major and the horizontal carve packs each column, with the new size, and any failure leaves the image as it was |
| `RootSeamImage.SeamImage.SetEnergy` | SeamImage.cs:569-584 | the user markings become one per stylus point of the strokes, and the energy map holds them applied by RefineEnergy |
| `RootSeamImage.SeamImage.RefineEnergy` | SeamImage.cs:586-599 | every energy cell takes its last in-image marking's energy and keeps its value otherwise; a marking inside the size but outside the energy map fails with IndexOutOfRange |
| `RootSeamImage.SeamImage.ApplyMark` | SeamImage.cs:588-598 | applies one marking to the energy map, extending the applied prefix, or reports the out-of-map cell |
| `RootSeamImage.SeamImage.AddSeam` | SeamImage.cs:413-476 | succeeds exactly when the loop does not run (the image is not smaller than the minimum size on both sides), and then no mask changes; otherwise the lookup of rank 1 without an index map fails in the consulted direction: ArgumentOutOfRange exactly when its list has no second entry or that entry lies outside the image, with no mask changed, and NullReference otherwise, after claiming exactly that entry's cell; the other direction's mask never changes |
| `TrunkCumulative.CandidatesCoverLastLine` | trunk/SeamFunctions/CumulativeEnergy.cs:208-238 | the endpoint list has one entry per lateral position of the last line, in order, each costing its cumulative energy when in bounds and unclaimed and int.MaxValue otherwise (all of them when there is no line) |
| `TrunkCumulative.CandidatesGrow` | trunk/SeamFunctions/CumulativeEnergy.cs:232-238 | one iteration of the harvest loop extends the list by the next endpoint and its cost |
| `TrunkCumulative.FillReadsCosts` | trunk/SeamFunctions/CumulativeEnergy.cs:117-160 | a refilled cell's value is its energy plus the least of its three predecessors as GetCumulativeEnergy reads them, wrapped to 32 bits |
| `TrunkCumulative.PredIsCost` | trunk/SeamFunctions/CumulativeEnergy.cs:263-271 | the fill's predecessor value is exactly the cost GetCumulativeEnergy returns for that cell |
| `TrunkCumulative.MarkedCompose` | trunk/SeamFunctions/CumulativeEnergy.cs:243-256 | marking one list of cells and then another marks their concatenation |
| `TrunkCumulative.StepUnmarked` | trunk/SeamFunctions/CumulativeEnergy.cs:360-380 | cells marked at or after line a do not change the backtrack step taken from line a |
| `TrunkCumulative.CostUnmarked` | trunk/SeamFunctions/CumulativeEnergy.cs:263-271 | marking cells at or after line a leaves every cost before line a unchanged |
| `TrunkCumulative.ShiftedLine` | trunk/Utilities.cs:56-84 | shifting one line of a grid keeps its shape |
| `TrunkCumulative.Shifted` | trunk/SeamFunctions/CumulativeEnergy.cs:277-280 | shifting the lines of all seam cells in turn keeps the grid's shape |
| `TrunkCumulative.ShiftedSnap` | trunk/Utilities.cs:56-84 | an array whose cells hold the line shifted left by one from the removed cell, int.MaxValue written at the line end, is the shifted grid |
| `TrunkCumulative.Choose` | trunk/SeamFunctions/CumulativeEnergy.cs:382-475 | the backtrack move chosen from the three costs is the reference move for the three-way choice |
| `TrunkCumulative.CumulativeEnergy.constructor` | trunk/SeamImage.cs:31 | the object initializer: a new object has the given energy function and neither direction dirty (the flags' default false); the maps, masks and lists, which the source leaves null, are empty (see Left out) |
| `TrunkCumulative.CumulativeEnergy.ViewOf` | trunk/SeamFunctions/CumulativeEnergy.cs:258-271 | the read-only view of one direction's map and mask is well formed for that direction and size |
| `TrunkCumulative.CumulativeEnergy.GetUsedPixel` | trunk/SeamFunctions/CumulativeEnergy.cs:258-261 | returns the direction's mask entry |
| `TrunkCumulative.CumulativeEnergy.GetCumulativeEnergy` | trunk/SeamFunctions/CumulativeEnergy.cs:263-271 | returns the map value of an in-bounds unclaimed cell and int.MaxValue otherwise |
| `TrunkCumulative.CumulativeEnergy.SetUsedPixel` | trunk/SeamFunctions/CumulativeEnergy.cs:243-256 | marks the cell when it lies inside the size and silently does nothing otherwise |
| `TrunkCumulative.CumulativeEnergy.Harvest` | trunk/SeamFunctions/CumulativeEnergy.cs:208-238 | the list built is the reference endpoint list |
| `TrunkCumulative.CumulativeEnergy.ComputeSubEnergyMap` | trunk/SeamFunctions/CumulativeEnergy.cs:47-241 | a bad direction throws InvalidEnumArgument and changes nothing; otherwise the offsets' cone is refilled by the recurrence with claimed cells read as int.MaxValue, cells outside the size are kept, the direction becomes clean and its list is the sorted endpoints |
| `TrunkCumulative.CumulativeEnergy.Publish` | trunk/SeamFunctions/CumulativeEnergy.cs:199-240 | clears the dirty flag and stores the sorted endpoints, leaving the other direction alone |
| `TrunkCumulative.CumulativeEnergy.ComputeEntireEnergyMap` | trunk/SeamFunctions/CumulativeEnergy.cs:25-45 | a bad direction fails; otherwise fresh map and mask of the size, no claims, the whole map filled from zeros, sorted endpoints, the direction clean and the other unchanged |
| `TrunkCumulative.CumulativeEnergy.Reset` | trunk/SeamFunctions/CumulativeEnergy.cs:29-42 | installs the new grids for the direction, empties its list and returns the last lateral offset |
| `TrunkCumulative.CumulativeEnergy.LineBefore` | trunk/SeamFunctions/CumulativeEnergy.cs:363-380 | reads the three cells on the line behind and their costs |
| `TrunkCumulative.CumulativeEnergy.ChooseStep` | trunk/SeamFunctions/CumulativeEnergy.cs:360-475 | the step taken from a cell is the reference step `StepFrom` |
| `TrunkCumulative.CumulativeEnergy.BackOne` | trunk/SeamFunctions/CumulativeEnergy.cs:358-481 | one loop iteration moves the walker to its reference successor: codes, position and marks |
| `TrunkCumulative.CumulativeEnergy.Commit` | trunk/SeamFunctions/CumulativeEnergy.cs:395-473 | records the step's code when one is written and marks the step's cell |
| `TrunkCumulative.CumulativeEnergy.BuildSeam` | trunk/SeamFunctions/CumulativeEnergy.cs:337-494 | the seam is the reference backtrack from the start cell, and the mask gains exactly the reference marks |
| `TrunkCumulative.CumulativeEnergy.WalkBack` | trunk/SeamFunctions/CumulativeEnergy.cs:357-481 | the loop ends on the reference walker's codes, position and marks |
| `TrunkCumulative.CumulativeEnergy.Refresh` | trunk/SeamFunctions/CumulativeEnergy.cs:305-326 | a dirty direction is recomputed from scratch and the other direction becomes dirty; a clean one is left untouched |
| `TrunkCumulative.CumulativeEnergy.GetKthLowestEnergySeam` | trunk/SeamFunctions/CumulativeEnergy.cs:297-335 | k too big for both sides or a bad direction throws ArgumentOutOfRange and changes nothing; otherwise the direction is refreshed when dirty, and the k-th endpoint's seam is built over the refreshed view carrying its cost, or k outside the list throws ArgumentOutOfRange |
| `TrunkCumulative.CumulativeEnergy.Fetch` | trunk/SeamFunctions/CumulativeEnergy.cs:328-334 | the k-th endpoint's seam with its cost and marks, or ArgumentOutOfRange outside the list |
| `TrunkCumulative.CumulativeEnergy.ShiftMap` | trunk/SeamFunctions/CumulativeEnergy.cs:279 | shifting the map at one seam cell gives the reference shifted line |
| `TrunkCumulative.CumulativeEnergy.ShiftAll` | trunk/SeamFunctions/CumulativeEnergy.cs:277-280 | shifting at every seam cell gives the reference shifted grid, or fails with IndexOutOfRange exactly when some cell lies beyond the map |
| `TrunkCumulative.CumulativeEnergy.ShiftNext` | trunk/SeamFunctions/CumulativeEnergy.cs:277-280 | one iteration shifts at the next cell or reports that it lies beyond the map |
| `TrunkCumulative.CumulativeEnergy.RecomputeEnergyMapRange` | trunk/SeamFunctions/CumulativeEnergy.cs:273-295 | a bad direction changes nothing; a seam whose locations fail is IndexOutOfRange; otherwise the map is shifted at the seam's cells, refilled from the seam's start index, the direction clean and sorted, and the other direction dirty. A start index inside the lateral extent is the caller's obligation, which the source does not check; every call of the method in the source is commented out |
| `TrunkCumulative.CumulativeEnergy.ShiftAndRefill` | trunk/SeamFunctions/CumulativeEnergy.cs:277-293 | shifts the map at the given cells, failing with IndexOutOfRange exactly when one lies beyond the map; otherwise refills the cone from the start index, makes the direction clean with sorted endpoints and marks the other dirty |
| `TrunkBacktrack.StepFromMoves` | trunk/SeamFunctions/CumulativeEnergy.cs:382-475 | a step's code, when written, is the lateral move made; from inside the grid the new lateral position is inside it, at most one away, and no code is written exactly when it did not move (straight or clamped) |
| `TrunkBacktrack.StepFromMark` | trunk/SeamFunctions/CumulativeEnergy.cs:382-475 | the marked cell lies on the line before, within one of the current position, is the cell moved to when in bounds, and costs no more than any of the three candidates |
| `TrunkBacktrack.StepFromCandidates` | trunk/SeamFunctions/CumulativeEnergy.cs:360-380 | the step equals the move for the three-way choice over the costs of the three cells behind |
| `TrunkBacktrack.MarkOnLineBefore` | trunk/SeamFunctions/CumulativeEnergy.cs:411-473 | the marked cell always lies on the previous line |
| `TrunkBacktrack.Advance` | trunk/SeamFunctions/CumulativeEnergy.cs:477-480 | advancing the walker decrements the pixel index and keeps the number of codes |
| `TrunkBacktrack.Cells` | Seam.cs:16-64 | lateral positions become one cell per along line, in order |
| `TrunkBacktrack.BeginOnTrack` | trunk/SeamFunctions/CumulativeEnergy.cs:352-357 | the walker before the loop is on track and has visited only its start |
| `TrunkBacktrack.AdvanceOnTrack` | trunk/SeamFunctions/CumulativeEnergy.cs:382-480 | a step whose code matches its lateral move keeps the walker on track |
| `TrunkBacktrack.AdvanceMarksVisited` | trunk/SeamFunctions/CumulativeEnergy.cs:411-473 | a step that marks the cell it moves to (or one outside the grid) keeps every in-grid mark on the visited path |
| `TrunkBacktrack.NextOnTrack` | trunk/SeamFunctions/CumulativeEnergy.cs:358-481 | one loop iteration keeps both walker invariants |
| `TrunkBacktrack.RunOnTrack` | trunk/SeamFunctions/CumulativeEnergy.cs:358-481 | the loop ends at pixel index 0 with both invariants |
| `TrunkBacktrack.DecodeFrom` | Seam.cs:16-64 | decoding codes whose deltas match consecutive in-grid lateral positions yields exactly those cells |
| `TrunkBacktrack.DecodeAll` | Seam.cs:16-64 | a seam whose start index and codes match a lateral path decodes to that path's cells |
| `TrunkBacktrack.WalkerDecodes` | trunk/SeamFunctions/CumulativeEnergy.cs:483-491 | the seam built from a finished walker decodes to the visited cells |
| `TrunkBacktrack.WalkerEnds` | trunk/SeamFunctions/CumulativeEnergy.cs:337-494 | the visited path has one cell per line and ends at the start cell |
| `TrunkBacktrack.WalkerMarks` | trunk/SeamFunctions/CumulativeEnergy.cs:411-473 | every in-grid marked cell lies on the visited path |
| `TrunkBacktrack.BuiltSeamDecodes` | trunk/SeamFunctions/CumulativeEnergy.cs:337-494 | the seam BuildSeam returns decodes, through PixelLocations, to a connected path of one cell per line ending at the start cell, and every in-grid cell it claimed lies on that path |
| `TrunkSeamImage.Edited` | trunk/SeamImage.cs:109-171 | one pixel edit (a shift or a splice) at a seam cell keeps the bitmap's shape |
| `TrunkSeamImage.EditedAll` | trunk/SeamImage.cs:215-218 | applying the edit at every seam cell in turn, when each fits, keeps the bitmap's shape |
| `TrunkSeamImage.EditedAllSome` | trunk/SeamImage.cs:215-218 | the walk over the seam cells succeeds exactly when every cell's edit fits in the bitmap |
| `TrunkSeamImage.EditedOffLine` | trunk/SeamImage.cs:113-162 | an edit at a cell changes no pixel off that cell's line |
| `TrunkSeamImage.EditedOnLine` | trunk/SeamImage.cs:113-162 | an edit reads only its own line: bitmaps that agree on that line edit to the same line |
| `TrunkSeamImage.EditedAllCells` | trunk/SeamImage.cs:215-218 | with one seam cell per line, the whole walk equals editing each line once at its own cell |
| `TrunkSeamImage.WalkStep` | trunk/SeamImage.cs:215-218 | adding the next seam cell to the walk edits only its line, as the per-line description says |
| `TrunkSeamImage.EditedIsBitmapOperation` | trunk/SeamImage.cs:109-171 | a carve edit is ShiftPixels and a splice edit is ShiftAddPixels on rows or columns as the direction says |
| `TrunkSeamImage.LineOfWalk` | trunk/SeamImage.cs:213-228 | after the whole walk each seam line reads as that line edited once at its own cell |
| `TrunkSeamImage.ShiftedOutWhole` | trunk/SeamImage.cs:113-162 | shifting out at lateral l leaves the line as its cells before l, then those after l, then black |
| `TrunkSeamImage.CarvedLine` | trunk/SeamImage.cs:213-228 | after CarveSeam's walk each seam line is the old line with its seam cell removed and black appended |
| `TrunkSeamImage.WalkOne` | trunk/SeamImage.cs:215-218 | the walk over one more cell is the previous walk's result edited at that cell |
| `TrunkSeamImage.Blacks` | trunk/SeamImage.cs:358 | a fresh 24-bit bitmap is all black |
| `TrunkSeamImage.SeamImage.constructor` | trunk/SeamImage.cs:27-59 | takes the bitmap and its size and leaves the energy and both cumulative maps computed from it |
| `TrunkSeamImage.SeamImage.RecomputeEntireImage` | trunk/SeamImage.cs:61-72 | the energy map becomes the Sobel energy of the bitmap, both directions are recomputed from it with fresh masks, and the bitmap is unchanged |
| `TrunkSeamImage.SeamImage.ComputeMaps` | trunk/SeamImage.cs:70-71 | both directions are computed from the current energy, clean and sorted, with fresh masks |
| `TrunkSeamImage.SeamImage.ComputeDirection` | trunk/SeamImage.cs:70 | one direction is computed and clean; the other is left alone |
| `TrunkSeamImage.SeamImage.Nth` | trunk/SeamImage.cs:191 | succeeds exactly when i passes the size guard and lies within the list, and the seam is then `Ranked`: the backtrack, over the direction's view before the call, of the i-th endpoint, carrying its cost; only claim masks change |
| `TrunkSeamImage.SeamImage.Lookup` | trunk/SeamImage.cs:188-203 | the seam is `Picked` over both views before the call: the direction's `Ranked` seam, or for Optimal the vertical one only when strictly cheaper; succeeds exactly when i passes the guard and both lists hold it |
| `TrunkSeamImage.SeamImage.Both` | trunk/SeamImage.cs:198-203 | for Optimal: the vertical lookup, then the horizontal one over the horizontal view as it was before (the vertical lookup claims only in the vertical mask), the first exception ending it; succeeds exactly when both lists hold i and the guard passes, with the `Picked` seam |
| `TrunkSeamImage.Ranked` | trunk/SeamFunctions/CumulativeEnergy.cs:297-335 | the i-th seam of a direction's list over a view: its direction is the view's and its value the entry's cost |
| `TrunkSeamImage.Picked` | trunk/SeamImage.cs:336-347 | the seam a lookup yields is the harvested one of its rank (`RootSeamImage.Harvested`): direction and cost as the lists decide |
| `TrunkSeamImage.SeamImage.GetKBestSeams` | trunk/SeamImage.cs:173-211 | null exactly when both sides are below k; otherwise k seams, the j-th harvested with index j and in ascending cost, or ArgumentOutOfRange exactly when k exceeds what the lists hold |
| `TrunkSeamImage.SeamImage.CarveSeam` | trunk/SeamImage.cs:213-228 | ShiftPixels at every seam location in turn, then one dimension shrinks by one as the direction says; a location beyond the bitmap fails with IndexOutOfRange and keeps the size |
| `TrunkSeamImage.SeamImage.ShiftSeam` | trunk/SeamImage.cs:215-218 | the shift loop walks the seam's locations, stopping at the first that does not fit |
| `TrunkSeamImage.SeamImage.ShiftAt` | trunk/SeamImage.cs:217 | one shift extends the walk by one cell, or fails with the bitmap unchanged when it does not fit |
| `TrunkSeamImage.SeamImage.AddSeamToBitmap` | trunk/SeamImage.cs:416-422 | ShiftAddPixels at every seam location in turn, stopping at the first that does not fit with IndexOutOfRange |
| `TrunkSeamImage.SeamImage.SpliceAt` | trunk/SeamImage.cs:420 | one splice extends the walk by one cell, or fails with the bitmap unchanged when it does not fit |
| `TrunkSeamImage.SeamImage.AddSeam` | trunk/SeamImage.cs:329-394 | does nothing when the image is not below the minimum on both sides; otherwise grows one dimension per iteration until it is, staying within the minimum, ending with the energy and maps recomputed |
| `TrunkSeamImage.SeamImage.Grow` | trunk/SeamImage.cs:336-386 | one iteration: the seam is the `Picked` seam of index 1 over the views before the iteration, one dimension grows by one as its direction says, the old bitmap is copied into a fresh black one and that seam's cells are spliced in (`Spliced`), a zero-sized new bitmap is InvalidArgument, and on success everything is recomputed |
| `TrunkSeamImage.SeamImage.Adopt` | trunk/SeamImage.cs:349-386 | the given seam's direction decides which dimension grows by one; a zero dimension is InvalidArgument; otherwise the bitmap is the old one overlaid on black with the seam spliced in, and on success everything is recomputed |
| `TrunkSeamImage.SeamImage.Enlarge` | trunk/SeamImage.cs:358-386 | a fresh bitmap of the new size holds the old one overlaid on black, spliced along the seam, then the energy and maps are recomputed |
| `TrunkSeamImage.SeamImage.Copied` | trunk/SeamImage.cs:396-414 | the new bitmap of the current size holds the overlapping region of the old bitmap and black elsewhere |

## Left out

- Windows, events and timing: `OnImageChanged`, `OnSeamFound` and the other events, `Thread.Sleep`, and the main window. Where the source only raises an event (for example `paintSeam`), the model does nothing.
- `LockBits` and bitmap stride: a bitmap is an `array2` of pixels indexed `[x, y]`, with the stride assumed to be three bytes per pixel and no row padding.
- Stylus and mouse input: the truncation of stylus coordinates to pixels belongs to the window code, so user markings are given as integer points.
- `m_UserEnergy` being null is modelled as an empty list of markings.
- RootSeamImage.SeamImage.GetKBestSeams: requires, through `Ranks`, that the cumulative maps cover the image. Only `RecomputeEntireMap` establishes this (the constructor does not compute the cumulative maps); the source relies on it without checking, and its one caller of `CalculateIndexMaps` calls `RecomputeEntireMap` just before it (`MainWindow.xaml.cs:385-386`). `Harvest`, `Step`, `Round`, `RoundSingle`, `RoundBoth`, `HorizontalThread`, `VerticalThread`, `CalculateIndexMaps` and `AddSeam` carry the same requirement.
- RootSeamImage.SeamImage.constructor: requires bitmap dimensions of at most int.MaxValue, which every .NET array satisfies. The trunk constructor and the trunk map-shifting methods require the same of their arrays.
- TrunkSeamImage.SeamImage.AddSeam: requires the minimum size to be below int.MaxValue, so that the growth loop's counter cannot overflow.
- TrunkSeamImage.SeamImage.AddSeam: states the size bounds and the errors of the loop as a whole; which seam each round adds and where it is spliced is stated per round by `TrunkSeamImage.SeamImage.Grow`, and the contract does not chain the rounds.
- The root `Carve` (`SeamImage.cs:243-284`) is `CarveSeams` plus events; only `CarveSeams` is modelled.
- The `removedPixels` list the carve collects is discarded by its callers, so the model does not return it.
- RootSeamImage.SeamImage.AddSeam: models the null index map by returning the failure, after the claim the source makes before it; it does not model `AddSeam` as evidently intended.
- `GenerateEnergyMapBitmap` (`SeamImage.cs:383-401`), which only paints the energy map for display, is not modelled.
- Floating point: the Sobel magnitude's `Math.Sqrt` is modelled as the exact integer floor square root. This agrees with truncating the double only as far as the double square root is correctly rounded, which IEEE 754 guarantees.
- Floating point: the luminance weights (0.2126, 0.7152, 0.0722) are computed exactly in ten-thousandths, so the rounding of the double products is not modelled.
- Prewitt and Roberts: the `GetPixelValue` lookup they call is a parameter (any function from coordinates to bytes).
- The trunk `ref i` argument to `GetKthLowestEnergySeam` is passed by value, which is what the callee's signature does.
- The trunk `Carve` (`trunk/SeamImage.cs:230-293`) only harvests seams: its removal loop is commented out. Its harvesting is `GetKBestSeams`; its painting, sleeping and events are left out.
- TrunkCumulative.CumulativeEnergy.RecomputeEnergyMapRange: when the seam fails to decode, the model reports the failure before shifting anything, whereas the source would already have shifted the cells of the points it decoded.
- TrunkSeamImage.SeamImage.GetKBestSeams: `RootSeamImage.Harvested` gives only each seam's direction and cost; with the ascending order of costs that is all the contract states. Which cells seam j runs through depends on the claims the earlier lookups of the harvest made, which the contract does not chain. For a single lookup `TrunkSeamImage.SeamImage.Nth`, `Lookup` and `Grow` do name the seam (`Ranked`, `Picked`), and `TrunkBacktrack.BuiltSeamDecodes` states its path.
- RootSeamImage.SeamImage.CalculateIndexMaps: the two threads that build the horizontal and vertical index maps are modelled as two sequential calls. They touch disjoint fields, so the order does not matter.
- Comparers.SortPairs: `List.Sort` is modelled as a stable insertion sort, and the contracts that use it fix that order. .NET's introsort is not stable for lists above 16 entries, so endpoints of equal cumulative energy may come out in another order in the source. The contracts that fix this order are those of `RootCumulative.CumulativeEnergy.ComputeEntireEnergyMap` and `ComputeSubEnergyMap`; of `TrunkCumulative.CumulativeEnergy.ComputeSubEnergyMap`, `Publish`, `ComputeEntireEnergyMap`, `Refresh`, `GetKthLowestEnergySeam`, `RecomputeEnergyMapRange` and `ShiftAndRefill`; and of `TrunkSeamImage.ComputedArrays`. `Comparers.SortPairsIsSortedPermutation` states what every correct sort shares: the result is sorted by value and is a permutation of the input.
- RootCumulative.CumulativeEnergy.constructor: the source has no constructor, and the object initializer sets only `EnergyFunction`, leaving both maps, both masks and both endpoint lists null. The model allocates empty ones, so a lookup before the first compute fails with ArgumentOutOfRange (the empty list) where the source throws NullReference.
- TrunkCumulative.CumulativeEnergy.constructor: the same as the root one; the two dirty flags start false, as in the source.
- SobelFilter.Sobel.constructor: `EnergyMap` is null in the source until `ComputeEnergy` allocates it; the model allocates an all-zero map of the given dimensions instead, so a read before the first compute is not a NullReference.
- Bitmaps.ShiftAddPixels: pixels are read in buffer order, and an access before the first pixel or after the last one is an IndexOutOfRange failure. The source's unsafe code would instead read or write whatever memory lies there. The cases are: the vertical splice on the last row of a full-width bitmap, whose loop does not run and which reads the pixel after the buffer; a vertical splice whose loop runs with x < -1, which reads the row above; a vertical splice with a current width of 0 or 1, which reads the row above; a current width beyond the bitmap's, which reads into the next row; and the horizontal splice with y + 2 beyond the last row, or a negative y, which reads a row outside the buffer. `Bitmaps.SpliceFits`, `Bitmaps.SpliceRow`, `Bitmaps.SpliceColumn`, `TrunkSeamImage.SeamImage.SpliceAt`, `TrunkSeamImage.SeamImage.AddSeamToBitmap`, `TrunkSeamImage.SeamImage.Enlarge`, `TrunkSeamImage.SeamImage.Grow` and `TrunkSeamImage.SeamImage.AddSeam` inherit this failure.
- Bitmaps.ShiftPixels: a lateral position outside the bitmap (negative, or equal to the bitmap's width or height) is an IndexOutOfRange failure. The source would write into the neighbouring row or past the buffer.
- Carving.CarveRows, Carving.CarveColumns and RootSeamImage.SeamImage.CarveSeams: a line that keeps more pixels than the new bitmap holds (possible with a stale index map) is an IndexOutOfRange failure. The source (`SeamImage.cs:325-329`, `357-361`) would write past the new bitmap's buffer.
- SobelFilter.Sobel.ComputeLocalEnergyAlongSeam and SobelFilter.RefreshAlongSeam: on failure the model states only the error, not the energy map afterwards. The source's foreach has already rewritten the cells of the points before the failing one.
