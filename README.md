# RSTools core in Dafny

A model of the sequential, index-heavy core of RSTools, a toolbox for
resting-state fMRI preprocessing. It covers four C files:

- **Motion scrubbing** (`src/rsmotionscrubbing_common.c`, module
  `MotionScrubbing`):
  - the validation in `rsMotionScrubbingInit`, which gates the
    `parametersValid` flag;
  - the masked min/max scan `rsComputeValueRange`;
  - framewise displacement (`rsComputeFramewiseDisplacement`);
  - DVARS (`rsComputeDVARs`);
  - the flagging of frames over threshold together with their neighbours;
  - the `framemap` of surviving frames;
  - the flagged-index file (`rsSaveIndexVector`);
  - the assembly of the scrubbed output in `rsMotionScrubbingRun`.

  The parameter record is a class whose `Init` and `Run` update its fields.
- **FFT band-pass bin selection and `d2matrix`** (`rstools/rsmathutils.c`,
  module `MathUtils`):
  - the per-bin frequency table;
  - the search for the kept bin range `[i1, i2]`, with its clamps and
    fallback;
  - the in-place zeroing of out-of-band bins;
  - the whole `rsFFTFilter`, with the GSL transforms as parameters;
  - the row layout of `d2matrix`.
- **Voxel layout and resampling** (`rstools/rsniftiutils.c`, module
  `NiftiUtils`):
  - `MakePoint3D`;
  - the flat index `z*(yh*xh) + y*xh + x` written by every
    `convertScaledDoubleToBuffer_*`, proved a bijection onto the first
    `xh*yh*zh` slots;
  - the stored value `(v - inter) / slope`, with the storage-type cast as a
    parameter;
  - nearest-lower-neighbour `ResampleVolume`.
- **rstimecourse** (`rstools/rstimecourse.c`, module `Timecourse`):
  - `ReadMask`: resampling the mask onto the input grid, counting and
    listing the voxels above 0.01 in x-then-y-then-z order, and writing the
    resampled mask back;
  - the command-line parser of `main` and its validation rules;
  - the choice between voxel mode and mask mode;
  - the per-frame mean over the mask points.

A C `double` that can hold NaN in the source's logic is `Base.Sample`, either
a real or NaN: the intensities of the motion-scrubbing series, the DVARS
values, the scaled voxels of rstimecourse and the means it prints. Doubles
whose NaN case the source never tests or produces are plain reals: the
realignment table and fd, the thresholds, the value range, the FFT data and
frequency table, the mask volume of rstimecourse and the grids of the
converters and of `ResampleVolume`. A volume in memory is a
`Grid`, indexed `[z][y][x]` like the tools' `double ***`. In-place buffers are
Dafny arrays. Every loop of the source is a method with loop invariants,
proved against a specification function. Properties that relate several
calls are lemmas.

Foreign code is passed in as function parameters:

- `deg2mm` and `sqrt`; for `sqrt`, a `ghost predicate IsSqrt` states what
  the model needs;
- `atoi`;
- the GSL forward and inverse transforms;
- the conversion from a stored value to a scaled double;
- the cast to the NIfTI storage type.

File contents enter the model as values: the input series, the realignment
table, what opening the mask yields, and whether an output file can be
created.

Two 4D inputs appear, because the two tools read them differently.
Motion scrubbing reads whole frames through `rsExtractVolumeFromBuffer`,
which already applies the scaling, so `MotionScrubbing.Series` holds scaled
frames of `Sample`s. `Timecourse.InputFile` holds the stored values and the
header's scl_slope and scl_inter. In voxel mode rstimecourse converts the one
voxel it needs with `convertBufferToScaledDouble` and the effective scaling
chosen in `main`. In mask mode it reads each whole frame with the library's
`FslGetVolumeAsScaledDouble`, which never sees `main`'s slope and intercept.
The model computes both through the conversion parameter `toScaled`, which
yields a `Sample`, with the effective scaling.

## Model

| member | source | states |
|---|---|---|
| NiftiUtils.MakePoint3D | rstools/rsniftiutils.c:3-10 | the point's x, y and z are the three arguments |
| NiftiUtils.OffsetBound | rstools/rsniftiutils.c:15-21 | the converters' offset z*(yh*xh)+y*xh+x of an in-range voxel is below xh*yh*zh |
| NiftiUtils.FlatIndex | rstools/rsniftiutils.c:18 | the slot of an in-range voxel lies inside the xh*yh*zh buffer |
| NiftiUtils.Unflatten | rstools/rsniftiutils.c:15-21 | every slot below xh*yh*zh is the flat index of some in-range voxel, so the layout leaves no hole |
| NiftiUtils.UnflattenFlatIndex | rstools/rsniftiutils.c:15-21 | decoding the flat index of a voxel gives that voxel back |
| NiftiUtils.FlatIndexInjective | rstools/rsniftiutils.c:12-130 | distinct in-range voxels have distinct slots, so no slot is written twice |
| NiftiUtils.ConvertColumn | rstools/rsniftiutils.c:17-19 | the z loop stores the unscaled value of every voxel of column (x, y) at its slot; every slot of a later column keeps its earlier value |
| NiftiUtils.ConvertPlane | rstools/rsniftiutils.c:16-20 | the y loop does the same for every column of plane x |
| NiftiUtils.ConvertScaledDoubleToBuffer | rstools/rsniftiutils.c:12-130 | afterwards slot i holds cast((inbuf[z][y][x] - inter) / slope) for the one voxel whose flat index is i, and slots past xh*yh*zh are unchanged |
| NiftiUtils.SourceIndex | rstools/rsniftiutils.c:138-144 | the source index r of target index i is the floor of oldN·i/newN: r·newN ≤ oldN·i < (r+1)·newN |
| NiftiUtils.SourceIndexBound | rstools/rsniftiutils.c:138-144 | with positive sizes, the resampling source index of an in-range target index is in range |
| NiftiUtils.SourceIndexIdentity | rstools/rsniftiutils.c:138-144 | with equal old and new sizes the source index is the target index |
| NiftiUtils.SourceVoxel | rstools/rsniftiutils.c:138-145 | the voxel a target voxel is copied from lies in the old grid |
| NiftiUtils.ResampleIdentity | rstools/rsniftiutils.c:138-145 | resampling onto the same dimensions copies every voxel unchanged |
| NiftiUtils.ResampleColumn | rstools/rsniftiutils.c:142-146 | the z loop fills column (x, y) from the floor-scaled source voxels and keeps the columns already filled |
| NiftiUtils.ResampleVolume | rstools/rsniftiutils.c:132-151 | a fresh newZ×newY×newX volume in which each voxel is the old volume at the floor-scaled coordinates |
| MathUtils.Table | rstools/rsmathutils.c:59-71 | the table as written has T+1 slots: T for the C array and one for the double just past it |
| MathUtils.BinFrequency | rstools/rsmathutils.c:62-67 | the frequency of bin j: 0 for bin 0, and (j+1 rounded down to even)/(2·T·sampling_rate) otherwise, so both bins of a pair share it (its properties are BinPairsShareFrequency and BinFrequencyMonotone) |
| MathUtils.BinPairsShareFrequency | rstools/rsmathutils.c:64-67 | F[2k-1] = F[2k] = 2k/(2·T·sampling_rate) |
| MathUtils.BinFrequencyMonotone | rstools/rsmathutils.c:59-71 | with a positive sampling rate the bin frequencies are non-negative and non-decreasing |
| MathUtils.FrequencyTable | rstools/rsmathutils.c:59-71 | the loop as written leaves F[0] = 0 and each pair at its frequency; for even T it overwrites the double past the array, and for odd T that double is unchanged |
| MathUtils.TableOverwritesPastEnd | rstools/rsmathutils.c:64-67 | for T = 2 the double past the table is overwritten with 0.5 |
| MathUtils.IntendedTable | rstools/rsmathutils.c:59-71 | the in-bounds table is the first T slots of the table as written, whatever lies past it |
| MathUtils.FrequencyTableInBounds | rstools/rsmathutils.c:59-71 | the filling loop with its write kept below T produces exactly the in-bounds table |
| MathUtils.FirstOddAbove | rstools/rsmathutils.c:75-86 | the first odd bin up to the bound whose frequency exceeds the cutoff: every earlier odd bin is at most the cutoff; no result means no odd bin exceeds it |
| MathUtils.Fallback | rstools/rsmathutils.c:87-88 | the edge used when no odd bin exceeds the cutoff: T-1 for even T, T-2 for odd T |
| MathUtils.LowerEdge | rstools/rsmathutils.c:75-88 | i1 is two below the first odd bin above f1, clamped at 0, or the fallback (bounds in BandEdgesOrdered) |
| MathUtils.UpperEdge | rstools/rsmathutils.c:81-88 | i2 is one above the first odd bin above f2, clamped at T-1, or the fallback (bounds in BandEdgesOrdered) |
| MathUtils.SelectBand | rstools/rsmathutils.c:73-88 | i1 is two below the first odd bin above f1, clamped at 0; i2 is one above the first odd bin above f2, clamped at T-1; both fall back to T-1 (even T) or T-2 (odd T) |
| MathUtils.BandEdgesOrdered | rstools/rsmathutils.c:75-88 | for T ≥ 2 and f1 ≤ f2, 0 ≤ i1 ≤ i2 ≤ T-1, whatever the table holds |
| MathUtils.UpperEdgeReadsPastEnd | rstools/rsmathutils.c:81-86 | for T = 3 the search as written gives i2 = 2 or i2 = 1 depending on the double past the table |
| MathUtils.SearchWithinBounds | rstools/rsmathutils.c:75-86 | searching up to T finds what searching the first T slots finds whenever slot T cannot stop the search |
| MathUtils.BandWithinBounds | rstools/rsmathutils.c:73-88 | the band as written equals the in-bounds band for every even T, and for odd T when the double past the table is not above the cutoff |
| MathUtils.BandPassKeepsBand | rstools/rsmathutils.c:105-109 | zeroing keeps exactly the bins of [i1, i2], zeroes every other bin, and is idempotent |
| MathUtils.ZeroOutOfBand | rstools/rsmathutils.c:105-109 | after the loop the spectrum is its band-passed original |
| MathUtils.Transform | rstools/rsmathutils.c:102 | the data array holds the library transform of its old contents |
| MathUtils.FFTFilter | rstools/rsmathutils.c:57-123 | the data become inverse(band-pass(forward(data))) with the band chosen from the bin frequencies |
| MathUtils.D2Matrix | rstools/rsmathutils.c:125-143 | the blob has (yh+1)·(xh+1) doubles and row j starts at offset j·(xh+1) |
| MathUtils.RowsPartitionBlob | rstools/rsmathutils.c:125-143 | every cell of every row lies inside the blob, and distinct cells never share a slot |
| MotionScrubbing.MaskValues | src/rsmotionscrubbing_common.c:213-215 | one value per mask point: frame t's intensity at that point, in point order |
| MotionScrubbing.Lowest | src/rsmotionscrubbing_common.c:204-227 | the running minimum skips NaN; it is at most every number seen and is either the sentinel or one of them |
| MotionScrubbing.Highest | src/rsmotionscrubbing_common.c:204-227 | the running maximum likewise: at least every number seen, and the negated sentinel or one of them |
| MotionScrubbing.ScanFrame | src/rsmotionscrubbing_common.c:213-228 | scanning one frame extends the minimum and maximum of everything seen by that frame's masked values |
| MotionScrubbing.ComputeValueRange | src/rsmotionscrubbing_common.c:202-234 | for a series of at least one frame, min and max are the extremes of the masked values of frames min(5, vDim-1) to vDim-1 |
| MotionScrubbing.ExtremesSnoc | src/rsmotionscrubbing_common.c:217-227 | one more value replaces the minimum (maximum) only when it is a number below (above) it |
| MotionScrubbing.ScannedHas | src/rsmotionscrubbing_common.c:209-215 | every masked intensity of every frame from min(5, vDim-1) on is visited |
| MotionScrubbing.ValueRangeBounds | src/rsmotionscrubbing_common.c:202-229 | min ≤ v ≤ max for every non-NaN masked value v of the scanned frames |
| MotionScrubbing.NoValueKeepsSentinels | src/rsmotionscrubbing_common.c:204-219 | when every scanned value is NaN, min and max keep their sentinels |
| MotionScrubbing.Displacement | src/rsmotionscrubbing_common.c:244-250 | the displacement of an entry is never negative |
| MotionScrubbing.Displacements | src/rsmotionscrubbing_common.c:240-252 | fd has one entry per realignment entry; fd[0] = 0 and no entry is negative |
| MotionScrubbing.DisplacementZeroIffStill | src/rsmotionscrubbing_common.c:244-250 | an entry has zero displacement exactly when no translation changed and no rotation changed as seen through deg2mm |
| MotionScrubbing.ComputeFramewiseDisplacement | src/rsmotionscrubbing_common.c:240-252 | the array holds the displacement series |
| MotionScrubbing.SqrtOf | src/rsmotionscrubbing_common.c:284 | the square root the model assumes is non-negative and squares back |
| MotionScrubbing.Normalised | src/rsmotionscrubbing_common.c:278-279 | an intensity becomes (I - min)/|max - min|; NaN in, or a degenerate range max = min, gives NaN (see NormalisedWithinUnit) |
| MotionScrubbing.NormalisedWithinUnit | src/rsmotionscrubbing_common.c:278-279 | for min < max, an intensity within [min, max] normalises into [0, 1], to 0 exactly at min and to 1 exactly at max |
| MotionScrubbing.SquaredChange | src/rsmotionscrubbing_common.c:276-282 | a sum of squared normalised changes is never negative |
| MotionScrubbing.SquaredChangeNaN | src/rsmotionscrubbing_common.c:276-282 | the sum is NaN exactly when some normalised intensity of either frame is NaN |
| MotionScrubbing.FrameDvars | src/rsmotionscrubbing_common.c:274-284 | the DVARS of one frame: sqrt of the mean squared normalised change over the mask points, NaN for an empty mask (its properties are FrameDvarsNonNegative and DvarsZeroIffUnchanged) |
| MotionScrubbing.FrameDvarsNonNegative | src/rsmotionscrubbing_common.c:274-284 | a frame's DVARS is never negative, given the square root assumed |
| MotionScrubbing.DvarsSeries | src/rsmotionscrubbing_common.c:258-291 | one DVARS value per frame |
| MotionScrubbing.DvarsSeriesOf | src/rsmotionscrubbing_common.c:258-291 | pointwise bridge used by ScrubSeries: a series with 0 at frame 0 and FrameDvars of the mask values of frames t and t-1 at each later frame t is the DVARS series |
| MotionScrubbing.NormalisedDiffZeroIff | src/rsmotionscrubbing_common.c:278-279 | for a non-degenerate range, two normalised intensities are equal exactly when the intensities are |
| MotionScrubbing.SquaredChangeSnoc | src/rsmotionscrubbing_common.c:276-282 | one more mask point adds its squared change to the sum |
| MotionScrubbing.ChangeZeroIff | src/rsmotionscrubbing_common.c:278-281 | the squared change of two numbers is a non-negative number, and is 0 exactly when they are equal |
| MotionScrubbing.SquaredChangeZeroIffEqual | src/rsmotionscrubbing_common.c:276-282 | for NaN-free frames the sum is a number, and is 0 exactly when the two frames agree at every mask point |
| MotionScrubbing.SqrtMeanZero | src/rsmotionscrubbing_common.c:284 | the root of a mean of squares is 0 exactly when the sum is |
| MotionScrubbing.DvarsZeroIffUnchanged | src/rsmotionscrubbing_common.c:274-284 | for NaN-free frames and a non-empty mask, DVARS is 0 exactly when the frame equals the one before at every mask point |
| MotionScrubbing.AccumulateChange | src/rsmotionscrubbing_common.c:274-282 | the loop over the mask points sums the squared normalised changes between frames t and t-1 |
| MotionScrubbing.ComputeDvars | src/rsmotionscrubbing_common.c:258-291 | dvars[0] = 0, and each later dvars[t] is the DVARS of frames t and t-1 |
| MotionScrubbing.Flags | src/rsmotionscrubbing_common.c:113-126 | one flag per frame |
| MotionScrubbing.FlagsOf | src/rsmotionscrubbing_common.c:113-126 | pointwise bridge used by ScrubSeries: a flag vector whose entry i is Flagged at frame i is the flag series |
| MotionScrubbing.FlagFrames | src/rsmotionscrubbing_common.c:113-126 | frame i ends flagged exactly when it is t, max(t-1, 0) or min(t+1, vDim-1) for some t ≥ 1 whose fd or DVARS exceeds its threshold |
| MotionScrubbing.FlaggedNeighbourhood | src/rsmotionscrubbing_common.c:120-126 | frame i is flagged exactly when i ≥ 1 triggered itself, frame i+1 triggered, or frame i-1 ≥ 1 triggered; frame 0 is never tested itself |
| MotionScrubbing.IndicesOf | src/rsmotionscrubbing_common.c:133-141 | the listed indices hold the wanted value and strictly increase |
| MotionScrubbing.IndicesOfComplete | src/rsmotionscrubbing_common.c:133-141 | every index holding the wanted value is listed |
| MotionScrubbing.IndicesPartition | src/rsmotionscrubbing_common.c:133-141 | the unflagged and the flagged indices together number vDim |
| MotionScrubbing.BuildFrameMap | src/rsmotionscrubbing_common.c:132-141 | framemap[0..remainingFrames) lists exactly the unflagged frames in ascending order |
| MotionScrubbing.SaveIndexVector | src/rsmotionscrubbing_common.c:312-324 | the lines written are exactly the indices whose entry is TRUE, in ascending order |
| MotionScrubbing.AssembleOutput | src/rsmotionscrubbing_common.c:155-170 | output frame t is input frame framemap[t], and the output is the scrubbed series |
| MotionScrubbing.Scrubbed | src/rsmotionscrubbing_common.c:132-170 | the scrubbed series has one frame per unflagged frame |
| MotionScrubbing.ScrubbedVolume | src/rsmotionscrubbing_common.c:132-170 | the frames kept are the scrubbed series |
| MotionScrubbing.ScrubbedOf | src/rsmotionscrubbing_common.c:155-170 | pointwise bridge used by AssembleOutput: a frame list whose frame t is input frame framemap[t], for the framemap of the unflagged frames, is the scrubbed series |
| MotionScrubbing.InitOutcome | src/rsmotionscrubbing_common.c:8-78 | the status Init reaches, checking the input, output, mask and realignment paths in that order, then the input file, then the mask (characterised by InitReadyIff) |
| MotionScrubbing.InitReadyIff | src/rsmotionscrubbing_common.c:8-78 | Init succeeds exactly when all four paths are given, the input is readable and the mask is valid; a missing path always stops it at a path check |
| MotionScrubbing.RunDvars | src/rsmotionscrubbing_common.c:86-100 | one DVARS value per frame, normalised by the masked value range |
| MotionScrubbing.RunFlags | src/rsmotionscrubbing_common.c:93-126 | one flag per frame |
| MotionScrubbing.ScrubSeries | src/rsmotionscrubbing_common.c:85-126 | the buffers Run computes are the DVARS series, the displacement series and the flags |
| MotionScrubbing.MotionScrubbingParameters.constructor | src/rsmotionscrubbing_common.c:8-10 | the paths and thresholds are as given; nothing is loaded and parametersValid is FALSE |
| MotionScrubbing.MotionScrubbingParameters.Init | src/rsmotionscrubbing_common.c:8-78 | parametersValid ends TRUE exactly when the outcome is Ready; the first missing path, in input, output, mask, realignment order, stops it before anything is loaded |
| MotionScrubbing.MotionScrubbingParameters.Run | src/rsmotionscrubbing_common.c:81-176 | the DVARS, fd and flagged files are written when requested, whatever happens to the output; the output holds the scrubbed series and parametersValid is TRUE exactly when the output can be created |
| Timecourse.EffectiveScaling | rstools/rstimecourse.c:95-98 | the slope is never 0: the header's scaling when scl_slope ≠ 0, otherwise 1 and 0 |
| Timecourse.Column | rstools/rstimecourse.c:128-132 | a column contributes at most one point per voxel visited |
| Timecourse.SortedConcat | rstools/rstimecourse.c:140-150 | two sorted lists, each point of the first before each of the second, concatenate sorted |
| Timecourse.ColumnListed | rstools/rstimecourse.c:143-147 | the points listed for column (x, y) lie in that column and in the grid, are above 0.01, and are in order |
| Timecourse.PlaneListed | rstools/rstimecourse.c:142-148 | the same for plane x |
| Timecourse.CubeListed | rstools/rstimecourse.c:141-149 | the same for the planes below k |
| Timecourse.Plane | rstools/rstimecourse.c:139-150 | the mask voxels of plane x with y below k, in the order of the y and z loops (characterised by PlaneListed and PlaneComplete) |
| Timecourse.Cube | rstools/rstimecourse.c:139-150 | the mask voxels with x below k, in the order of the x, y and z loops (characterised by CubeListed and CubeComplete) |
| Timecourse.MaskPoints | rstools/rstimecourse.c:124-150 | the points ReadMask lists for a resampled mask (characterised by MaskPointsExact) |
| Timecourse.ColumnComplete | rstools/rstimecourse.c:143-147 | every voxel above 0.01 of column (x, y) is listed |
| Timecourse.PlaneComplete | rstools/rstimecourse.c:142-148 | every voxel above 0.01 of plane x is listed |
| Timecourse.CubeComplete | rstools/rstimecourse.c:141-149 | every voxel above 0.01 of the planes below k is listed |
| Timecourse.MaskPointsExact | rstools/rstimecourse.c:140-150 | a point is listed exactly when it is an in-range voxel above 0.01, and the list is in x-then-y-then-z order |
| Timecourse.ColumnGrows | rstools/rstimecourse.c:128-132 | scanning further down a column never lists fewer points |
| Timecourse.PlaneGrows | rstools/rstimecourse.c:127-133 | scanning further into a plane never lists fewer points |
| Timecourse.CubeGrows | rstools/rstimecourse.c:126-134 | scanning further planes never lists fewer points |
| Timecourse.CountMaskPoints | rstools/rstimecourse.c:125-134 | nPoints is the number of resampled voxels above 0.01 |
| Timecourse.ListColumn | rstools/rstimecourse.c:143-147 | the z loop appends the column's points after those already listed and moves the running index past them |
| Timecourse.ListPlane | rstools/rstimecourse.c:142-148 | the y loop appends the plane's points likewise |
| Timecourse.ListMaskPoints | rstools/rstimecourse.c:137-150 | the array filled holds exactly the mask points, in order |
| Timecourse.Resampled | rstools/rstimecourse.c:118 | the resampled mask has the input's dimensions and, at each voxel, the floor-scaled mask voxel |
| Timecourse.RawUnscaled | rstools/rstimecourse.c:176-203 | the double the save path as written hands to the cast: (v - scl_inter)/scl_slope with the raw header fields; non-finite (NaN here) when scl_slope is 0 |
| Timecourse.SaveAsWritten | rstools/rstimecourse.c:176-203 | the save path as written: at each voxel's flat index, the voxel divided through the raw scl_slope and scl_inter |
| Timecourse.SaveAsWrittenAgreesIff | rstools/rstimecourse.c:176-203 | on a non-empty mask the save as written stores what the save with the effective scaling stores exactly when scl_slope ≠ 0; with scl_slope = 0 it differs |
| Timecourse.SaveResampledMask | rstools/rstimecourse.c:164-216 | the buffer holds, at each voxel's flat index, the resampled mask unscaled with the prototype's effective scaling |
| Timecourse.ReadMask | rstools/rstimecourse.c:72-228 | NULL exactly when the mask cannot be opened or read; otherwise the points are the resampled mask's voxels above 0.01 in order, nPoints is their number, and the mask is saved exactly when a save path was opened |
| Timecourse.Mean | rstools/rstimecourse.c:409 | the average of no points is NaN (0.0/0) |
| Timecourse.SumNaN | rstools/rstimecourse.c:403-406 | the running sum is NaN exactly when one of the values is |
| Timecourse.MeanNaN | rstools/rstimecourse.c:403-409 | the average is NaN exactly when there are no points or one of the values is NaN |
| Timecourse.SumBounds | rstools/rstimecourse.c:403-406 | the sum of n numbers in [lo, hi] is a number in [n·lo, n·hi] |
| Timecourse.MeanWithin | rstools/rstimecourse.c:403-409 | the mean of a non-empty list of numbers in [lo, hi] is a number in [lo, hi] |
| Timecourse.FrameValues | rstools/rstimecourse.c:399-405 | one value per mask point: the frame's scaled intensity at that point, NaN included |
| Timecourse.SumStep | rstools/rstimecourse.c:405 | the running sum adds one value per point |
| Timecourse.FrameMean | rstools/rstimecourse.c:399-409 | the value printed for a frame is the mean of its values at the mask points |
| Timecourse.MaskTimecourse | rstools/rstimecourse.c:396-415 | one line per frame, each the frame's mean over the mask points |
| Timecourse.FrameMeanFacts | rstools/rstimecourse.c:399-409 | a frame's mask mean is NaN exactly when the mask is empty or a masked voxel is NaN, and lies in [lo, hi] when every masked voxel is a number in [lo, hi] |
| Timecourse.VoxelTimecourse | rstools/rstimecourse.c:360-382 | one line per frame, each the scaled value of the chosen voxel |
| Timecourse.ParseArguments | rstools/rstimecourse.c:250-290 | the parse loop's result is the parser's: help, a missing value or the settings with the unrecognised arguments |
| Timecourse.ParseFrom | rstools/rstimecourse.c:253-290 | the parse loop from position ac on, one option or argument at a time (characterised by ParseAppend, MissingArgumentAtEnd, UnrecognisedCollected, InputStep and LaterInputOverrides) |
| Timecourse.ParseAppend | rstools/rstimecourse.c:253-290 | parsing an extended command line continues from where parsing its prefix ended |
| Timecourse.MissingArgumentAtEnd | rstools/rstimecourse.c:257-279 | a missing value is reported only for an option at the end: the last argument for -input, -m and -s, or -p among the last three |
| Timecourse.UnrecognisedCollected | rstools/rstimecourse.c:287-289 | every reported argument is unrecognised and comes from the command line |
| Timecourse.InputStep | rstools/rstimecourse.c:256-261 | -input with a value sets the input path and parsing goes on after the value |
| Timecourse.LaterInputOverrides | rstools/rstimecourse.c:256-261 | a trailing -input path replaces any earlier input path and changes nothing else |
| Timecourse.ResampledPointsIn | rstools/rstimecourse.c:141-145 | every mask point lies in the input's grid |
| Timecourse.RunTool | rstools/rstimecourse.c:230-424 | main's exit code, printed lines and saved mask are the tool's outcome; a saved mask is the resampled mask under the input's effective scaling |
| Timecourse.ToolOutcome | rstools/rstimecourse.c:292-424 | exit code, printed lines and saved mask of main, checked in main's order (characterised by OutcomeShape, SuccessIff, VoxelModeIgnoresMask and MaskModeMean) |
| Timecourse.OutcomeShape | rstools/rstimecourse.c:230-424 | the exit code is 0 or 1; a failing run prints and saves nothing; a successful run past the help text had an input and prints one line per frame |
| Timecourse.SuccessIff | rstools/rstimecourse.c:292-393 | a parsed command line exits 0 exactly when an input is named, a mask or a complete voxel is given, the input opens, and then the voxel is inside the grid or, without a voxel, the mask reads |
| Timecourse.VoxelModeIgnoresMask | rstools/rstimecourse.c:340-385 | with x ≥ 0 the outcome does not depend on the mask or on the save path |
| Timecourse.MaskModeMean | rstools/rstimecourse.c:386-418 | in mask mode each printed value is NaN exactly when the resampled mask is empty or one of the voxels it selects is NaN, and lies within [lo, hi] when every selected voxel is a number within [lo, hi] |

## Left out

- I/O is left out. This covers FslOpen, FslReadVolumes, rsOpenNiftiFile, volume extraction, FslWriteVolumes, rsCloneNiftiFile, rsLoadRegressors and fopen/fprintf. File contents and the success of opening or creating a file are parameters. Written files are values.
- Printing, the `%.10f` and `%d` formatting, the help text and verbose messages are left out. The verbose print of F[i1] and F[i2] in rsFFTFilter (rstools/rsmathutils.c:90) is not modelled, and it would read F[-1] for T = 1.
- OpenMP in rsComputeDVARs and in the output loop of Run is not modelled. Each iteration writes its own slot, so both are sequential loops.
- IEEE infinities and rounding are not modelled. A double is a real, or a `Sample` (a real or NaN) where the source's logic meets NaN.
  - A division by 0 is NaN in the model. This covers the degenerate value range max = min in DVARS and 0/0 for an empty mask.
  - MotionScrubbing.Normalised: for a degenerate value range max = min the source divides by 0, which gives ±infinity for an intensity other than min. The model gives NaN. So a frame at or before the scan start can get a DVARS of +infinity in C, which exceeds the threshold and flags the frame. The model's NaN DVARS flags nothing.
  - The integer and float widths (short, int, float) are unbounded or real.
- MotionScrubbing.ComputeValueRange: requires at least one frame. For vDim = 0 the source starts the scan at frame -1 and extracts a volume from before its buffer, which the model cannot express. Run requires at least one frame for the same reason.
- NiftiUtils.SourceIndex: the source index is the integer floor of oldN·i/newN. The source computes it in single-precision float and truncates, which can be off by one. That difference is not modelled.
- NiftiUtils.ConvertScaledDoubleToBuffer: requires slope ≠ 0. In C a 0 slope gives infinities or NaN, and casting those to an integer type is undefined behaviour, which the model cannot express. The save path that passes such a slope is Timecourse.SaveAsWritten, which models the quotients up to the cast. The cast of a non-finite quotient is not modelled.
- The storage-type cast of the ten `convertScaledDoubleToBuffer_*` functions is one parameter `cast`. Their ten copies are one generic method.
- Timecourse.SaveResampledMask: the unsupported-datatype branch of the ReadMask save path is left out. That branch only prints a warning and then falls through to `FslWriteVolumes` (rstools/rstimecourse.c:215), which writes the uninitialised `malloc` buffer. The contents that `SavedMask` states hold only for the ten supported storage types.
- sqrt, deg2mm, atoi and the GSL transforms are parameters. `IsSqrt` states the only property of sqrt that is used.
- rsLinearRegression, a wrapper over gsl_multifit_linear, is left out: least squares is not modelled. It also never writes `fitted` and ignores the fit status.
- rsMotionScrubbingDestroy and all allocation and freeing are left out, including d3matrix sizes and leaks on error paths.
- MotionScrubbing.MotionScrubbingParameters.Run: requires at least vDim realignment entries (rpEntries ≥ vDim), and so do MotionScrubbing.ScrubSeries and MotionScrubbing.RunFlags. Init loads the realignment table without comparing its length with vDim (src/rsmotionscrubbing_common.c:66). Run sizes `double fd[p->rpEntries]` (src/rsmotionscrubbing_common.c:93), but writes vDim entries of it to the fd file (:109) and reads `fd[t]` for every t < vDim (:121). So with a realignment file shorter than the series the source reads past the array, which the model cannot express.
- MotionScrubbing.MotionScrubbingParameters.Run: the conversion of each kept frame back to the output's storage type (rsWriteVolumeToBuffer) is not modelled. The output holds the kept frames as doubles.
- MotionScrubbing.MotionScrubbingParameters.Init: rsReadMask, which reads the mask, is not part of this model. Its result, the mask points or NULL, is a parameter. The thread count is left out.
- Timecourse.MaskTimecourse: mask mode reads each frame with `FslGetVolumeAsScaledDouble` (rstools/rstimecourse.c:399), whose scaling is the library's own. The model assumes that read equals `toScaled` with `main`'s effective scaling (rstools/rstimecourse.c:328-331). The same assumption holds for `FrameMean`, `MaskLines` and `MaskModeMean`.
- MathUtils.FFTFilter: requires T > 0 and a non-zero sampling rate, and so do the frequency-table members. For T = 0 the source declares the zero-length array `double F[T]`, which C leaves undefined. A zero rate makes every bin frequency after bin 0 a division by 0, giving infinity or NaN, which the model's real frequencies cannot express.
- Timecourse.ReadMask: the mask's first volume is a value that the model takes as already scaled. The model assumes FslGetVolumeAsScaledDouble applies the header's effective scaling.
- Timecourse.ReadMask: on failure the source leaves `*nPoints` unset. The model returns 0.
- Timecourse.ReadMask: the mask must be non-empty with positive dimensions (`Readable`). The source divides by the new dimensions and indexes the old volume, so an empty mask is outside what it handles.
- Timecourse.RunTool: the `-a` option named in the help text is not parsed by the source, so it is reported as unrecognised like any other argument.
- Header prototypes that disagree with the definitions (rstools/rsniftiutils.h, rstools/rsmathutils.h) hold no logic and are not part of this model.
- The Qt job editor and src/rstimecourse.c are left out: they are widgets and a driver over functions not shown.

## Findings

| source | as written | input that shows it | evidently intended | confidence | as-written member | corrected member |
|---|---|---|---|---|---|---|
| rstools/rstimecourse.c:176-203 | the save path converts the resampled mask with the prototype header's raw scl_slope | an input whose header has scl_slope = 0 (unscaled data) and a -savemask path: every voxel is divided by 0 | the effective scaling used at rstools/rstimecourse.c:95-98 and 328-331 (slope 1, intercept 0 when scl_slope is 0) | not executed | Timecourse.SaveAsWritten | Timecourse.SaveResampledMask |
| rstools/rsmathutils.c:61-68 | for even T the last step of the frequency loop writes F[T], one past `double F[T]` | T = 2: the loop stores 0.5 in the double after the array | store the last frequency in F[T-1] only | not executed | MathUtils.FrequencyTable | MathUtils.FrequencyTableInBounds |
| rstools/rsmathutils.c:75-86 | for odd T the search loops read F[T], past the array | T = 3, sampling rate 1, f2 = 0.5: i2 is 2 when the double after the array exceeds 0.5, and 1 otherwise | search the odd bins below T only | not executed | MathUtils.UpperEdgeReadsPastEnd | MathUtils.FFTFilter |
