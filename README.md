# StarFall: a verified model of the trigger generator and the server and viewer logic

StarFall watches data from the Geostationary Lightning Mapper (GLM) on the GOES satellites for
bright meteors (bolides). This project models the core of StarFall and proves properties of the
model. The core has two parts.

**The trigger generator (`glmtriggergen`)** loads the GLM detections of a processing window and
works through them in order:

- It clusters the detections in space and time. Clusters merge by relabelling whole clusters.
- It trims the data to the window and prunes the pixel events.
- It runs the filter chain: redundant, long-duration and low-altitude stereo clusters, large group
  sizes, the GOES-19 anomaly region, and the classifier threshold.
- It marks the peak and fitness flags of the detections and ranks the clusters.
- It estimates stereo velocities.
- It selects the triggers it reports: strong and weak ranks, then a cap on the trigger count.

Beside these come the helpers the pipeline uses:

- the energy drop filter and the continuous-above-minimum count;
- the binomial coefficient, the longitude wrap and the segment-to-segment distance;
- the line-of-sight time association and the least-squares slope;
- the half-file test and the nearest unmasked calibration cell;
- the cloud storage paths, the file-name metadata and the cleanup rule;
- the database string building, and the duplicate and missing-plot scripts of the rocket classifier
  data.

**The server and the viewer (TypeScript)** cover:

- the SQL text of the event list and point-source requests, with their `$n` placeholder
  numbering;
- the status and log aggregation;
- the configuration-file grammar;
- the check that a netCDF file covers a time, and the time formatting;
- the viewer's store modules for microservice status, events and settings;
- the colour generator.

**How the model is built.** Each source file becomes a Dafny module. `glm_data_set.py` is split
into one module per concern, from GlmClustering to GlmVelocity, with GlmDataSetModel holding the
class. ArrayOps, Text, RealMath and Wrappers hold the shared numpy, string, real-number and
result helpers. Each module takes the form its source takes:

- Code that rewrites arrays in place becomes a `class` whose methods have `modifies` clauses. This
  covers the `GlmDataSet`, the file history and the viewer stores.
- Each of those methods is proved against a specification function.
- Pure code becomes functions and lemmas.

Python floats and JavaScript numbers are modelled as `real`. Python's floored `%` and JavaScript's
truncated `%` are written out. Some operations need trigonometry or square roots: the geodetic
conversions, the pierce point, the angle between lines of sight, and the cosine that sizes the
longitude box. The classifier, `Date.parse` and the clock are left out too. All of these are
function or value parameters. File, database and network I/O is left out.

## Model

| member | source | states |
|---|---|---|
| UtilHelpers.DebugPrint | glmtriggergen/src/helper_funs/util_helpers.py:25-33 | outside debug mode the output log is unchanged; in debug mode exactly the one line is appended after the old output |
| UtilHelpers.InGlmFileLatterHalfInt | glmtriggergen/src/helper_funs/util_helpers.py:36-47 | for whole seconds the latter-half test is the integer rule that the remainder modulo 20 is at least 10 |
| UtilHelpers.InGlmFileLatterHalfPeriodic | glmtriggergen/src/helper_funs/util_helpers.py:47 | the classification repeats with the 20 s processing interval |
| UtilHelpers.InGlmFileLatterHalfShift | glmtriggergen/src/helper_funs/util_helpers.py:47 | moving a time by half an interval flips the classification, so exactly half of every interval is the latter half |
| UtilHelpers.LatterHalfSecond | glmtriggergen/src/helper_funs/util_helpers.py:47 | of the twenty whole seconds of an interval, exactly the last ten are in the latter half |
| GeoHelpers.WrapLongitudesAsWritten | glmtriggergen/src/helper_funs/geo_helpers.py:322-340 | the expression as written lands in the window from upper - 360 up to (not including) upper |
| GeoHelpers.WrapLongitudesAsWrittenCounterexample | glmtriggergen/src/helper_funs/geo_helpers.py:339-340 | with upper = 90, longitude 0 is mapped to -180, a different meridian, and applying the function again gives 0 back |
| GeoHelpers.WrapLongitudesAsWrittenAgrees | glmtriggergen/src/helper_funs/geo_helpers.py:339-340 | for the upper discontinuities 0 and 180, the only ones the callers pass, the expression as written equals the corrected wrap |
| GeoHelpers.WrapLongitudes | glmtriggergen/src/helper_funs/geo_helpers.py:322-340 | the result lies in the window from upper - 360 up to (not including) upper, and it is the same longitude modulo 360 as the input |
| GeoHelpers.WrapLongitudesInside | glmtriggergen/src/helper_funs/geo_helpers.py:325-326 | a longitude already inside the window is returned unchanged |
| GeoHelpers.WrapLongitudesIdempotent | glmtriggergen/src/helper_funs/geo_helpers.py:325-326 | wrapping twice gives the same result as wrapping once |
| GeoHelpers.LineFractions | glmtriggergen/src/helper_funs/geo_helpers.py:256-278 | the s fraction is a proper fraction with a positive denominator; when the Gram determinant is below EPSILON (near-parallel lines) s is forced to 0 and t is e over c |
| GeoHelpers.EdgeFractions | glmtriggergen/src/helper_funs/geo_helpers.py:280-299 | after clamping t to the visible edge and recomputing s, both fractions are proper; a t fraction already in range leaves everything unchanged |
| GeoHelpers.Ratio | glmtriggergen/src/helper_funs/geo_helpers.py:302-309 | the line parameter is in [0, 1], and a numerator below EPSILON gives exactly 0 |
| GeoHelpers.SegmentParameters | glmtriggergen/src/helper_funs/geo_helpers.py:256-309 | both line parameters lie in [0, 1]; for near-parallel segments whose projection falls inside the second segment, s is 0 (the point P0 is used) |
| GeoHelpers.Dist3dSegmentToSegment | glmtriggergen/src/helper_funs/geo_helpers.py:222-319 | both returned points lie on their own segments, and the returned (squared) distance is the squared length of their difference |
| CalibrationHelpers.RowCells | glmtriggergen/src/helper_funs/calibration_helpers.py:41 | the cells listed for a row are exactly the unmasked cells of that row from column j on, in column order |
| CalibrationHelpers.UnmaskedCells | glmtriggergen/src/helper_funs/calibration_helpers.py:41 | the cells listed (np.where of the inverted mask) are exactly the unmasked cells from row i on, in row-major order |
| CalibrationHelpers.ArgMin | glmtriggergen/src/helper_funs/calibration_helpers.py:44-49 | the index chosen has the least distance to the target, and every earlier index is strictly farther (np.argmin picks the first minimum) |
| CalibrationHelpers.NearestUnmaskedCell | glmtriggergen/src/helper_funs/calibration_helpers.py:37-53 | there is no cell exactly when nothing is unmasked; otherwise the cell is unmasked, no unmasked cell is nearer, and every unmasked cell before it in row-major order is strictly farther |
| CalibrationHelpers.NoneUnmasked | glmtriggergen/src/helper_funs/calibration_helpers.py:41 | the list of unmasked cells is empty exactly when every cell is masked |
| CalibrationHelpers.ArgMinIsNearest | glmtriggergen/src/helper_funs/calibration_helpers.py:44-53 | the argmin cell is unmasked and no unmasked cell is nearer to the target |
| CalibrationHelpers.ArgMinIsFirst | glmtriggergen/src/helper_funs/calibration_helpers.py:49 | every unmasked cell before the argmin cell in row-major order is strictly farther from the target |
| CalibrationHelpers.FindNearestUnmaskedValue | glmtriggergen/src/helper_funs/calibration_helpers.py:23-55 | there is no value exactly when every cell is masked; otherwise the value is read from a nearest unmasked cell; an unmasked target returns its own value |
| CalibrationHelpers.NearestIsSelf | glmtriggergen/src/helper_funs/calibration_helpers.py:44-55 | when the target itself is unmasked, the only nearest unmasked cell is the target |
| MathHelpers.Comb | glmtriggergen/src/helper_funs/math_helpers.py:23-58 | zero when k is negative or above n, one for k = 0 and k = n, and otherwise the binomial coefficient C(n, k); the loop of the multiplicative formula up to min(k, n - k) with its exact integer division is proved to compute it |
| MathHelpers.BinomialTimesFact | glmtriggergen/src/helper_funs/math_helpers.py:30-34 | C(n, k) times k! is the falling product n(n - 1)...(n - k + 1), the formula the docstring states |
| MathHelpers.BinomialStep | glmtriggergen/src/helper_funs/math_helpers.py:56 | C(n, i) (n - i) = C(n, i + 1) (i + 1), so each step of the loop divides exactly |
| MathHelpers.BinomialAbove | glmtriggergen/src/helper_funs/math_helpers.py:47-49 | C(n, k) is 0 for k above n, which the early return reproduces |
| MathHelpers.BinomialDiagonal | glmtriggergen/src/helper_funs/math_helpers.py:51-52 | C(n, n) is 1, which the early return reproduces |
| MathHelpers.BinomialSymmetry | glmtriggergen/src/helper_funs/math_helpers.py:36-37 | C(n, k) = C(n, n - k), the symmetry the loop bound min(k, n - k) relies on |
| MathHelpers.SeqMax | glmtriggergen/src/helper_funs/math_helpers.py:113 | the maximum of the initial window bounds every member and is one of them |
| MathHelpers.SeqMin | glmtriggergen/src/helper_funs/math_helpers.py:113 | the minimum of the initial window is below every member and is one of them |
| MathHelpers.Window | glmtriggergen/src/helper_funs/math_helpers.py:107-112 | the initial window holds the requested number of points, taken from first on in the walking direction |
| MathHelpers.EnergyFilter | glmtriggergen/src/helper_funs/math_helpers.py:61-136 | the flags are exactly those of the reference run (a single point gives [1]); every flag is 0 or 1, the start point and every point outside the walked range stay 1, and every point flagged 0 lies strictly below the nearest accepted point before it on the walk |
| MathHelpers.FilterRun | glmtriggergen/src/helper_funs/math_helpers.py:115-134 | the reference run of the loop step by step: the step checked last is one of the steps taken and there is one flag per point |
| MathHelpers.FirstDiff | glmtriggergen/src/helper_funs/math_helpers.py:107-113 | the initial step estimate, the spread of the first width points of the walk, is never negative |
| MathHelpers.EnergyFilterFlags | glmtriggergen/src/helper_funs/math_helpers.py:61-136 | the reference flags are [1] for a single point and otherwise one flag per point |
| MathHelpers.FilterThreshold | glmtriggergen/src/helper_funs/math_helpers.py:121-128 | the point at step j is flagged 0 exactly when its fall from the point checked last exceeds max_valid_drop times the running step estimate before step j; every flag is 0 or 1 |
| MathHelpers.EnergyFilterThreshold | glmtriggergen/src/helper_funs/math_helpers.py:61-136 | the same threshold rule, for every step of the whole energy_filter call from first to last |
| MathHelpers.FilterAhead | glmtriggergen/src/helper_funs/math_helpers.py:115-134 | a point the loop has not reached yet still has flag 1 |
| MathHelpers.FilterBehind | glmtriggergen/src/helper_funs/math_helpers.py:115-134 | once the loop passes a point its flag never changes again |
| MathHelpers.FilterRunNext | glmtriggergen/src/helper_funs/math_helpers.py:121-134 | one step of the reference run clears a rejected point (doubling the estimate more than width steps past the checked point) or accepts the point and smooths its step in |
| MathHelpers.Smoothed | glmtriggergen/src/helper_funs/math_helpers.py:131-134 | the running step estimate after an accepted point never drops below 1e-15 |
| MathHelpers.Walk | glmtriggergen/src/helper_funs/math_helpers.py:115-134 | the main loop computes exactly the flags of the reference run; they are 0 or 1, only visited points are cleared, and a point is cleared only when it lies below the last accepted point |
| MathHelpers.WalkStep | glmtriggergen/src/helper_funs/math_helpers.py:117-134 | one pass of the loop moves its state, which equals the reference run, from step j - 1 to step j and keeps the flag shape and the drop explanation |
| MathHelpers.RejectStep | glmtriggergen/src/helper_funs/math_helpers.py:124-128 | clearing a rejected point, and doubling the estimate when it lies more than width steps past the checked point, advances the loop state by one step |
| MathHelpers.AcceptStep | glmtriggergen/src/helper_funs/math_helpers.py:129-134 | accepting a point and smoothing its step into the estimate advances the loop state by one step |
| MathHelpers.FlagKeepsDrops | glmtriggergen/src/helper_funs/math_helpers.py:124-125 | clearing the point at the current step, which lies below the last accepted point, keeps every cleared flag explained by a drop |
| MathHelpers.AcceptKeepsDrops | glmtriggergen/src/helper_funs/math_helpers.py:129-130 | accepting the point at the current step keeps every cleared flag explained by a drop |
| MathHelpers.CountAbove | glmtriggergen/src/helper_funs/math_helpers.py:163 | the number of values strictly above the threshold is at most the length |
| MathHelpers.TailRun | glmtriggergen/src/helper_funs/math_helpers.py:163-166 | the final run of values above the threshold is at most the length |
| MathHelpers.LongestRun | glmtriggergen/src/helper_funs/math_helpers.py:157-173 | the longest run of consecutive values above the threshold is at most the length |
| MathHelpers.TailRunBelowCount | glmtriggergen/src/helper_funs/math_helpers.py:163-166 | a run is never longer than the number of values above the threshold |
| MathHelpers.ContinuousAboveMin | glmtriggergen/src/helper_funs/math_helpers.py:139-173 | the result is the best run of the reference counters; it lies between the longest strict run above the threshold and the count of points above it; it is 0 when no point is above; with negative max_mistakes it is exactly the longest run, and with max_mistakes at least the length it is exactly the count |
| MathHelpers.AboveMinCounters | glmtriggergen/src/helper_funs/math_helpers.py:157-173 | the reference counters after each value: the current run never exceeds the best run |
| MathHelpers.AboveMinBounds | glmtriggergen/src/helper_funs/math_helpers.py:157-173 | the current run lies between the final strict run and the count above the threshold, and the best run between the longest strict run and that count |
| MathHelpers.AboveMinMistakes | glmtriggergen/src/helper_funs/math_helpers.py:167-171 | the mistake counter never exceeds the number of values and is 0 or at most max_mistakes + 1 |
| MathHelpers.AboveMinStrict | glmtriggergen/src/helper_funs/math_helpers.py:157-173 | with negative max_mistakes every value at or below the threshold resets the run, so the counters are the strict final and longest runs and no mistake is kept |
| MathHelpers.AboveMinTolerant | glmtriggergen/src/helper_funs/math_helpers.py:157-173 | with max_mistakes at least the length no reset happens, so the run is the count above the threshold |
| VelocityHelpers.Nearest | glmtriggergen/src/helper_funs/velocity_helpers.py:61-75 | the index chosen by argmin of the absolute time differences is a nearest time, and every earlier index is strictly farther (the first nearest one) |
| VelocityHelpers.AssociateLosVectors | glmtriggergen/src/helper_funs/velocity_helpers.py:28-84 | the loop appends, in sample order, one pair for every line of sight of the sparser satellite whose nearest-in-time line of sight of the other satellite lies inside the association window, and nothing else |
| VelocityHelpers.AssociatedProperties | glmtriggergen/src/helper_funs/velocity_helpers.py:59-82 | there is at most one pair per line of sight of the sparser satellite; every pair is inside the time window; every pair joins a sample of the sparser satellite with the first nearest sample of the other |
| VelocityHelpers.AssociatedSorted | glmtriggergen/src/helper_funs/velocity_helpers.py:59-82 | when the sparser satellite's times are increasing, the pairs come out in strictly increasing time |
| VelocityHelpers.NearestApproachPoint | glmtriggergen/src/helper_funs/velocity_helpers.py:113-124 | the point is the midpoint of the shortest segment between the two lines of sight: as far from one closest point as from the other |
| VelocityHelpers.NearestApproachTime | glmtriggergen/src/helper_funs/velocity_helpers.py:130-132 | the time of a pair lies halfway between its two times |
| VelocityHelpers.ComputeNearestApproachPoints | glmtriggergen/src/helper_funs/velocity_helpers.py:87-151 | five lists as long as the pairs; entry i holds the midpoint of pair i, its geodetic conversion and the mean of its times |
| VelocityHelpers.Slope | glmtriggergen/src/helper_funs/velocity_helpers.py:184-199 | the least-squares slope exists exactly when the matrix T'T is invertible (its determinant is not 0) |
| VelocityHelpers.EstimateVelocity | glmtriggergen/src/helper_funs/velocity_helpers.py:154-203 | a velocity exists exactly when T'T is invertible, and then each component is the least-squares slope of that coordinate against time |
| VelocityHelpers.LinearSums | glmtriggergen/src/helper_funs/velocity_helpers.py:184-196 | for points on a line x0 + v t, the sums that enter T'x are n x0 + v (sum of t) and x0 (sum of t) + v (sum of t squared) |
| VelocityHelpers.SlopeOfLinear | glmtriggergen/src/helper_funs/velocity_helpers.py:193-199 | given those sums, the closed-form slope is exactly v |
| VelocityHelpers.ExactSlope | glmtriggergen/src/helper_funs/velocity_helpers.py:157-199 | samples of one coordinate moving at constant velocity v give back slope v whenever T'T is invertible |
| VelocityHelpers.ExactVelocity | glmtriggergen/src/helper_funs/velocity_helpers.py:157-203 | points on a straight line at constant velocity give back exactly that velocity whenever T'T is invertible: the fit is exact on its own model |
| VelocityHelpers.CoordOnLine | glmtriggergen/src/helper_funs/velocity_helpers.py:179-196 | each coordinate of points on a constant-velocity line has slope equal to that velocity component |
| GlmConfig.SatIdNums | glmtriggergen/config/glmtriggergenconfig.py:107-121 | the satellite numbers are those of the configured table, one per entry and in table order |
| GlmConfig.SatIdNumsValue | glmtriggergen/config/glmtriggergenconfig.py:121 | the configured satellite numbers are 16, 17, 18 and 19 |
| GcloudHelpers.ConstructFileDirAndName | glmtriggergen/src/helper_funs/gcloud_helpers.py:31-93 | an unknown satellite, a year before 2018, a day of year outside 1..366 and an hour outside 0..23 each give their own error, checked in that order; a path is produced exactly when all four checks pass |
| GcloudHelpers.ConstructFileDirAndNameFields | glmtriggergen/src/helper_funs/gcloud_helpers.py:59-93 | the path splits on '/' into the bucket of the satellite, the product folder and year, day and hour folders whose digits (3 for the day, 2 for the hour) read back as the inputs; a file pattern follows exactly when the minute is in [0, 60) |
| GcloudHelpers.FilePatternEndsInWildcard | glmtriggergen/src/helper_funs/gcloud_helpers.py:74-91 | the path ends in the '*' wildcard exactly when the minute is in [0, 60) |
| GcloudHelpers.TimeDigitsValue | glmtriggergen/src/helper_funs/gcloud_helpers.py:79-88 | the digits after '_s' read back as the number yyyy ddd hh mm, followed by ss only when the second is 0, 20 or 40 |
| GcloudHelpers.FileHistory.constructor | glmtriggergen/src/helper_funs/gcloud_helpers.py:106-109 | a history holds the given date, satellite and file name |
| GcloudHelpers.FileHistory.SetLastFilename | glmtriggergen/src/helper_funs/gcloud_helpers.py:111-117 | replaces the file name and keeps the date and satellite |
| GcloudHelpers.FileHistory.Decrement | glmtriggergen/src/helper_funs/gcloud_helpers.py:151-162 | clears the file name and moves the date one hour (3600 s) back; the satellite is kept |
| GcloudHelpers.GetAvailableSatelliteIds | glmtriggergen/src/helper_funs/gcloud_helpers.py:282-323 | the loop lists, in table order, the id of every satellite with a non-empty start string whose interval from start (included) to end (excluded, 2100-01-01 when absent) holds the time |
| GcloudHelpers.AvailableIdsMembers | glmtriggergen/src/helper_funs/gcloud_helpers.py:304-321 | an id is listed exactly when some satellite carrying it is available at the time |
| GcloudHelpers.AvailableIn2024 | glmtriggergen/config/glmtriggergenconfig.py:107-119 | with the configured table, 2024-01-01T00:00:00Z lists GOES-16 and GOES-18 and nothing else |
| GcloudHelpers.Trunc | glmtriggergen/src/helper_funs/gcloud_helpers.py:353 | Python's int() of a float truncates toward zero |
| GcloudHelpers.AlignedWindowStart | glmtriggergen/src/helper_funs/gcloud_helpers.py:352-354 | the window starts on a multiple of the 20 s file length, at most 20 s before the truncated start time and not after it |
| FileIoHelpers.NegSlice | glmtriggergen/src/helper_funs/file_io_helpers.py:176-189 | Python's s[-a:-b]: the characters from a before the end up to b before the end, clamped at the start, and empty for a name no longer than b |
| FileIoHelpers.DaysBeforeYearStep | glmtriggergen/src/helper_funs/file_io_helpers.py:182-184 | the day count of the proleptic Gregorian calendar grows by 366 over a leap year and by 365 over any other year |
| FileIoHelpers.OrdinalConstants | glmtriggergen/src/helper_funs/file_io_helpers.py:182-184 | 1970-01-01 is day 719163 and 9999-12-31, the last day a datetime holds, is day 3652059 |
| FileIoHelpers.StampSeconds | glmtriggergen/src/helper_funs/file_io_helpers.py:182-192 | a clock outside what datetime accepts is a ValueError, a day beyond the datetime range an OverflowError, and the seconds exist exactly when neither happens |
| FileIoHelpers.StampSecondsDecode | glmtriggergen/src/helper_funs/file_io_helpers.py:182-192 | the seconds decode back into the day count since the epoch and the hour, minute and second of the stamp |
| FileIoHelpers.EpochIsZero | glmtriggergen/src/helper_funs/file_io_helpers.py:182-184 | day 1 of 1970 at midnight is second 0 |
| FileIoHelpers.ReadStampThen | glmtriggergen/src/helper_funs/file_io_helpers.py:177-181 | the five fixed-width fields written as yyyy ddd hh mm ss are read back at the offsets the code slices |
| FileIoHelpers.NameSat | glmtriggergen/src/helper_funs/file_io_helpers.py:176 | the satellite digits of a GLM file name are read from [-53:-51] |
| FileIoHelpers.NameStart | glmtriggergen/src/helper_funs/file_io_helpers.py:177-181 | the start stamp of a GLM file name is read from [-49:-36] |
| FileIoHelpers.NameEnd | glmtriggergen/src/helper_funs/file_io_helpers.py:185-189 | the end stamp of a GLM file name is read from [-33:-20] |
| FileIoHelpers.MetaFromReads | glmtriggergen/src/helper_funs/file_io_helpers.py:176-195 | given readable fields, the meta is the two stamps' seconds and the satellite, or the error of the start stamp, or else that of the end stamp, in the order the code raises them |
| FileIoHelpers.GlmFileMetaOfName | glmtriggergen/src/helper_funs/file_io_helpers.py:157-195 | for any name following the GLM naming convention, get_glm_file_meta returns the satellite and the seconds of the start and end stamps written into it, or the error of the first stamp whose day falls outside the datetime range |
| FileIoHelpers.KeepForWindow | glmtriggergen/src/helper_funs/file_io_helpers.py:278-290 | a file whose span holds an event date is kept for it, and every file kept for a date lies within half an interval (10 s) of it |
| FileIoHelpers.NeededBy | glmtriggergen/src/helper_funs/file_io_helpers.py:277-293 | the inner loop answers true exactly when some queued event date keeps the file (any(keep_file_list)) |
| FileIoHelpers.FileStepCases | glmtriggergen/src/helper_funs/file_io_helpers.py:275-310 | a file stays exactly when its name can be read and an event needs it or its deletion raised PermissionError; it raises exactly when its name cannot be read or the deletion fails with another error |
| FileIoHelpers.CleanupProperties | glmtriggergen/src/helper_funs/file_io_helpers.py:255-314 | the cleanup raises exactly when some file raises; otherwise the result keeps the input order (a subsequence) and holds exactly the files that stay |
| FileIoHelpers.CleanupFiles | glmtriggergen/src/helper_funs/file_io_helpers.py:255-314 | the loop that sets the slot of each deleted file to None and then keeps the other slots returns the cleanup result specified above, with get_glm_file_meta reading the names |
| FileIoHelpers.CleanupFilesWith | glmtriggergen/src/helper_funs/file_io_helpers.py:273-314 | the same loop, with the name reader as a parameter, returns the specified cleanup result |
| FileIoHelpers.CleanupOne | glmtriggergen/src/helper_funs/file_io_helpers.py:274-310 | the body of the loop for one file: read its times, test every queued date, and delete the file when no date needs it; its outcome is that of the one-file step |
| GlmDataSetHelpers.RowsAtLeast | glmtriggergen/src/helper_funs/glm_data_set_helpers.py:126-137 | the rank rows kept are exactly those whose rank is at least the threshold |
| GlmDataSetHelpers.RowsBelow | glmtriggergen/src/helper_funs/glm_data_set_helpers.py:138-140 | the rank rows kept are exactly those whose rank is below the threshold |
| GlmDataSetHelpers.RowIds | glmtriggergen/src/helper_funs/glm_data_set_helpers.py:127-141 | the id column: one id per row, in row order |
| GlmDataSetHelpers.StrongWeakPartition | glmtriggergen/src/helper_funs/glm_data_set_helpers.py:126-141 | the strong (rank at least 175) and weak rows partition the good rows (rank at least VALID_RANK): every good row is in exactly one of them and nothing else is in either |
| GlmDataSetHelpers.CapTriggers | glmtriggergen/src/helper_funs/glm_data_set_helpers.py:160-168 | a list of MAX_NUM_TRIGGERS or more clusters is emptied, a shorter one is kept as it is, so fewer than MAX_NUM_TRIGGERS remain |
| GlmDataSetHelpers.CandidateRanked | glmtriggergen/src/helper_funs/glm_data_set_helpers.py:148-155 | every id handed to the classifier, strong or a weak one the group-size filter kept, has a rank row at or above VALID_RANK |
| GlmDataSetHelpers.TriggersRanked | glmtriggergen/src/helper_funs/glm_data_set_helpers.py:153-168 | every cluster that survives the classifier and the cap is a real cluster with a rank row at or above VALID_RANK |
| GlmDataSetHelpers.WeakKeptAreWeak | glmtriggergen/src/helper_funs/glm_data_set_helpers.py:148-151 | the group-size filter only removes ids: what it returns were weak ids |
| GlmDataSetHelpers.RowIdsIff | glmtriggergen/src/helper_funs/glm_data_set_helpers.py:127-141 | an id is in the id column exactly when some row carries it |
| GlmDataSetHelpers.StrongIdsIff | glmtriggergen/src/helper_funs/glm_data_set_helpers.py:126-137 | an id is strong exactly when a rank row carries it with a rank at or above STRONG_SIGNAL_RANK_THRESHOLD |
| GlmDataSetHelpers.WeakIdsIff | glmtriggergen/src/helper_funs/glm_data_set_helpers.py:126-141 | an id is weak exactly when a rank row carries it with a rank from VALID_RANK up to, not including, STRONG_SIGNAL_RANK_THRESHOLD |
| GlmDataSetHelpers.CandidatesMembers | glmtriggergen/src/helper_funs/glm_data_set_helpers.py:148-155 | the ids handed to the classifier are exactly the strong ids and the real weak ids the group-size filter keeps; the filter runs only when there is a weak id |
| GlmDataSetHelpers.SelectedMembers | glmtriggergen/src/helper_funs/glm_data_set_helpers.py:126-168 | a cluster triggers exactly when the classifier survivors are fewer than MAX_NUM_TRIGGERS, it is a real cluster the classifier keeps, and it has a strong rank row, or a weak one and the group-size filter keeps it |
| GlmDataSetHelpers.ComposeBeforeAltitude | glmtriggergen/src/helper_funs/glm_data_set_helpers.py:92-105 | the redundant mark followed by the long-duration mark gives the ids of MarkedBeforeAltitude |
| GlmDataSetHelpers.ComposeAfterClustering | glmtriggergen/src/helper_funs/glm_data_set_helpers.py:92-113 | the low-altitude mark after MarkedBeforeAltitude gives the ids of MarkedAfterClustering |
| GlmDataSetHelpers.MarkRedundantAndLong | glmtriggergen/src/helper_funs/glm_data_set_helpers.py:92-105 | the new cluster ids are the redundant and then the long-duration marks of the old ones (MarkedBeforeAltitude), and the recorded cluster count is that of the result |
| GlmDataSetHelpers.MarkClustered | glmtriggergen/src/helper_funs/glm_data_set_helpers.py:92-113 | the new cluster ids are the redundant, long-duration and low-altitude marks of the old ones, in that order (MarkedAfterClustering), and the recorded cluster count is that of the result |
| GlmDataSetHelpers.MarkClusters | glmtriggergen/src/helper_funs/glm_data_set_helpers.py:86-113 | the new cluster ids are MarkedAfterClustering of the ids clustering gives the old detections, and the recorded cluster count is that of the result |
| GlmDataSetHelpers.MarkPointsAndRank | glmtriggergen/src/helper_funs/glm_data_set_helpers.py:116-123 | the highest flags are those of the old ids, the fitness flags follow the bad-point and energy rules, the new ids are the old ones with the GOES-19 marks applied, and the ranks are those of the new state |
| GlmDataSetHelpers.MarkAndRank | glmtriggergen/src/helper_funs/glm_data_set_helpers.py:86-123 | the detections, cluster ids and ranks after all the marks and the ranking, stated over the old data set through MarkedAfterClustering |
| GlmDataSetHelpers.SelectTriggers | glmtriggergen/src/helper_funs/glm_data_set_helpers.py:126-168 | the clusters returned are Selected of the data set: the classifier survivors among the strong ids and the kept weak ids, capped; each is real and ranked at or above VALID_RANK, and the classifier probabilities are recorded exactly for the candidates |
| GlmDataSetHelpers.SelectAndPrune | glmtriggergen/src/helper_funs/glm_data_set_helpers.py:126-184 | the triggers are Selected of the data set, fewer than MAX_NUM_TRIGGERS, each ranked at or above VALID_RANK, and the event data is pruned to them |
| GlmDataSetHelpers.ProcessLoaded | glmtriggergen/src/helper_funs/glm_data_set_helpers.py:86-184 | after a load, the new detections, cluster ids and ranks are those of all marks and the ranking over the old data set, the triggers are Selected of that state, and the event data is pruned to them |
| GlmDataSetHelpers.ProcessGlmFiles | glmtriggergen/src/helper_funs/glm_data_set_helpers.py:28-218 | no valid files gives [0, 0], no triggers and an unchanged data set; otherwise the file count is passed through, the new state is that of all marks and the ranking, the triggers are Selected of it and counted, and the event data is pruned to them |
| GlmDataSetHelpers.Clustered | glmtriggergen/src/helper_funs/glm_data_set_helpers.py:86-89 | the ids clustering gives: ClusterLabels over the cloud-top points in time order, with one id per detection |
| GlmDataSetHelpers.MarkedBeforeAltitude | glmtriggergen/src/helper_funs/glm_data_set_helpers.py:92-105 | the ids after the outer-window, redundant and long-duration marks, one per detection |
| GlmDataSetHelpers.MarkedAfterClustering | glmtriggergen/src/helper_funs/glm_data_set_helpers.py:92-113 | the ids after those marks and the low-altitude mark, one per detection |
| GlmEvents.IsUnsignedFlag | glmtriggergen/src/glm_data_set.py:545 | the _Unsigned attribute reads as true exactly when its first letter is t or T; an empty attribute raises (no result) |
| GlmEvents.RecordableMax | glmtriggergen/src/glm_data_set.py:547-557 | the largest recordable integer is the type maximum, doubled plus one exactly when a signed type is flagged unsigned |
| GlmEvents.FillValue | glmtriggergen/src/glm_data_set.py:540-565 | the new fill value is the largest recordable integer times the scale factor plus the offset; it fails only on an empty _Unsigned attribute |
| GlmEvents.Fill | glmtriggergen/src/glm_data_set.py:567 | masked entries become the fill value and every other entry is unchanged |
| GlmEvents.ExtractEventEnergy | glmtriggergen/src/glm_data_set.py:503-569 | with nothing masked (a scalar mask) the energies are returned unchanged and the attributes are not read; otherwise every masked energy becomes the fill value and every other one is kept |
| GlmEvents.Int16UnsignedFill | glmtriggergen/src/glm_data_set.py:506-565 | an int16 variable flagged unsigned gets 65535 as its recordable maximum, so the fill is 65535 scale factors plus the offset |
| GlmEvents.UnmaskedEnergiesKept | glmtriggergen/src/glm_data_set.py:567 | an unmasked energy is never changed |
| GlmEvents.KeepEvents | glmtriggergen/src/glm_data_set.py:662-666 | an event is kept exactly when its parent group is the group of some detection of a good cluster |
| GlmEvents.PruneKeepsWholeEvents | glmtriggergen/src/glm_data_set.py:647-684 | each pruned event is one original event taken whole, the same index into all six event arrays, and its parent group belongs to a good cluster |
| GlmEvents.PruneKeepsGoodGroups | glmtriggergen/src/glm_data_set.py:663-670 | an event of a group of a good cluster is never dropped |
| GlmEvents.FirstNearest | glmtriggergen/src/glm_data_set.py:1111-1122 | the row picked lies in the band, has the smallest difference among band rows, and every earlier band row is strictly farther (argmin picks the first minimum) |
| GlmEvents.FirstNearestIsArgMin | glmtriggergen/src/glm_data_set.py:1111-1122 | the first nearest band row is exactly the row numpy picks: argmin over the masked table, mapped back to the table index |
| GlmEvents.TryX | glmtriggergen/src/glm_data_set.py:1111-1117 | the x pixel found always has a non-empty band of rows within one pixel, so the y search never sees an empty table |
| GlmEvents.TryY | glmtriggergen/src/glm_data_set.py:1119-1145 | the y pixel found always has a non-empty band of rows within one pixel, so the next x search never sees an empty table |
| GlmEvents.SearchStep | glmtriggergen/src/glm_data_set.py:1109-1145 | one try either stops with its own pixel pair (three equal tries in a row, or the tenth try) or continues with the band of its y pixel |
| GlmEvents.SearchFound | glmtriggergen/src/glm_data_set.py:1081-1147 | whichever try the search stops at, it returns a table x pixel and the y pixel of a row within one x pixel of it that is nearest in latitude among all such rows |
| GlmEvents.NearestPixel | glmtriggergen/src/glm_data_set.py:1110-1123 | one try: the x pixel nearest in longitude within the reducing band, then the y pixel nearest in latitude within one x pixel of it |
| GlmEvents.LatLonToPixelXy | glmtriggergen/src/glm_data_set.py:1081-1147 | an empty table gives no pixel (argmin raises); otherwise the loop of at most ten tries returns the pixel pair of the search specification |
| GlmEvents.PyIndex | glmtriggergen/src/glm_data_set.py:1179 | Python indexing: a negative index counts from the end, and an index outside -n..n-1 raises |
| GlmEvents.LookupValue | glmtriggergen/src/glm_data_set.py:1178-1184 | a pixel index out of range raises (no value) |
| GlmEvents.LookupValueReads | glmtriggergen/src/glm_data_set.py:1178-1184 | a lookup value is read from the cell the pixel indexes: the cell's own value when it is not zero, otherwise the nearest unmasked value |
| GlmEvents.RangeCoefficient | glmtriggergen/src/glm_data_set.py:1186-1192 | the conversion coefficient (the spectral-to-integrated factor times the squared range) is never negative |
| GlmEvents.CalibrateEnergy | glmtriggergen/src/glm_data_set.py:1149-1195 | the intensity exists exactly when the lookup value does, and is the conversion coefficient times the energy times that value |
| GlmEvents.CalibrationScales | glmtriggergen/src/glm_data_set.py:1190-1195 | the intensity is additive in the energy, and non-negative for a non-negative energy and lookup value |
| GlmDataSetModel.ValidTimes | glmtriggergen/src/glm_data_set.py:466-479 | for a window centre in the latter half of its file, a detection is kept exactly when it is before twice the processing interval less half the window; otherwise exactly when it is after half the window |
| GlmDataSetModel.ValidTimesHalf | glmtriggergen/src/glm_data_set.py:471-479 | a detection exactly half a window in is kept only in the latter-half case, and there exactly when the window is shorter than two processing intervals |
| GlmDataSetModel.TrimDetections | glmtriggergen/src/glm_data_set.py:485-499 | cutting by a keep mask leaves one detection per kept position in every group array, so the arrays stay co-indexed |
| GlmDataSetModel.TrimAligned | glmtriggergen/src/glm_data_set.py:485-499 | the j-th detection left is, in all twelve group arrays at once, the original detection at the j-th kept position |
| GlmDataSetModel.LowAltitudePass | glmtriggergen/src/glm_data_set.py:1596-1668 | the cluster ids come back with the low-altitude marks applied, and the location map gains (or overwrites) the estimated point of exactly the clusters that have one, keeping every other entry |
| GlmDataSetModel.GlmDataSet.constructor | glmtriggergen/src/glm_data_set.py:200-262 | a new data set has no detections, no events, no clusters, no ranks and empty location, velocity and rocket-probability dictionaries |
| GlmDataSetModel.GlmDataSet.CountClusters | glmtriggergen/src/glm_data_set.py:268-286 | the count is the number of distinct cluster ids other than the bad id, and it is stored in the cluster count only when asked |
| GlmDataSetModel.GlmDataSet.TrimGlmFiles | glmtriggergen/src/glm_data_set.py:447-499 | when the keep mask keeps nothing the data set is unchanged; otherwise every group array, the cluster ids, the yaw-flip and the quality flags are cut by the same mask, and the event arrays and results are untouched |
| GlmDataSetModel.GlmDataSet.PruneEventDataByGroupId | glmtriggergen/src/glm_data_set.py:647-684 | the event arrays become their pruning to the groups of the good clusters, and nothing else changes |
| GlmDataSetModel.GlmDataSet.ClusterGlmData | glmtriggergen/src/glm_data_set.py:1197-1316 | the cluster ids become the clustering labels of the cloud-top points in time order; the detections are unchanged |
| GlmDataSetModel.GlmDataSet.MarkRedundantClusters | glmtriggergen/src/glm_data_set.py:1320-1405 | the cluster ids become the outer-window marking followed by the redundant-cluster marking, both decided by which half of its file the event lies in |
| GlmDataSetModel.GlmDataSet.MarkLongDurations | glmtriggergen/src/glm_data_set.py:1409-1453 | every cluster that lasts too long, and only such a cluster, has all its detections marked bad |
| GlmDataSetModel.GlmDataSet.MarkLowAltitudeStereoEvents | glmtriggergen/src/glm_data_set.py:1596-1668 | the compared detections of each low-altitude stereo cluster are marked bad, and each cluster's stereo estimate is stored in the location dictionary, other entries kept |
| GlmDataSetModel.GlmDataSet.MarkHigherEnergies | glmtriggergen/src/glm_data_set.py:1957-2043 | only the highest-energy flags change, to the peak marking of each cluster and satellite |
| GlmDataSetModel.GlmDataSet.MarkBadPoints | glmtriggergen/src/glm_data_set.py:2047-2111 | only the fitness flags change; they satisfy the bad-point marking specification and each detection of a good highest-energy group follows the energy rule of its group |
| GlmDataSetModel.GlmDataSet.MarkGoes19Anomalies | glmtriggergen/src/glm_data_set.py:2115-2193 | the detections of each GOES-19 cluster whose position is anomalous are marked bad, and no others |
| GlmDataSetModel.GlmDataSet.RankGlmClusters | glmtriggergen/src/glm_data_set.py:2197-2256 | the ranks hold one row per distinct cluster id, in order, each with the rank the ranking specification gives |
| GlmDataSetModel.GlmDataSet.OmitLargeGroupSizeClusters | glmtriggergen/src/glm_data_set.py:1455-1594 | the result is the listed clusters, in order, that the large-group test does not reject |
| GlmDataSetModel.GlmDataSet.RocketFilter | glmtriggergen/src/glm_data_set.py:2260-2372 | the result is the listed clusters, in order, that the classifier does not reject, and every classified (cluster, satellite) pair has its bolide probability recorded, other entries kept |
| GlmDataSetModel.GlmDataSet.EstimateVelocities | glmtriggergen/src/glm_data_set.py:2586-2696 | each listed cluster with a velocity estimate has it stored, every other entry kept |
| GlmMarking.NotBad | glmtriggergen/src/glm_data_set.py:281-282 | a detection is selected exactly when its cluster id is not the bad id |
| GlmMarking.CountClusters | glmtriggergen/src/glm_data_set.py:281-283 | the number of distinct ids left after dropping the bad id is the number of distinct good cluster ids |
| GlmMarking.MarkingNeverAddsClusters | glmtriggergen/src/glm_data_set.py:1357-1450 | a relabelling that only sends detections to the bad id never raises the cluster count |
| GlmMarking.Marked | glmtriggergen/src/glm_data_set.py:1423-1450 | the labels a filter leaves have one entry per detection |
| GlmMarking.MarkedOnlyRemoves | glmtriggergen/src/glm_data_set.py:1423-1450 | a filter relabels only to the bad id, a bad detection stays bad, and the cluster count never grows |
| GlmMarking.MarkMembers | glmtriggergen/src/glm_data_set.py:1431-1450 | exactly the members of the cluster that the filter answers for become bad |
| GlmMarking.MarkStep | glmtriggergen/src/glm_data_set.py:1425-1450 | visiting one more cluster id: the bad id and clusters with no detections change nothing; otherwise the cluster's members are still its original ones and the filter's answer for them is applied |
| GlmMarking.MarkClusters | glmtriggergen/src/glm_data_set.py:1423-1450 | the loop over the distinct ids, skipping the bad id and empty clusters, leaves exactly the labels of the filter specification |
| GlmMarking.SpreadAbove | glmtriggergen/src/glm_data_set.py:1442 | the peak-to-peak spread of a cluster's times exceeds a non-negative limit exactly when two of its times are further apart than the limit |
| GlmMarking.MarkLongDurations | glmtriggergen/src/glm_data_set.py:1409-1453 | the labels are those of the cluster loop with the duration test |
| GlmMarking.LongDurationsProps | glmtriggergen/src/glm_data_set.py:1425-1450 | a detection becomes bad exactly when it was bad or two detections of its cluster lie further apart than the duration limit; otherwise its label is kept |
| GlmMarking.WholeClusterMarked | glmtriggergen/src/glm_data_set.py:1450 | two detections of the same cluster share the outcome of the duration filter |
| GlmMarking.OuterMask | glmtriggergen/src/glm_data_set.py:1335-1352 | a detection is at an outer edge exactly when its absolute time is within the cluster time of the first file's start or the second file's end, the edge on the event's side widened by half a file |
| GlmMarking.MarkOuter | glmtriggergen/src/glm_data_set.py:1353-1357 | the relabelled ids have one entry per detection |
| GlmMarking.MarkOuterProps | glmtriggergen/src/glm_data_set.py:1353-1357 | a cluster with any detection at an outer edge becomes bad as a whole, and every other detection keeps its label |
| GlmMarking.AddEach | glmtriggergen/src/glm_data_set.py:1335 | each absolute time is the base time plus the relative time |
| GlmMarking.MarkRedundantClusters | glmtriggergen/src/glm_data_set.py:1320-1405 | the labels are the outer-edge marking followed by the cluster loop with the redundancy test, for the half of the file the event lies in |
| GlmMarking.RedundantProps | glmtriggergen/src/glm_data_set.py:1362-1405 | in the second pass a good cluster is rejected exactly when, for an event in the latter half, all its times are at or after the files' middle plus the cluster time, and otherwise all are at or before the middle minus the cluster time |
| GlmClustering.RoughLatDeg | glmtriggergen/src/glm_data_set.py:1220-1222 | the rough latitude half-height, three clustering distances in degrees of latitude, is never negative for a non-negative distance |
| GlmClustering.WindowUpTo | glmtriggergen/src/glm_data_set.py:1265-1294 | every index compared is below the bound, and every index below it inside the time and box window and outside the current cluster is compared |
| GlmClustering.Window | glmtriggergen/src/glm_data_set.py:1265-1294 | the comparison window holds only detection indices, and holds every detection no earlier than the current one and at most the time distance later, inside the rough box, and not already in its cluster |
| GlmClustering.Relabel | glmtriggergen/src/glm_data_set.py:1311-1314 | every member of the old cluster takes the current cluster id, and every other label is kept |
| GlmClustering.MergeOneProps | glmtriggergen/src/glm_data_set.py:1298-1316 | one comparison keeps labels non-negative, never splits a cluster or unassigns a detection, keeps the current cluster, and puts a detection within the clustering distance into it |
| GlmClustering.MergeWindowProps | glmtriggergen/src/glm_data_set.py:1298-1316 | after the inner loop every window detection within the clustering distance is in the current cluster, and no cluster was split |
| GlmClustering.VisitProps | glmtriggergen/src/glm_data_set.py:1239-1316 | one visit assigns the visited detection a positive id, only merges clusters, and unless it skips, leaves the visited detection in the cluster of every detection it is linked to |
| GlmClustering.VisitedStep | glmtriggergen/src/glm_data_set.py:1239-1316 | what holds after the first visits in time order extends by one visit |
| GlmClustering.VisitFromProps | glmtriggergen/src/glm_data_set.py:1239-1316 | the outer loop from any position keeps what holds after the visits so far up to the last visit |
| GlmClustering.ClusterLabelsProps | glmtriggergen/src/glm_data_set.py:1228-1316 | under either skip rule, starting from non-negative labels, every detection ends in a cluster and every detection that does not skip ends in the cluster of every detection it is linked to |
| GlmClustering.ClusterTogether | glmtriggergen/src/glm_data_set.py:1239-1316 | with the skip at the last detection in time order, two linked detections end in the same positive cluster |
| GlmClustering.LastInTimeOrder | glmtriggergen/src/glm_data_set.py:1229 | the detection visited last is a detection index |
| GlmClustering.LargestIndexIsLast | glmtriggergen/src/glm_data_set.py:1229-1230 | the largest entry of the time order is always the last array index, whatever the times |
| GlmClustering.TwoPointsLargestIndex | glmtriggergen/src/glm_data_set.py:1239-1316 | for two linked detections stored later-first, the code as written opens two clusters |
| GlmClustering.TwoPointsLastInTime | glmtriggergen/src/glm_data_set.py:1239-1316 | for the same two detections, skipping the last in time order gives them one cluster |
| GlmClustering.LargestIndexSplitsLinkedPair | glmtriggergen/src/glm_data_set.py:1229-1248 | the skip as written splits a linked pair that the skip at the last detection in time keeps together |
| GlmClustering.ClusterGlmData | glmtriggergen/src/glm_data_set.py:1197-1316 | the loops leave the labels of the clustering specification with the skip at the last detection in time order |
| GlmClustering.VisitDetection | glmtriggergen/src/glm_data_set.py:1240-1316 | one pass of the outer loop gives the labels and the cluster count of one visit |
| GlmClustering.MergeLoop | glmtriggergen/src/glm_data_set.py:1298-1316 | the inner loop gives the labels of the window merge |
| GlmFilters.KeepMask | glmtriggergen/src/glm_data_set.py:1485-1586 | a listed id survives exactly when it is not the bad id and the filter does not reject it |
| GlmFilters.KeptClustersMembers | glmtriggergen/src/glm_data_set.py:1485-1586 | an id is returned exactly when it is listed, is not the bad id and is not rejected |
| GlmFilters.KeptClustersInOrder | glmtriggergen/src/glm_data_set.py:1586 | the returned ids are the surviving list entries in their list order |
| GlmFilters.SelectAgree | glmtriggergen/src/glm_data_set.py:1584-1586 | two selections are equal when their masks agree and the values agree wherever selected |
| GlmFilters.RejectClusters | glmtriggergen/src/glm_data_set.py:1485-1586 | overwriting each rejected good id with the bad id and then dropping the bad entries returns exactly the kept clusters (also lines 2282-2360) |
| GlmFilters.PercentileLow | glmtriggergen/src/glm_data_set.py:1508-1510 | the lower order statistic of the 90th percentile is a valid position |
| GlmFilters.PercentileHigh | glmtriggergen/src/glm_data_set.py:1508-1510 | the upper order statistic is a valid position at or after the lower one |
| GlmFilters.PercentileWeight | glmtriggergen/src/glm_data_set.py:1508-1510 | the interpolation weight lies in [0, 1) |
| GlmFilters.Interpolate | glmtriggergen/src/glm_data_set.py:1508-1510 | linear interpolation stays between its end points |
| GlmFilters.Percentile90 | glmtriggergen/src/glm_data_set.py:1508-1510 | the 90th percentile is at least every sorted value up to the lower order statistic and at most every one from the upper order statistic on |
| GlmFilters.SortedAround | glmtriggergen/src/glm_data_set.py:1508-1511 | a value between two entries of a sorted list is above everything up to the first and below everything from the second on |
| GlmFilters.PercentileWithinValues | glmtriggergen/src/glm_data_set.py:1508-1511 | the percentile lies between the smallest and the largest energy |
| GlmFilters.SatSelection | glmtriggergen/src/glm_data_set.py:1502 | a detection is selected exactly when it is in the cluster and seen by the satellite |
| GlmFilters.HighEnergyPoints | glmtriggergen/src/glm_data_set.py:1507-1520 | the points are exactly the cluster's detections from the satellite whose energy is strictly above that satellite's 90th percentile |
| GlmFilters.LargeGroups | glmtriggergen/src/glm_data_set.py:1525-1536 | a point is flagged exactly when its group has more than five events |
| GlmFilters.Share | glmtriggergen/src/glm_data_set.py:1535-1537 | the share of a non-empty list lies in [0, 1] and is positive exactly when the count is |
| GlmFilters.SomeTrue | glmtriggergen/src/glm_data_set.py:1514 | a mask selects something exactly when one entry is true |
| GlmFilters.SatGroupMetric | glmtriggergen/src/glm_data_set.py:1500-1540 | a satellite's metric lies in [0, 1] and is positive exactly when it has detections in the cluster and some high-energy one is in a group of more than five events |
| GlmFilters.SatGroupMetrics | glmtriggergen/src/glm_data_set.py:1495-1540 | one metric per distinct satellite of the cluster, in increasing satellite order |
| GlmFilters.LargeGroupRejectsProps | glmtriggergen/src/glm_data_set.py:1579-1584 | a cluster is rejected exactly when it has detections and one of its satellites has a metric above 0.20 |
| GlmFilters.LargeGroupSatHasLargeGroup | glmtriggergen/src/glm_data_set.py:1525-1540 | a satellite above the threshold has a high-energy detection in a group of more than five events |
| GlmFilters.OmitLargeGroupSizeClusters | glmtriggergen/src/glm_data_set.py:1455-1594 | the result is the listed clusters, in order, that the large-group test does not reject |
| GlmFilters.RocketSelection | glmtriggergen/src/glm_data_set.py:2300-2305 | the series is exactly the cluster's detections from the satellite that are energy peaks with good fitness |
| GlmFilters.SatBolideProb | glmtriggergen/src/glm_data_set.py:2306-2349 | a satellite is skipped exactly when its series is empty; otherwise its probability is the classifier's on the series' energies, latitudes and longitudes |
| GlmFilters.SatBolideMetrics | glmtriggergen/src/glm_data_set.py:2292-2350 | one metric per distinct satellite of the cluster, its probability or zero when skipped |
| GlmFilters.MaxBelow | glmtriggergen/src/glm_data_set.py:2354-2357 | the largest value is below a bound exactly when all values are |
| GlmFilters.MaxAbove | glmtriggergen/src/glm_data_set.py:1580-1583 | the largest value is above a bound exactly when some value is |
| GlmFilters.RocketRejectsProps | glmtriggergen/src/glm_data_set.py:2353-2358 | a cluster with detections is rejected exactly when every satellite was skipped or scored below the probability threshold, so a cluster with no series to classify is rejected |
| GlmFilters.RocketFilter | glmtriggergen/src/glm_data_set.py:2260-2372 | the result is the listed clusters, in order, that the classifier test does not reject |
| GlmFilters.StoreRocketProbs | glmtriggergen/src/glm_data_set.py:2282-2351 | every (cluster, satellite) pair with a series in a good listed cluster gets its probability recorded, and every other entry is kept |
| GlmFilters.StoreClusterProbs | glmtriggergen/src/glm_data_set.py:2297-2351 | the satellites of one cluster add their probabilities to those recorded so far |
| GlmPeaks.GroupMask | glmtriggergen/src/glm_data_set.py:1982-1984 | a detection is in the group exactly when it has the cluster and the satellite |
| GlmPeaks.PeakFlags | glmtriggergen/src/glm_data_set.py:2035-2040 | one flag per detection of the group |
| GlmPeaks.PeakUnique | glmtriggergen/src/glm_data_set.py:1992-2033 | two peaks at the same time are the same detection |
| GlmPeaks.FirstMaxIsPeak | glmtriggergen/src/glm_data_set.py:2021-2033 | the first position holding the largest energy of its time is the peak of that time |
| GlmPeaks.FlagStep | glmtriggergen/src/glm_data_set.py:2005-2040 | flagging the peak of one more time extends the flags set so far to that time |
| GlmPeaks.KeptAlone | glmtriggergen/src/glm_data_set.py:1998-2009 | for a time that occurs once in the group, the position kept is the peak of that time |
| GlmPeaks.KeptFirstMax | glmtriggergen/src/glm_data_set.py:2013-2033 | for a repeated time, the first position at that time whose energy equals the argmax energy exists and is the peak of that time |
| GlmPeaks.HigherEnergyFlags | glmtriggergen/src/glm_data_set.py:1988-2040 | the flags computed time by time, single times first and repeated times after, are 1 exactly at the peaks of the group |
| GlmPeaks.Highest | glmtriggergen/src/glm_data_set.py:1957-2043 | one flag per detection |
| GlmPeaks.HighestOnePerInstant | glmtriggergen/src/glm_data_set.py:1957-2043 | for every good detection the flags are 0 or 1, exactly one detection with its cluster, satellite and time is flagged, and that one holds the largest energy of the instant |
| GlmPeaks.LocalPeak | glmtriggergen/src/glm_data_set.py:1988-1990 | a peak of the group's subset, read back through the group's mask, is a peak of its cluster, satellite and time, and conversely |
| GlmPeaks.LocalPeakIsGroupPeak | glmtriggergen/src/glm_data_set.py:1988-2041 | a peak found in the group's subset is the data set's peak at that position |
| GlmPeaks.GroupPeakIsLocalPeak | glmtriggergen/src/glm_data_set.py:1988-2041 | a data set peak is a peak of its group's subset |
| GlmPeaks.GroupWrite | glmtriggergen/src/glm_data_set.py:2041-2043 | writing a group's flags back through its mask sets each member to its data-set-wide peak flag |
| GlmPeaks.SatStep | glmtriggergen/src/glm_data_set.py:1980-2043 | the write of one satellite's group extends the flags set so far to that satellite |
| GlmPeaks.ClusterStep | glmtriggergen/src/glm_data_set.py:1975-2043 | once every satellite of a cluster is visited, the cluster is done |
| GlmPeaks.SkipCluster | glmtriggergen/src/glm_data_set.py:1976-1978 | skipping the bad cluster keeps the flags set so far |
| GlmPeaks.MarkClusterPeaks | glmtriggergen/src/glm_data_set.py:1980-2043 | the satellite loop of one good cluster sets the flags of all its detections |
| GlmPeaks.MarkHigherEnergies | glmtriggergen/src/glm_data_set.py:1957-2043 | the loops leave the flags of the specification: bad detections keep theirs, every other detection is 1 exactly when it is the peak of its instant |
| GlmFitness.FitMask | glmtriggergen/src/glm_data_set.py:2071-2078 | a detection is in the group exactly when it has the cluster, the satellite and the highest-energy flag 1 |
| GlmFitness.Earliest | glmtriggergen/src/glm_data_set.py:2083 | the detection the time sort puts first is a detection index |
| GlmFitness.Latest | glmtriggergen/src/glm_data_set.py:2083 | the detection the time sort puts last is a detection index |
| GlmFitness.EndsAreExtreme | glmtriggergen/src/glm_data_set.py:2083 | the first and last detection in time order belong to the group and hold its smallest and its largest time |
| GlmFitness.GroupFitness | glmtriggergen/src/glm_data_set.py:2082-2111 | one group's new fitness has one 0 or 1 per detection, the first and last detection in time order keep 1, and the detection at place j in time order is 1 exactly when the forward or the backward energy filter keeps place j |
| GlmFitness.BothPasses | glmtriggergen/src/glm_data_set.py:2085-2110 | the combination of the forward and backward energy filter passes is 1 at a point exactly when either reference pass keeps it, is 0 or 1 everywhere and is 1 at both ends |
| GlmFitness.MaxFlags | glmtriggergen/src/glm_data_set.py:2106-2110 | the elementwise maximum of 0/1 flags is 1 exactly where either is 1 |
| GlmFitness.ScatterFlags | glmtriggergen/src/glm_data_set.py:2107-2110 | writing 0 or 1 flags through the time order leaves only 0 or 1 flags |
| GlmFitness.VisitedStep | glmtriggergen/src/glm_data_set.py:2069 | visiting one more satellite marks exactly that satellite's group of the current cluster as visited |
| GlmFitness.FitValues | glmtriggergen/src/glm_data_set.py:2107-2111 | writing a group's new fitness back keeps every value outside visited groups and leaves 0 or 1 inside them |
| GlmFitness.FitEnd | glmtriggergen/src/glm_data_set.py:2107-2111 | after a group's write-back, the ends of every visited group still hold 1 |
| GlmFitness.FitEndInGroup | glmtriggergen/src/glm_data_set.py:2107-2111 | after a group's write-back, that group's first and last detection in time order hold 1 |
| GlmFitness.FitEndOutside | glmtriggergen/src/glm_data_set.py:2111 | a group's write-back does not touch another group's ends |
| GlmFitness.FitStep | glmtriggergen/src/glm_data_set.py:2069-2111 | the write-back of one satellite's group extends the fitness set so far to that satellite |
| GlmFitness.FitSkip | glmtriggergen/src/glm_data_set.py:2079-2080 | a group with no highest-energy detection changes nothing |
| GlmFitness.FitSkipBad | glmtriggergen/src/glm_data_set.py:2065-2067 | skipping the bad cluster keeps the fitness set so far |
| GlmFitness.FitClusterStep | glmtriggergen/src/glm_data_set.py:2064-2111 | once every satellite of a cluster is visited, the cluster is done |
| GlmFitness.MarkClusterFitness | glmtriggergen/src/glm_data_set.py:2069-2111 | the satellite loop of one good cluster sets the fitness of all its highest-energy detections |
| GlmFitness.MarkBadPoints | glmtriggergen/src/glm_data_set.py:2047-2111 | the fitness of detections outside the good highest-energy groups is unchanged; inside them every value is 0 or 1, each group's first and last detection in time order keep 1, and every detection follows the energy rule of its group |
| GlmFitness.RuleStep | glmtriggergen/src/glm_data_set.py:2082-2111 | writing one group's new fitness back makes the energy rule hold on the group and keeps it on the groups visited before |
| GlmFitness.RuleSkip | glmtriggergen/src/glm_data_set.py:2069-2080 | a satellite without highest-energy detections of the cluster keeps the energy rule |
| GlmFitness.RuleSkipBad | glmtriggergen/src/glm_data_set.py:2064-2067 | skipping the bad cluster keeps the energy rule |
| GlmFitness.RuleClusterStep | glmtriggergen/src/glm_data_set.py:2064-2111 | finishing every satellite of a cluster keeps the energy rule |
| GlmRank.SortedValues | glmtriggergen/src/glm_data_set.py:2244 | the sorted energies are as many as the energies and in non-decreasing order |
| GlmRank.MedianSplits | glmtriggergen/src/glm_data_set.py:2246 | the median of sorted values is at least every value of the lower half and at most every value of the upper half |
| GlmRank.MedianBounds | glmtriggergen/src/glm_data_set.py:2246 | the median lies between the smallest and the largest value |
| GlmRank.BaselineCount | glmtriggergen/src/glm_data_set.py:2245 | the baseline is taken from the ceiling of a tenth of the energies: at least one and at most all of them for a non-empty group |
| GlmRank.BaselineBounds | glmtriggergen/src/glm_data_set.py:2243-2246 | the baseline lies between the group's smallest energy and the largest energy of its smallest tenth |
| GlmRank.Series | glmtriggergen/src/glm_data_set.py:2248-2253 | one baseline-subtracted energy per detection, in time order |
| GlmRank.GroupRank | glmtriggergen/src/glm_data_set.py:2243-2254 | a group's rank is the best run of continuous_above_min with no mistakes over its baseline-subtracted series; so it is at least the longest run of consecutive energies above the minimum over the baseline, and at most the number of such energies |
| GlmRank.RankMask | glmtriggergen/src/glm_data_set.py:2230-2238 | a detection takes part exactly when it has the cluster and satellite and is flagged both highest energy and fit |
| GlmRank.QualifiesSeen | glmtriggergen/src/glm_data_set.py:2239-2241 | only satellites that saw the cluster, with at least two taking-part detections, contribute |
| GlmRank.MaxOverStep | glmtriggergen/src/glm_data_set.py:2255-2256 | keeping the larger of the rank so far and a new satellite's rank keeps the rank at least every visited qualifying satellite's lower value, and 0 or within the upper value of one of them |
| GlmRank.VisitSat | glmtriggergen/src/glm_data_set.py:2228-2256 | one satellite of the loop extends the rank so far, the largest rank of the visited qualifying satellites, to that satellite |
| GlmRank.RankBounds | glmtriggergen/src/glm_data_set.py:2228-2256 | a cluster's rank is at least every visited qualifying satellite's longest run, and 0 or at most the above-threshold count of one of them |
| GlmRank.ClusterRank | glmtriggergen/src/glm_data_set.py:2228-2256 | a cluster's rank is 0 when no satellite qualifies and otherwise the largest continuous_above_min rank of its qualifying satellites |
| GlmRank.RankOf | glmtriggergen/src/glm_data_set.py:2223-2256 | the bad cluster ranks 0; every other cluster's rank is the largest rank over all its qualifying satellites |
| GlmRank.RanksAppend | glmtriggergen/src/glm_data_set.py:2220-2256 | appending one cluster's row keeps one row per id in id order |
| GlmRank.RankOverAllSats | glmtriggergen/src/glm_data_set.py:2216-2228 | visiting each distinct satellite id once is the same as visiting every satellite |
| GlmRank.RankGlmClusters | glmtriggergen/src/glm_data_set.py:2197-2256 | one (cluster id, rank) row per distinct cluster id in increasing order, the bad cluster ranked 0, every other rank the largest rank of its qualifying satellites |
| GlmStereo.RowPrefix | glmtriggergen/src/glm_data_set.py:1710-1726 | the comparisons of one row with each later row, in order, each with its parallel test |
| GlmStereo.PairsBeforeEntries | glmtriggergen/src/glm_data_set.py:1706-1726 | every comparison made before row i pairs two rows a < b with a < i and carries their parallel test |
| GlmStereo.PairsBeforeComplete | glmtriggergen/src/glm_data_set.py:1706-1726 | every pair a < b with a < i has been compared before row i |
| GlmStereo.PairsBeforeInOrder | glmtriggergen/src/glm_data_set.py:1706-1726 | the comparisons made so far are in the lexicographic order of the double loop |
| GlmStereo.SineAnglesListed | glmtriggergen/src/glm_data_set.py:1703-1726 | the sine-angle array lists each pair of rows a < b once, in loop order, with its parallel test |
| GlmStereo.SineAngleArray | glmtriggergen/src/glm_data_set.py:1703-1726 | the double loop fills exactly the sine-angle array |
| GlmStereo.RowComparisons | glmtriggergen/src/glm_data_set.py:1708-1724 | the inner loop compares row i with every later row, in order |
| GlmStereo.InOrderAppend | glmtriggergen/src/glm_data_set.py:1706-1726 | the comparisons of a new outer row follow all earlier ones in loop order |
| GlmStereo.LastAt | glmtriggergen/src/glm_data_set.py:1730-1737 | the position found is -1 or a non-parallel comparison with no non-parallel comparison after it |
| GlmStereo.LastAtLatest | glmtriggergen/src/glm_data_set.py:1730-1737 | whenever some pair is non-parallel, a pair is kept and no non-parallel pair comes after it in loop order |
| GlmStereo.StereoChoiceIsLast | glmtriggergen/src/glm_data_set.py:1703-1740 | no pair is kept exactly when every pair of rows is nearly parallel; otherwise the kept pair is non-parallel and no non-parallel pair follows it in loop order |
| GlmStereo.SatRows | glmtriggergen/src/glm_data_set.py:1692-1698 | every row of the unique (satellite, position) table belongs to a satellite of the cluster, and the rows are in the order np.unique sorts them: by satellite id, then by position |
| GlmStereo.PositionsOf | glmtriggergen/src/glm_data_set.py:1692-1697 | a satellite's rows hold each position it reports in the cluster once, sorted by x, then y, then z |
| GlmStereo.SortedPositions | glmtriggergen/src/glm_data_set.py:1694-1696 | the distinct positions of a sequence, sorted by x, then y, then z |
| GlmStereo.InsertPosition | glmtriggergen/src/glm_data_set.py:1694-1696 | inserting a position into a sorted sequence without repeats keeps it sorted and adds exactly that position |
| GlmStereo.LexTotal | glmtriggergen/src/glm_data_set.py:1694-1696 | two different positions are always ordered one way or the other |
| GlmStereo.RowPositions | glmtriggergen/src/glm_data_set.py:1698 | the positions column of the table |
| GlmStereo.StereoSatsProps | glmtriggergen/src/glm_data_set.py:1672-1743 | the satellites returned are none or two, all seen in the cluster, and none exactly when every two rows are nearly parallel |
| GlmStereo.GetStereoPair | glmtriggergen/src/glm_data_set.py:1672-1743 | the loops return the satellite ids of the stereo pair specification |
| GlmStereo.PeakIndex | glmtriggergen/src/glm_data_set.py:1800-1804 | the peak is a detection of the mask whose energy no other detection of the mask exceeds |
| GlmStereo.Without | glmtriggergen/src/glm_data_set.py:1807-1809 | the list keeps exactly its entries other than the value, and is no longer |
| GlmStereo.Distances | glmtriggergen/src/glm_data_set.py:1826 | each distance is the absolute difference from the peak time |
| GlmStereo.NearestOrder | glmtriggergen/src/glm_data_set.py:1826-1830 | the order keeps the maximum number of positions when there are at least that many, otherwise all, each a valid position |
| GlmStereo.NearestOrderIsNearest | glmtriggergen/src/glm_data_set.py:1826-1830 | a kept line of sight is never farther in time from the peak than one left out, and the kept ones come nearest first |
| GlmStereo.NearestTrack | glmtriggergen/src/glm_data_set.py:1814-1843 | a satellite has a track exactly when it has detections in the mask, and the track holds the maximum number of lines of sight or all of them when fewer |
| GlmStereo.FirstWithin | glmtriggergen/src/glm_data_set.py:1911-1918 | the partner found is the first time within half a sample period, and none exists when every time is farther |
| GlmStereo.FirstMatchNone | glmtriggergen/src/glm_data_set.py:1907-1918 | there is no match exactly when no two lines of sight of the two satellites coincide in time |
| GlmStereo.FirstMatchEarliest | glmtriggergen/src/glm_data_set.py:1907-1918 | a match is the earliest line of sight of the first satellite that has a partner, paired with its first partner |
| GlmStereo.MatchTimes | glmtriggergen/src/glm_data_set.py:1907-1918 | the loop stops at the first match, or finds none |
| GlmStereo.Estimate | glmtriggergen/src/glm_data_set.py:1635-1668 | an estimate exists only with a stereo pair and a coincident pair of lines of sight, and its mask lies within the cluster (also lines 1919-1935) |
| GlmStereo.LowAltitudeProps | glmtriggergen/src/glm_data_set.py:1626-1668 | a detection becomes bad exactly when it was bad or its cluster's estimate lies below the altitude threshold and it is from one of the two compared satellites; the rest of the cluster keeps its id (also lines 1945-1947) |
| GlmStereo.StoreEstimates | glmtriggergen/src/glm_data_set.py:1934-1935 | every good listed cluster with an estimate gets it in the dictionary, and every other entry is kept (also lines 2586-2696) |
| GlmVelocity.AboveFloor | glmtriggergen/src/glm_data_set.py:2485-2486 | a detection is kept exactly when it is selected and its energy exceeds the floor |
| GlmVelocity.Qualifying | glmtriggergen/src/glm_data_set.py:2477-2508 | a detection qualifies exactly when it is in the cluster, from a stereo satellite, above the energy floor, in a group of more than one event, fit and highest |
| GlmVelocity.StereoMask | glmtriggergen/src/glm_data_set.py:2451-2510 | every detection of the stereo selection belongs to the cluster and is marked fit and highest |
| GlmVelocity.LosOf | glmtriggergen/src/glm_data_set.py:2550-2571 | the lines of sight of one satellite are exactly its selected detections, in increasing time order |
| GlmVelocity.SatCounts | glmtriggergen/src/glm_data_set.py:2526-2529 | each count is the number of selected detections of that satellite |
| GlmVelocity.StereoLosData | glmtriggergen/src/glm_data_set.py:2512-2584 | there is no pair of satellites exactly when at most one satellite remains; otherwise the two satellites differ, both are selected, and the first has no more detections than the second |
| GlmVelocity.TooFastIsSpeed | glmtriggergen/src/glm_data_set.py:2683-2684 | the squared test agrees with comparing the speed in kilometres per second with the limit |
| GlmVelocity.MinTime | glmtriggergen/src/glm_data_set.py:2675 | the minimum is no larger than any time |
| GlmVelocity.Shifted | glmtriggergen/src/glm_data_set.py:2675 | the shifted intersection times are all non-negative |
| GlmVelocity.FitPairs | glmtriggergen/src/glm_data_set.py:2646-2689 | a velocity fitted from the pairs never exceeds the speed limit |
| GlmVelocity.VelocityOf | glmtriggergen/src/glm_data_set.py:2611-2692 | every velocity stored for a cluster is under the speed limit |
| GlmVelocity.EventVelocity | glmtriggergen/src/glm_data_set.py:2699-2723 | the stored velocity of the cluster, and the zero vector when none is stored |
| GlmVelocity.StoredVelocitiesAreSlow | glmtriggergen/src/glm_data_set.py:2683-2689 | every velocity the estimate can store is under the speed limit |
| GlmPosition.EventPositionEcef | glmtriggergen/src/glm_data_set.py:2374-2416 | the stored stereo location when there is one; otherwise the default-altitude point on the line of sight of the first detection of the mask with the largest source intensity |
| GlmPosition.Goes19Selection | glmtriggergen/src/glm_data_set.py:2155-2163 | a detection is selected exactly when it is in the cluster, seen by GOES-19, a peak and fit |
| GlmPosition.Goes19Props | glmtriggergen/src/glm_data_set.py:2115-2193 | a detection becomes bad exactly when it was bad or its cluster has at least two selected GOES-19 detections and a position strictly within the tolerance of an anomaly |
| GlmPosition.Goes19WholeCluster | glmtriggergen/src/glm_data_set.py:2151-2193 | two detections of one cluster are removed or kept together |
| GlmPosition.SatEnergies | glmtriggergen/src/glm_data_set.py:2436-2447 | one energy per distinct satellite, its summed source intensity times four pi over 503 |
| GlmPosition.TotalRadiatedEnergy | glmtriggergen/src/glm_data_set.py:2418-2449 | there is no energy exactly when the mask is empty; otherwise the largest per-satellite energy |
| GlmPosition.NonEmptyHasSatellite | glmtriggergen/src/glm_data_set.py:2436 | the distinct satellite ids are empty exactly when the selection is |
| DatabaseHelpers.PrependElement | glmtriggergen/src/helper_funs/database_helpers.py:33-43 | one row per input row, each one longer and starting with the element |
| DatabaseHelpers.PrependThenDrop | glmtriggergen/src/helper_funs/database_helpers.py:33-43 | the rest of each row is the original row, so dropping the first element gives the input back |
| DatabaseHelpers.ArrayLiteral | glmtriggergen/src/helper_funs/database_helpers.py:211-213 | the literal is braced |
| DatabaseHelpers.LocationComponents | glmtriggergen/src/helper_funs/database_helpers.py:211-213 | split at its commas, the location literal gives back the three rendered components in order |
| DatabaseHelpers.ArrayLiteralParts | glmtriggergen/src/helper_funs/database_helpers.py:211-213 | the first component's text follows the brace and is followed by a comma and a blank |
| DatabaseHelpers.NullVelocityIff | glmtriggergen/src/helper_funs/database_helpers.py:214-220 | the velocity column is the null literal exactly when every component is below the tolerance in size |
| RocketTrainingData.FirstMask | glmtriggergen/rocket_model/scripts/rocket_train_and_test_data_generation.py:159-168 | a position is flagged exactly when no earlier position holds its value |
| RocketTrainingData.RemoveDuplicates | glmtriggergen/rocket_model/scripts/rocket_train_and_test_data_generation.py:467-485 | the loop with a seen set returns the first occurrences of the entries |
| RocketTrainingData.FirstOccurrencesAreFirsts | glmtriggergen/rocket_model/scripts/rocket_train_and_test_data_generation.py:467-485 | the list without repeats is the input read at the positions of first occurrences, in the original order |
| RocketTrainingData.DropStep | glmtriggergen/rocket_model/scripts/rocket_train_and_test_data_generation.py:159-168 | processing one key clears exactly the later positions that hold the same key |
| RocketTrainingData.DropLaterDuplicates | glmtriggergen/rocket_model/scripts/rocket_train_and_test_data_generation.py:163-168 | every listed position but the first is cleared and every other flag kept |
| RocketTrainingData.DuplicateKeepFlags | glmtriggergen/rocket_model/scripts/rocket_train_and_test_data_generation.py:158-168 | the keep flags left on are exactly the first occurrences of each key |
| RocketTrainingData.AllDroppedFirst | glmtriggergen/rocket_model/scripts/rocket_train_and_test_data_generation.py:158-168 | once every key is processed, the flags left on are the first occurrences |
| RocketTrainingData.SeenAtOwn | glmtriggergen/rocket_model/scripts/rocket_train_and_test_data_generation.py:159-161 | each key matches itself, so every key is counted at least once |
| RocketTrainingData.Not | glmtriggergen/rocket_model/scripts/rocket_train_and_test_data_generation.py:169 | the drop flags are the negated keep flags |
| RocketTrainingData.FindDuplicateTriggers | glmtriggergen/rocket_model/scripts/rocket_train_and_test_data_generation.py:133-176 | the names of exactly the images whose date and rank repeat an earlier image's, in path order |
| RocketTrainingData.DroppedHasKeptOriginal | glmtriggergen/rocket_model/scripts/rocket_train_and_test_data_generation.py:133-176 | every dropped image repeats the key of an earlier kept image |
| RocketTrainingData.KeptKeysDistinct | glmtriggergen/rocket_model/scripts/rocket_train_and_test_data_generation.py:133-176 | no two kept images share a key |
| RocketMissingPng.ParseFilename | glmtriggergen/rocket_model/scripts/rocket_missing_png_plotter.py:43-62 | a parsed name matches the pattern with the returned date-time and cluster id groups |
| RocketMissingPng.ParseFilenameComplete | glmtriggergen/rocket_model/scripts/rocket_missing_png_plotter.py:54-60 | every name matching the pattern is parsed, with its own groups |
| RocketMissingPng.ParseFilenameNone | glmtriggergen/rocket_model/scripts/rocket_missing_png_plotter.py:57-62 | nothing is returned exactly when no date-time and cluster id match |
| RocketMissingPng.FindUnmatchedNpyFiles | glmtriggergen/rocket_model/scripts/rocket_missing_png_plotter.py:102-119 | the loop collects the files of the items without a plot, in dict order |
| RocketMissingPng.UnmatchedMembers | glmtriggergen/rocket_model/scripts/rocket_missing_png_plotter.py:102-119 | a file is reported exactly when it belongs to an item whose key has no plot |
| RocketMissingPng.UnmatchedNoPlots | glmtriggergen/rocket_model/scripts/rocket_missing_png_plotter.py:113-117 | with no plots, every item's files are reported, one item after another |
| PointSourceFilterHelpers.RenderConcat | starfall-server/src/helpers/PointSourceFilterHelpers.ts:24-79 | appending fragments appends their text, so the query string is the text of its fragment list |
| PointSourceFilterHelpers.RangeArgs | starfall-server/src/helpers/PointSourceFilterHelpers.ts:34-60 | an enabled range pushes its two bounds and a disabled one nothing |
| PointSourceFilterHelpers.TagArgs | starfall-server/src/helpers/PointSourceFilterHelpers.ts:74-77 | the tags are pushed, one argument each, only when tags are enabled and not empty |
| PointSourceFilterHelpers.ParamsRange | starfall-server/src/helpers/PointSourceFilterHelpers.ts:34-39 | a range clause numbers its two placeholders one after the other from the current argument count plus two |
| PointSourceFilterHelpers.ParamsTagPlaceholders | starfall-server/src/helpers/PointSourceFilterHelpers.ts:75 | the tag list holds one placeholder per tag, numbered consecutively |
| PointSourceFilterHelpers.ParamsTags | starfall-server/src/helpers/PointSourceFilterHelpers.ts:74-77 | the tags clause numbers one placeholder per tag pushed |
| PointSourceFilterHelpers.ParamsHorizon | starfall-server/src/helpers/PointSourceFilterHelpers.ts:41-46 | the horizon test has no placeholder |
| PointSourceFilterHelpers.ParamsGeo | starfall-server/src/helpers/PointSourceFilterHelpers.ts:62-72 | the geo clause writes its point and radius into the text and has no placeholder |
| PointSourceFilterHelpers.ParamsClauses | starfall-server/src/helpers/PointSourceFilterHelpers.ts:34-77 | the clauses number their placeholders 2, 3, and so on in text order, one per argument pushed |
| PointSourceFilterHelpers.PlaceholdersConsecutive | starfall-server/src/helpers/PointSourceFilterHelpers.ts:24-81 | the placeholders of the whole query are 2, 3, and so on in text order, one per returned argument, so the k-th argument binds placeholder k + 2 |
| PointSourceFilterHelpers.RangeFixed | starfall-server/src/helpers/PointSourceFilterHelpers.ts:34-39 | a range clause holds its column's two comparisons exactly when enabled |
| PointSourceFilterHelpers.GeoFixed | starfall-server/src/helpers/PointSourceFilterHelpers.ts:62-72 | the sphere test is added exactly when geo is enabled and lat, lon, alt and radius are all numbers |
| PointSourceFilterHelpers.TagsFixed | starfall-server/src/helpers/PointSourceFilterHelpers.ts:74-77 | the tag list is added exactly when tags are enabled and not empty, with commas only between two or more tags |
| PointSourceFilterHelpers.ClausesFixed | starfall-server/src/helpers/PointSourceFilterHelpers.ts:34-77 | the clauses hold exactly the SQL pieces the filter asks for |
| PointSourceFilterHelpers.FixedPieces | starfall-server/src/helpers/PointSourceFilterHelpers.ts:24-81 | each SQL piece is in the query exactly when the filter asks for it; the head and the order by time always are |
| PointSourceFilterHelpers.NoFilters | starfall-server/src/helpers/PointSourceFilterHelpers.ts:24-81 | with every filter off the query is the head and the order alone and no argument is pushed |
| PointSourceFilterHelpers.EndsWithOrder | starfall-server/src/helpers/PointSourceFilterHelpers.ts:79 | the query always ends with the ordering by time |
| PointSourceFilterHelpers.AppendRange | starfall-server/src/helpers/PointSourceFilterHelpers.ts:34-60 | each bound's placeholder is numbered from the argument count before it is pushed |
| PointSourceFilterHelpers.AppendHorizon | starfall-server/src/helpers/PointSourceFilterHelpers.ts:41-46 | the horizon test is appended only when exactly one of above and below is set |
| PointSourceFilterHelpers.AppendGeo | starfall-server/src/helpers/PointSourceFilterHelpers.ts:62-72 | a geo filter with a missing or non-numeric field adds nothing |
| PointSourceFilterHelpers.AppendTags | starfall-server/src/helpers/PointSourceFilterHelpers.ts:74-77 | the tag placeholders are numbered from the argument count before the tags are pushed |
| PointSourceFilterHelpers.MakePointSourceFilterQuery | starfall-server/src/helpers/PointSourceFilterHelpers.ts:24-81 | the query built step by step is the text of the query's fragments and the arguments are the pushed bounds and tags in order |
| StatusHandler.FirstStatus | starfall-server/src/Messaging/Handlers/StatusHandler.ts:40-54 | a record with no status gives the empty text |
| StatusHandler.Put | starfall-server/src/Messaging/Handlers/StatusHandler.ts:41 | assigning an object key keeps the keys distinct and in step with the values |
| StatusHandler.StatusObjectOf | starfall-server/src/Messaging/Handlers/StatusHandler.ts:34-42 | the object built from the records is well formed |
| StatusHandler.Values | starfall-server/src/Messaging/Handlers/StatusHandler.ts:43 | the values of the object, in key insertion order |
| StatusHandler.AggregateStatus | starfall-server/src/Messaging/Handlers/StatusHandler.ts:34-44 | the loop returns the values of the object built from the status records, log records skipped |
| StatusHandler.StatusOrderFirstSeen | starfall-server/src/Messaging/Handlers/StatusHandler.ts:34-44 | there is one status line per distinct main and sub key, in the order the keys first appear |
| StatusHandler.LastRecordWins | starfall-server/src/Messaging/Handlers/StatusHandler.ts:41 | the line kept for a key is that of the last status record with that key |
| StatusHandler.PutSets | starfall-server/src/Messaging/Handlers/StatusHandler.ts:41 | after an assignment the key holds the new value |
| StatusHandler.PutKeeps | starfall-server/src/Messaging/Handlers/StatusHandler.ts:41 | an assignment leaves every other key's value alone |
| StatusHandler.StatusLinesFromRecords | starfall-server/src/Messaging/Handlers/StatusHandler.ts:34-44 | every status line is the line of some status record with that key |
| StatusHandler.AddLine | starfall-server/src/Messaging/Handlers/StatusHandler.ts:56-62 | after a line there is at least one entry |
| StatusHandler.AppendLogLines | starfall-server/src/Messaging/Handlers/StatusHandler.ts:56-63 | the inner loop adds the lines of one log text as the line-by-line specification says |
| StatusHandler.AggregateLogs | starfall-server/src/Messaging/Handlers/StatusHandler.ts:49-66 | the entries built from the log records, with a non-empty first status, newest first |
| StatusHandler.Reverse | starfall-server/src/Messaging/Handlers/StatusHandler.ts:65 | the entries in reverse order |
| StatusHandler.AddLinesCount | starfall-server/src/Messaging/Handlers/StatusHandler.ts:56-63 | each level line adds one entry, other lines none, except a first line without level when there is no entry yet |
| StatusHandler.AddLinesExtends | starfall-server/src/Messaging/Handlers/StatusHandler.ts:56-63 | entries only grow: earlier entries stay and the last one only gains text at its end |
| StatusHandler.OrphanLine | starfall-server/src/Messaging/Handlers/StatusHandler.ts:60-61 | a line without a level and no entry yet gives the entry newline then line |
| StatusHandler.ProcessStatusReply | starfall-server/src/Messaging/Handlers/StatusHandler.ts:72-79 | the named service answered at the given time, not yet viewed, with the aggregated status lines and log entries |
| NetCdfFileHelpers.TailAtIff | starfall-server/src/helpers/NetCDFFileHelpers.ts:37 | the greedy reading of the tail finds a match exactly when the tail pattern, with its wildcard dot, matches |
| NetCdfFileHelpers.RestAt | starfall-server/src/helpers/NetCDFFileHelpers.ts:37 | groups found at a start are non-empty digit runs |
| NetCdfFileHelpers.RestAtSound | starfall-server/src/helpers/NetCDFFileHelpers.ts:37 | groups found at a start form a match of the pattern there |
| NetCdfFileHelpers.RestAtComplete | starfall-server/src/helpers/NetCDFFileHelpers.ts:37 | every match at a start is found there, with its own groups |
| NetCdfFileHelpers.FirstMatchSound | starfall-server/src/helpers/NetCDFFileHelpers.ts:37-45 | the groups returned are those of a match with no match starting earlier |
| NetCdfFileHelpers.FirstMatchComplete | starfall-server/src/helpers/NetCDFFileHelpers.ts:37-45 | the leftmost match's groups are the ones returned |
| NetCdfFileHelpers.ParseFileName | starfall-server/src/helpers/NetCDFFileHelpers.ts:45 | both groups returned are digit strings |
| NetCdfFileHelpers.CheckFileIff | starfall-server/src/helpers/NetCDFFileHelpers.ts:44-54 | a file covers a time exactly when the leftmost match has a start at most the time and an end at least the time, both ends inclusive |
| NetCdfFileHelpers.CheckFileNoMatch | starfall-server/src/helpers/NetCDFFileHelpers.ts:46-53 | a name the pattern does not match covers no time |
| NetCdfFileHelpers.NoStartBefore | starfall-server/src/helpers/NetCDFFileHelpers.ts:37 | without an underscore-s before a position no match starts before it |
| NetCdfFileHelpers.NameOfParts | starfall-server/src/helpers/NetCDFFileHelpers.ts:58 | a GOES name built from its parts matches right after the platform part |
| NetCdfFileHelpers.CheckFileOfName | starfall-server/test/helpers/NetCDFFileHelpers.spec.ts:52-108 | a GOES name whose platform part holds no underscore-s covers exactly the times between its own start and end, inclusive |
| TimeHelpers.CopiesOfChar | starfall-common/helpers/time.ts:60 | joining k + 1 empty slots with a one-character filler gives that character k times |
| TimeHelpers.Pad | starfall-common/helpers/time.ts:58-61 | the number itself exactly when its text already has the width, otherwise that text with filler on its left |
| TimeHelpers.PadIsZeroFill | starfall-common/helpers/time.ts:58-61 | padding a non-negative number with zeros is zero-filling its decimal text to the width |
| TimeHelpers.Clock | starfall-common/helpers/time.ts:64-66 | for a non-negative time the hours are non-negative and the minutes and seconds below sixty |
| TimeHelpers.FloorShift | starfall-common/helpers/time.ts:64-66 | the floor commutes with adding a whole number |
| TimeHelpers.ClockTotal | starfall-common/helpers/time.ts:64-66 | hours, minutes and seconds add up to the whole seconds of the time |
| TimeHelpers.ClockTextFields | starfall-common/helpers/time.ts:68-72 | fields in range give HH:MM:SS with at least two hour digits and exactly two minute and second digits |
| TimeHelpers.ClockTextReadBack | starfall-common/helpers/time.ts:68-72 | split at the colons, the text gives back the three fields |
| TimeHelpers.MsToTimestampReadBack | starfall-common/helpers/time.ts:63-73 | the timestamp of a non-negative time has three digit fields that read back to the whole seconds of the time |
| TimeHelpers.Substring | starfall-common/helpers/time.ts:29-30 | JavaScript substring: within bounds, the slice itself, and never longer than the string |
| TimeHelpers.ParseTimestampOfLog | starfall-common/helpers/time.ts:23-32 | a log line is read at its date and its time of day, skipping the day of the year and the message |
| TimeHelpers.ParseTimestampShort | starfall-common/helpers/time.ts:28-32 | a line no longer than the date is read whole, followed by a blank |
| ConfigParser.PathRun | starfall-server/src/ConfigParser.ts:41 | the longest run of WORD characters at the start |
| ConfigParser.LineLength | starfall-server/src/ConfigParser.ts:34 | a comment runs up to the first line terminator |
| ConfigParser.QuoteEnd | starfall-server/src/ConfigParser.ts:45 | the closing quote is the first quote with no newline before it, and none is found otherwise |
| ConfigParser.WordToken | starfall-server/src/ConfigParser.ts:37-44 | a maximal run is a SIMPLE_WORD when it is a letter then word characters, otherwise a WORD, with the run as its text |
| ConfigParser.Lex | starfall-server/src/ConfigParser.ts:26-51 | every token produced is a well-formed lexeme of its rule |
| ConfigParser.ParseValue | starfall-server/src/ConfigParser.ts:65-74 | a parsed value consumes at least one token |
| ConfigParser.ParseList | starfall-server/src/ConfigParser.ts:58-61 | a parsed list holds at least one key, consumes tokens, and stops only before a token that cannot start a key |
| ConfigParser.DoParse | starfall-server/src/ConfigParser.ts:53-82 | a parsed configuration has at least one key |
| ConfigParser.LexWord | starfall-server/src/ConfigParser.ts:37-44 | a run of word characters ended by a character that cannot continue it is one token |
| ConfigParser.LexComment | starfall-server/src/ConfigParser.ts:34 | a comment runs to its line's end and yields nothing |
| ConfigParser.LexQuoted | starfall-server/src/ConfigParser.ts:45-48 | a quoted string closed on its line is one token without its quotes |
| ConfigParser.UnclosedQuoteFails | starfall-server/src/ConfigParser.ts:45 | a quote not closed before the next newline fails to lex |
| ConfigParser.LexSpace | starfall-server/src/ConfigParser.ts:29-33 | whitespace yields nothing |
| ConfigParser.LexRejects | starfall-server/src/ConfigParser.ts:26-51 | a character that starts no rule fails to lex |
| ConfigParser.LexEmit | starfall-server/src/ConfigParser.ts:26-51 | lexing the written-out tokens gives them back |
| ConfigParser.ListKeys | starfall-server/src/ConfigParser.ts:62-64 | every key of a parsed list is a SIMPLE_WORD lexeme |
| ConfigParser.ConfigKeys | starfall-server/src/ConfigParser.ts:55-64 | every key of a parsed configuration is a SIMPLE_WORD lexeme |
| ConfigParser.LoneKeyFails | starfall-server/test/ConfigParser.spec.ts:79-87 | a lone key has no value and fails |
| ConfigParser.ThreeWordsFail | starfall-server/test/ConfigParser.spec.ts:88-96 | three words on a line are a pair and a key without a value, and fail |
| ConfigParser.QuotedKeyFails | starfall-server/test/ConfigParser.spec.ts:97-105 | a quoted string is never a key |
| ConfigParser.DigitKeyFails | starfall-server/test/ConfigParser.spec.ts:106-114 | input that starts with a digit fails |
| ConfigParser.KeyThenCommentFails | starfall-server/test/ConfigParser.spec.ts:115-123 | a key followed by a comment has no value and fails |
| ConfigParser.ArrayOfLoneKeyFails | starfall-server/test/ConfigParser.spec.ts:124-132 | an array holding only a key fails |
| ConfigParser.LexWordThenComment | starfall-server/src/ConfigParser.ts:34-41 | a comment right after a word ends the word and takes the rest of the line |
| ConfigParser.FlatList | starfall-server/src/ConfigParser.ts:58-61 | a list of words and quoted strings parses completely exactly when it has an even, non-zero number of tokens with a SIMPLE_WORD at every even place |
| ConfigParser.ParseFailsUnlessComplete | starfall-server/src/ConfigParser.ts:55-82 | the input fails exactly when it does not lex or its tokens are not one complete list |
| ConfigParser.MapOfLastWins | starfall-server/src/ConfigParser.ts:59 | the object has exactly the keys of the pairs, each with the value of the last pair that has it |
| ConfigParser.ParseEmitSyntax | starfall-server/src/ConfigParser.ts:65-74 | parsing a written value gives its meaning and stops at what follows |
| ConfigParser.ParseEmitItems | starfall-server/src/ConfigParser.ts:58-61 | parsing the written pairs gives their object and stops at what follows |
| ConfigParser.ConfigRoundTrip | starfall-server/test/ConfigParser.spec.ts:26-78 | a configuration written from pairs parses to their object, a repeated key taking its last value |
| ConfigParser.EmptyConfigFails | starfall-server/src/ConfigParser.ts:55-61 | input with only whitespace and comments fails |
| MicroserviceStatusModule.SetFirst | starfall-viewer/src/store/modules/MicroserviceStatusModule.ts:194-200 | the first status line is the new text and the others stay |
| MicroserviceStatusModule.PushLog | starfall-viewer/src/store/modules/MicroserviceStatusModule.ts:169-175 | the new log goes first, the older ones follow in order, and the list is cut to the maximum |
| MicroserviceStatusModule.FindByName | starfall-viewer/src/store/modules/MicroserviceStatusModule.ts:181 | the first entry with the name, or -1 when no entry has it |
| MicroserviceStatusModule.Upsert | starfall-viewer/src/store/modules/MicroserviceStatusModule.ts:180-188 | an update never shortens the list |
| MicroserviceStatusModule.UpsertKnown | starfall-viewer/src/store/modules/MicroserviceStatusModule.ts:184-187 | a known name replaces the first entry with it, keeping its viewed time stamp, and leaves every other entry alone |
| MicroserviceStatusModule.UpsertNew | starfall-viewer/src/store/modules/MicroserviceStatusModule.ts:182-183 | a new name is appended |
| MicroserviceStatusModule.UpsertNames | starfall-viewer/src/store/modules/MicroserviceStatusModule.ts:180-188 | one update adds the status's name to the names on the list and keeps the others |
| MicroserviceStatusModule.UpsertAllNames | starfall-viewer/src/store/modules/MicroserviceStatusModule.ts:179-189 | after an update the names on the list are those before and those of the statuses |
| MicroserviceStatusModule.AfterCheck | starfall-viewer/src/store/modules/MicroserviceStatusModule.ts:196-202 | the server counts as responding exactly when its last update is less than thirty seconds ago |
| MicroserviceStatusModule.CheckServer | starfall-viewer/src/store/modules/MicroserviceStatusModule.ts:196-202 | the server entry after the check |
| MicroserviceStatusModule.HeartbeatThenCheck | starfall-viewer/src/store/modules/MicroserviceStatusModule.ts:190-202 | a check less than the timeout after a heartbeat finds the server up with the heartbeat line; a later check finds it down with the silence message |
| MicroserviceStatusModule.LogStatus | starfall-viewer/src/store/modules/MicroserviceStatusModule.ts:225-241 | debug and info lines are fine; a warning or an error line counts only when it is newer than the viewed time stamp |
| MicroserviceStatusModule.LogStates | starfall-viewer/src/store/modules/MicroserviceStatusModule.ts:218-221 | one grade per log |
| MicroserviceStatusModule.Worst | starfall-viewer/src/store/modules/MicroserviceStatusModule.ts:206-222 | an error wins over a warning, which wins over fine |
| MicroserviceStatusModule.ViewedLogsAreFine | starfall-viewer/src/store/modules/MicroserviceStatusModule.ts:176-241 | once the logs are viewed at a time no older than any of them, a service that answered is fine |
| MicroserviceStatusModule.Bump | starfall-viewer/src/store/modules/MicroserviceStatusModule.ts:251-266 | one log adds exactly one to the counters, to its own grade |
| MicroserviceStatusModule.Classify | starfall-viewer/src/store/modules/MicroserviceStatusModule.ts:253-265 | every log is counted under some level, and under debug exactly when it holds the debug marker looked for |
| MicroserviceStatusModule.CountStates | starfall-viewer/src/store/modules/MicroserviceStatusModule.ts:251-266 | the counters add up to the number of logs |
| MicroserviceStatusModule.CountsSnoc | starfall-viewer/src/store/modules/MicroserviceStatusModule.ts:251-266 | the counts of the logs are those of all but the last, bumped by the last one's grade |
| MicroserviceStatusModule.CountsDebugMarked | starfall-viewer/src/store/modules/MicroserviceStatusModule.ts:253-254 | the debug count is the number of logs holding the debug marker looked for |
| MicroserviceStatusModule.CountsNoOk | starfall-viewer/src/store/modules/MicroserviceStatusModule.ts:244-266 | no log is counted as plain fine |
| MicroserviceStatusModule.CountsAsWrittenNoDebug | starfall-viewer/src/store/modules/MicroserviceStatusModule.ts:253 | as written, the counter looks for the misspelt marker, so logs without it are never counted as debug |
| MicroserviceStatusModule.DebugLineCountedAsInfo | starfall-viewer/src/store/modules/MicroserviceStatusModule.ts:253-265 | as written, a debug line with no other level is counted as info |
| MicroserviceStatusModule.CorrectedCountsDebug | starfall-viewer/src/store/modules/MicroserviceStatusModule.ts:242-269 | with the marker spelt as the logs spell it, every debug line counts as debug and the counts add up to the number of logs |
| MicroserviceStatusModule.ServiceStates | starfall-viewer/src/store/modules/MicroserviceStatusModule.ts:206-213 | one grade per service |
| MicroserviceStatusModule.MicroserviceStatusStore.constructor | starfall-viewer/src/store/modules/MicroserviceStatusModule.ts:42-61 | the viewer is up with no logs and the server is not heard of yet |
| MicroserviceStatusModule.MicroserviceStatusStore.PushViewerLog | starfall-viewer/src/store/modules/MicroserviceStatusModule.ts:169-175 | the viewer's logs get the new log first, cut to the maximum, and its update time is now; nothing else changes |
| MicroserviceStatusModule.MicroserviceStatusStore.SetViewedTimestamp | starfall-viewer/src/store/modules/MicroserviceStatusModule.ts:176-178 | only the viewed time stamp of that entry changes |
| MicroserviceStatusModule.MicroserviceStatusStore.UpdateStatus | starfall-viewer/src/store/modules/MicroserviceStatusModule.ts:179-189 | the list after all the statuses are merged in order |
| MicroserviceStatusModule.MicroserviceStatusStore.Heartbeat | starfall-viewer/src/store/modules/MicroserviceStatusModule.ts:190-195 | the version flag compares the versions and the server entry is up with the heartbeat line and time |
| MicroserviceStatusModule.MicroserviceStatusStore.CheckHeartbeat | starfall-viewer/src/store/modules/MicroserviceStatusModule.ts:196-202 | only the server entry changes, to its checked state |
| MicroserviceStatusModule.MicroserviceStatusStore.MicroserviceStatus | starfall-viewer/src/store/modules/MicroserviceStatusModule.ts:214-224 | a service that did not answer is in error, otherwise it has the worst grade of its logs |
| MicroserviceStatusModule.MicroserviceStatusStore.ChainStatus | starfall-viewer/src/store/modules/MicroserviceStatusModule.ts:206-213 | the worst grade of all the services |
| MicroserviceStatusModule.MicroserviceStatusStore.LogCountsForService | starfall-viewer/src/store/modules/MicroserviceStatusModule.ts:242-269 | the counts of the service's logs, with the debug marker spelt as the logs spell it |
| EventTypes.StateNumber | starfall-common/Types/ProcessingState.ts:23-35 | every processing state's number is below the number of states |
| EventModule.FindEvent | starfall-viewer/src/store/modules/EventModule.ts:244 | the first event with the id, or -1 exactly when no event has it |
| EventModule.SingleEventById | starfall-viewer/src/store/modules/EventModule.ts:336-338 | nothing exactly when no event has the id; otherwise an event of the list with that id |
| EventModule.FindEventAt | starfall-viewer/src/store/modules/EventModule.ts:244 | the first event with the id is what the search finds |
| EventModule.SingleEventIsFirst | starfall-viewer/src/store/modules/EventModule.ts:236-337 | a found event is the first one with its id |
| EventModule.AddUpdate | starfall-viewer/src/store/modules/EventModule.ts:243-249 | a known id keeps the length; a new id goes in front |
| EventModule.AddUpdateFinds | starfall-viewer/src/store/modules/EventModule.ts:243-249 | after the update the event is what its id finds |
| EventModule.AddUpdateKeepsOthers | starfall-viewer/src/store/modules/EventModule.ts:243-249 | every other id finds what it found before |
| EventModule.AddUpdateIdempotent | starfall-viewer/src/store/modules/EventModule.ts:243-249 | updating with the same event twice is updating once |
| EventModule.SpliceOne | starfall-viewer/src/store/modules/EventModule.ts:200 | JavaScript splice of one element: a start in range removes one element, counting a negative start from the end; a start past the end removes nothing |
| EventModule.DeleteMissingRemovesLast | starfall-viewer/src/store/modules/EventModule.ts:194-202 | as written, deleting an id the list does not hold removes the last event |
| EventModule.DeleteEvent | starfall-viewer/src/store/modules/EventModule.ts:194-202 | as intended, a missing id leaves the list as it is and a present one removes exactly one event |
| EventModule.DeleteKeepsOthers | starfall-viewer/src/store/modules/EventModule.ts:194-202 | the deletion keeps every event of another id and adds none |
| EventModule.DeleteRemovesId | starfall-viewer/src/store/modules/EventModule.ts:194-202 | with unique ids the deleted id is gone afterwards |
| EventModule.UnviewedCount | starfall-viewer/src/store/modules/EventModule.ts:340-342 | the count is at most the number of events |
| EventModule.UnviewedCountIsCount | starfall-viewer/src/store/modules/EventModule.ts:340-342 | the count is the number of unviewed events: zero exactly when all were viewed, the length exactly when none was |
| EventModule.UnviewedAfterAddUpdate | starfall-viewer/src/store/modules/EventModule.ts:243-342 | adding a new event counts it when unviewed; replacing one trades the old event's share for the new one's |
| EventModule.UnviewedPrepend | starfall-viewer/src/store/modules/EventModule.ts:248-342 | an event in front adds one when it is unviewed |
| EventModule.UnviewedReplace | starfall-viewer/src/store/modules/EventModule.ts:246-342 | replacing an event trades its share for the new one's |
| EventModule.LoadFilter | starfall-viewer/src/store/modules/EventModule.ts:258-260 | the saved copy at the index, or nothing for an index outside the list |
| EventModule.SaveThenLoad | starfall-viewer/src/store/modules/EventModule.ts:254-260 | loading the newly saved entry gives back the saved filter, and every other index loads as before |
| EventModule.FindPlatform | starfall-viewer/src/store/modules/EventModule.ts:264 | the first platform built with the id, or -1 exactly when there is none |
| EventModule.WithRow | starfall-viewer/src/store/modules/EventModule.ts:273-288 | a missing position is filled from the row, and the row's sensor is added only when its id is new on the platform |
| EventModule.AddPlatformRow | starfall-viewer/src/store/modules/EventModule.ts:263-289 | a row of a known platform keeps the list length; a new platform id is created at the end |
| EventModule.DistinctValues | starfall-viewer/src/store/modules/EventModule.ts:264-271 | the distinct values are the values of the list, each once |
| EventModule.PlatformEntry | starfall-viewer/src/store/modules/EventModule.ts:264 | the platform with the id, or nothing exactly when no platform has the id |
| EventModule.PlatformsFirstSeen | starfall-viewer/src/store/modules/EventModule.ts:261-292 | one platform per platform id of the rows, in the order the ids first appear |
| EventModule.PlatformSensorsFirstSeen | starfall-viewer/src/store/modules/EventModule.ts:278-288 | each platform gets the distinct sensor ids of its rows, in row order |
| EventModule.AddRowOthers | starfall-viewer/src/store/modules/EventModule.ts:263-289 | a row leaves every other platform alone |
| EventModule.AddRowUpdates | starfall-viewer/src/store/modules/EventModule.ts:264-288 | a row of a known platform applies to that platform |
| EventModule.AddRowCreates | starfall-viewer/src/store/modules/EventModule.ts:265-271 | the first row of a platform creates it from the row and applies the row |
| EventModule.EntryOfPlatforms | starfall-viewer/src/store/modules/EventModule.ts:261-292 | each platform is what the rows of that platform alone give it |
| EventModule.EntryOfHas | starfall-viewer/src/store/modules/EventModule.ts:261-292 | the rows give a platform to every platform id they hold |
| EventModule.SensorNewAtFirstRow | starfall-viewer/src/store/modules/EventModule.ts:285-288 | the sensor of the first row with that sensor on that platform is not yet on the platform |
| EventModule.EntryKeeps | starfall-viewer/src/store/modules/EventModule.ts:264-288 | later rows keep a platform's name, earth-centred position and sensors so far |
| EventModule.FirstRowNames | starfall-viewer/src/store/modules/EventModule.ts:265-271 | the first row of a platform gives the platform its name and earth-centred position |
| EventModule.FirstRowSensor | starfall-viewer/src/store/modules/EventModule.ts:278-288 | the first row of a sensor on a platform gives the sensor entry the platform keeps |
| EventModule.PlatformLocated | starfall-viewer/src/store/modules/EventModule.ts:269-276 | a platform has a geodetic position exactly when one of its rows has a position |
| EventModule.GroupPlatforms | starfall-viewer/src/store/modules/EventModule.ts:261-292 | the loop groups the rows into platforms, row by row |
| EventModule.AddRowInPlace | starfall-viewer/src/store/modules/EventModule.ts:263-289 | one pass of the loop updates the row's platform as the step specification says |
| EventModule.EventStore.constructor | starfall-viewer/src/store/modules/EventModule.ts:85-101 | no events, nothing selected, the default filter, nothing saved, no history or platforms, nothing hovered, the list view |
| EventModule.EventStore.SetSelectedEvent | starfall-viewer/src/store/modules/EventModule.ts:235-242 | the event with the id becomes the selected summary; an unknown id changes nothing |
| EventModule.EventStore.AddUpdateEventSummary | starfall-viewer/src/store/modules/EventModule.ts:243-253 | the event is added or updated and replaces the selected summary of the same id; nothing else changes |
| EventModule.EventStore.SaveEventFilter | starfall-viewer/src/store/modules/EventModule.ts:254-257 | as intended, a copy of the current filter is appended under the name given; nothing else changes |
| EventModule.EventStore.SaveEventFilterAsWritten | starfall-viewer/src/store/modules/EventModule.ts:254-257 | as written, the copy appended keeps the name the current filter carries and takes the name given only when it carries none |
| EventModule.SpreadName | starfall-viewer/src/store/modules/EventModule.ts:255 | the spread object's own name wins over the name written before it |
| EventModule.EventStore.LoadEventFilter | starfall-viewer/src/store/modules/EventModule.ts:258-260 | the filter becomes the saved copy at the index and carries its saved name; an index outside the list leaves no filter and no name |
| EventModule.LoadedName | starfall-viewer/src/store/modules/EventModule.ts:259 | the name the loaded copy carries, or none outside the list |
| EventModule.EventStore.SetEventFilter | starfall-viewer/src/store/modules/EventModule.ts:220-222 | the filter given becomes the current one and carries no saved name; nothing else changes |
| EventModule.SaveAfterLoadKeepsName | starfall-viewer/src/store/modules/EventModule.ts:254-260 | as written, SAVE("a"), LOAD(0), SAVE("b") on a new store saves two entries both named "a" |
| EventModule.SaveAfterLoadUsesNewName | starfall-viewer/src/store/modules/EventModule.ts:254-260 | as intended, the same steps save entries named "a" and "b" |
| EventModule.EventStore.SetEventPlatforms | starfall-viewer/src/store/modules/EventModule.ts:261-292 | the platforms become the rows grouped by platform id |
| EventModule.EventStore.ClearSelectedEvent | starfall-viewer/src/store/modules/EventModule.ts:190-193 | no details, no selected summary, no history and no platforms; the rest is unchanged (also lines 296-303) |
| EventModule.EventStore.ShowAllEvents | starfall-viewer/src/store/modules/EventModule.ts:171-176 | the selection is cleared, no point source, nothing hovered, the list view |
| EventModule.EventStore.SelectEvent | starfall-viewer/src/store/modules/EventModule.ts:186-189 | the selection is cleared and the event with the id selected |
| EventModule.EventStore.DeleteEventAction | starfall-viewer/src/store/modules/EventModule.ts:194-202 | as intended, a known id's first event is removed and all events are shown; an unknown id changes nothing |
| EventModule.EventStore.Unviewed | starfall-viewer/src/store/modules/EventModule.ts:340-342 | the number of unviewed events |
| SettingsModule.FindEntry | starfall-viewer/src/store/modules/SettingsModule.ts:216 | the index of the first entry with the id, or -1 exactly when no entry has it |
| SettingsModule.FindValue | starfall-viewer/src/store/modules/SettingsModule.ts:214-224 | the getters give nothing exactly when no entry has the id, and otherwise the setting of the first entry with it |
| SettingsModule.FindAfterPush | starfall-viewer/src/store/modules/SettingsModule.ts:168-224 | after a push an id the list already had still finds its old setting; only a new id finds the pushed one |
| SettingsModule.ReplaceById | starfall-viewer/src/store/modules/SettingsModule.ts:171-172 | same ids in the same order; every entry with the payload's id becomes the payload, the others stay |
| SettingsModule.FindAfterReplace | starfall-viewer/src/store/modules/SettingsModule.ts:171-224 | after a set the payload's id finds the payload when the list had it, and every other id finds what it found before |
| SettingsModule.ReplaceIdempotent | starfall-viewer/src/store/modules/SettingsModule.ts:171-172 | setting the same payload twice is setting it once |
| SettingsModule.ResetLines | starfall-viewer/src/store/modules/SettingsModule.ts:189-190 | same ids; every line flag is on |
| SettingsModule.FindAfterReset | starfall-viewer/src/store/modules/SettingsModule.ts:189-223 | after the reset a sensor with a line entry finds true, one without still finds nothing |
| SettingsModule.ResetIdempotent | starfall-viewer/src/store/modules/SettingsModule.ts:189-190 | resetting twice is resetting once |
| SettingsModule.SettingsStore.constructor | starfall-viewer/src/store/modules/SettingsModule.ts:71-78 | the three sensor lists start empty |
| SettingsModule.SettingsStore.PushSensorColor | starfall-viewer/src/store/modules/SettingsModule.ts:168-170 | the colour entry is appended; the other lists are unchanged |
| SettingsModule.SettingsStore.SetSensorColor | starfall-viewer/src/store/modules/SettingsModule.ts:171-174 | the colour list is replaced by id; the other lists are unchanged |
| SettingsModule.SettingsStore.PushSensorPointShape | starfall-viewer/src/store/modules/SettingsModule.ts:175-177 | the shape entry is appended; the other lists are unchanged |
| SettingsModule.SettingsStore.SetSensorPointShape | starfall-viewer/src/store/modules/SettingsModule.ts:178-181 | the shape list is replaced by id; the other lists are unchanged |
| SettingsModule.SettingsStore.PushSensorLine | starfall-viewer/src/store/modules/SettingsModule.ts:182-184 | the line entry is appended; the other lists are unchanged |
| SettingsModule.SettingsStore.SetSensorLine | starfall-viewer/src/store/modules/SettingsModule.ts:185-188 | the line list is replaced by id; the other lists are unchanged |
| SettingsModule.SettingsStore.ResetSensorLine | starfall-viewer/src/store/modules/SettingsModule.ts:189-192 | every line flag is turned on; the other lists are unchanged |
| ColorGenerator.HexValue | starfall-viewer/src/components/Cesium/CesiumDrawingHandlers/ColorGenerator.ts:94 | a hexadecimal digit of either case has a value below 16 |
| ColorGenerator.HexChar | starfall-viewer/src/components/Cesium/CesiumDrawingHandlers/ColorGenerator.ts:30-32 | a value below 16 is written as one lowercase digit that reads back to the value |
| ColorGenerator.NatToHex | starfall-viewer/src/components/Cesium/CesiumDrawingHandlers/ColorGenerator.ts:30-32 | lowercase digits, at least one; a single digit exactly below 16, three or more from 256 on |
| ColorGenerator.ToHex | starfall-viewer/src/components/Cesium/CesiumDrawingHandlers/ColorGenerator.ts:30-32 | a non-negative number is written as its digits alone |
| ColorGenerator.ChannelHex | starfall-viewer/src/components/Cesium/CesiumDrawingHandlers/ColorGenerator.ts:30-41 | a channel is written with at least two characters |
| ColorGenerator.ChannelDigits | starfall-viewer/src/components/Cesium/CesiumDrawingHandlers/ColorGenerator.ts:30-41 | a channel from 0 to 255 is its high digit then its low digit |
| ColorGenerator.RGBToHex | starfall-viewer/src/components/Cesium/CesiumDrawingHandlers/ColorGenerator.ts:29-43 | the colour string starts with '#' and has at least seven characters |
| ColorGenerator.ChannelPair | starfall-viewer/src/components/Cesium/CesiumDrawingHandlers/ColorGenerator.ts:30-94 | a channel from 0 to 255 is two lowercase digits that read back to it |
| ColorGenerator.PairChannel | starfall-viewer/src/components/Cesium/CesiumDrawingHandlers/ColorGenerator.ts:30-94 | two lowercase digits are the text written for their value |
| ColorGenerator.ReadPairs | starfall-viewer/src/components/Cesium/CesiumDrawingHandlers/ColorGenerator.ts:93-94 | '#' and three lowercase pairs is a seven-character string whose pairs read one after the other |
| ColorGenerator.RGBToHexFormat | starfall-viewer/src/components/Cesium/CesiumDrawingHandlers/ColorGenerator.ts:29-43 | channels from 0 to 255 give '#' and six lowercase hexadecimal digits |
| ColorGenerator.PairValue | starfall-viewer/src/components/Cesium/CesiumDrawingHandlers/ColorGenerator.ts:94 | two hexadecimal digits read as a number from 0 to 255 |
| ColorGenerator.HextoRGB | starfall-viewer/src/components/Cesium/CesiumDrawingHandlers/ColorGenerator.ts:92-95 | a colour exactly for six hexadecimal digits with or without a leading '#', each channel from 0 to 255; nothing otherwise |
| ColorGenerator.HexRoundTrip | starfall-viewer/src/components/Cesium/CesiumDrawingHandlers/ColorGenerator.ts:29-95 | reading back the string written for channels from 0 to 255 gives the channels |
| ColorGenerator.WideChannelRejected | starfall-viewer/src/components/Cesium/CesiumDrawingHandlers/ColorGenerator.ts:29-95 | a channel above 255 makes the written string unreadable |
| ColorGenerator.RGBToHexOfRead | starfall-viewer/src/components/Cesium/CesiumDrawingHandlers/ColorGenerator.ts:29-95 | writing the channels read from a lowercase colour string gives the string back |
| ColorGenerator.LowerHexChar | starfall-viewer/src/components/Cesium/CesiumDrawingHandlers/ColorGenerator.ts:30-32 | a lowercase digit is the character written for its value |
| ColorGenerator.JsRem6 | starfall-viewer/src/components/Cesium/CesiumDrawingHandlers/ColorGenerator.ts:54 | the JavaScript remainder by 6 lies strictly between -6 and 6, is the ordinary one for a non-negative number and is never positive for a negative one |
| ColorGenerator.NonNegProduct | starfall-viewer/src/components/Cesium/CesiumDrawingHandlers/ColorGenerator.ts:48-50 | the product of two non-negative numbers is non-negative |
| ColorGenerator.ScaledUnit | starfall-viewer/src/components/Cesium/CesiumDrawingHandlers/ColorGenerator.ts:48-50 | a number times a fraction lies between 0 and the number |
| ColorGenerator.ShadesBounded | starfall-viewer/src/components/Cesium/CesiumDrawingHandlers/ColorGenerator.ts:46-50 | for a fraction of the sector, saturation and value between 0 and 1, every shade lies between 0 and the value |
| ColorGenerator.ChannelsBounded | starfall-viewer/src/components/Cesium/CesiumDrawingHandlers/ColorGenerator.ts:45-84 | for saturation and value between 0 and 1 every unrounded channel lies between 0 and the value, and one of them is the value, whatever the hue |
| ColorGenerator.RoundUnit | starfall-viewer/src/components/Cesium/CesiumDrawingHandlers/ColorGenerator.ts:85-89 | a fraction on the 0 to 255 scale rounds into 0 to 255 |
| ColorGenerator.HSVtoRGBInRange | starfall-viewer/src/components/Cesium/CesiumDrawingHandlers/ColorGenerator.ts:29-95 | for saturation and value between 0 and 1 the channels lie in 0 to 255, one of them the rounded value, and the colour string reads back to them |
| ColorGenerator.HuePeriodic | starfall-viewer/src/components/Cesium/CesiumDrawingHandlers/ColorGenerator.ts:46-54 | for a non-negative hue the sector is the floor of six times the hue modulo 6, and the colour repeats with period 1 in the hue |
| ColorGenerator.GeneratedColorWellFormed | starfall-viewer/src/components/Cesium/CesiumDrawingHandlers/ColorGenerator.ts:22-27 | every generated colour string is '#' and six lowercase hexadecimal digits, and reads back to the HSV colour it came from |
| DataBaseHandler.StateFilters | starfall-server/src/Messaging/Handlers/DataBaseHandler.ts:58-66 | exactly the numbers of the states whose flag is set, each below the number of flags, in increasing order |
| DataBaseHandler.Candidates | starfall-server/src/Messaging/Handlers/DataBaseHandler.ts:84-88 | four candidates, energy, date, state and unviewed, in that order |
| DataBaseHandler.Enabled | starfall-server/src/Messaging/Handlers/DataBaseHandler.ts:89 | the applying clauses are at most as many as the candidates |
| DataBaseHandler.EnabledRanks | starfall-server/src/Messaging/Handlers/DataBaseHandler.ts:89 | a clause of a kind applies exactly when some candidate of that kind is enabled |
| DataBaseHandler.PartsEnabled | starfall-server/src/Messaging/Handlers/DataBaseHandler.ts:84-89 | energy, date and unviewed apply exactly when enabled; the state clause exactly when enabled and some state flag is set |
| DataBaseHandler.CandidateRank | starfall-server/src/Messaging/Handlers/DataBaseHandler.ts:84-89 | with the candidates in their order, a kind applies exactly when its own candidate is enabled |
| DataBaseHandler.EnabledOrdered | starfall-server/src/Messaging/Handlers/DataBaseHandler.ts:89 | filtering keeps the candidates' order |
| DataBaseHandler.EnabledMembers | starfall-server/src/Messaging/Handlers/DataBaseHandler.ts:89 | every applying clause is one of the candidates |
| DataBaseHandler.PartsOrdered | starfall-server/src/Messaging/Handlers/DataBaseHandler.ts:84-89 | the clauses follow the order energy, date, state, unviewed |
| DataBaseHandler.PartsOfFilter | starfall-server/src/Messaging/Handlers/DataBaseHandler.ts:81-88 | every applying clause is built from the filter: range parameters are its own bounds, and the state clause tests the states whose flag is set |
| DataBaseHandler.FlattenConcat | starfall-server/src/Messaging/Handlers/DataBaseHandler.ts:91-96 | the parameters of two lists of clauses are the first list's then the second's |
| DataBaseHandler.FlattenPairs | starfall-server/src/Messaging/Handlers/DataBaseHandler.ts:91-96 | clauses of two parameters each give twice as many parameters |
| DataBaseHandler.FlattenAt | starfall-server/src/Messaging/Handlers/DataBaseHandler.ts:91-100 | when the two-parameter clauses come first, the parameters of the clause at an index sit at twice the index and the next place |
| DataBaseHandler.PlaceholdersMatchBounds | starfall-server/src/Messaging/Handlers/DataBaseHandler.ts:81-100 | the placeholders of each range clause name the parameters holding that clause's own lower and upper bound |
| DataBaseHandler.EventsColumn | starfall-server/src/Messaging/Handlers/DataBaseHandler.ts:69-79 | a column is named with the schema and table in front |
| DataBaseHandler.Between | starfall-server/src/Messaging/Handlers/DataBaseHandler.ts:76-78 | a range test starts with its column and ends with its placeholder number |
| DataBaseHandler.StateTests | starfall-server/src/Messaging/Handlers/DataBaseHandler.ts:69 | one test per state |
| DataBaseHandler.StatesClause | starfall-server/src/Messaging/Handlers/DataBaseHandler.ts:68-74 | the state clause is in brackets |
| DataBaseHandler.UnviewedClause | starfall-server/src/Messaging/Handlers/DataBaseHandler.ts:79 | the unviewed clause tests the user-viewed column |
| DataBaseHandler.Core | starfall-server/src/Messaging/Handlers/DataBaseHandler.ts:68-79 | every clause, without its blanks, starts and ends with something other than white space |
| DataBaseHandler.Numbered | starfall-server/src/Messaging/Handlers/DataBaseHandler.ts:100 | the clause at an index is given the placeholders twice the index plus one and plus two |
| DataBaseHandler.NumberedAgree | starfall-server/src/Messaging/Handlers/DataBaseHandler.ts:100 | clause functions that agree give the same texts |
| DataBaseHandler.Trimmed | starfall-server/src/Messaging/Handlers/DataBaseHandler.ts:102 | trimming keeps one text per clause |
| DataBaseHandler.NonEmpty | starfall-server/src/Messaging/Handlers/DataBaseHandler.ts:104 | dropping the empty texts leaves no more texts than before |
| DataBaseHandler.TrimPadded | starfall-server/src/Messaging/Handlers/DataBaseHandler.ts:102 | trimming a clause with one blank on either side gives the clause back |
| DataBaseHandler.NonEmptyKeeps | starfall-server/src/Messaging/Handlers/DataBaseHandler.ts:104 | a list without empty texts is kept as it is |
| DataBaseHandler.Clauses | starfall-server/src/Messaging/Handlers/DataBaseHandler.ts:98-104 | one clause per part and none of them empty |
| DataBaseHandler.TrimmedClauses | starfall-server/src/Messaging/Handlers/DataBaseHandler.ts:98-104 | trimming and dropping the empty texts leaves exactly the clauses without their blanks |
| DataBaseHandler.TrimmedIsClauses | starfall-server/src/Messaging/Handlers/DataBaseHandler.ts:100-102 | trimming gives the clauses without their blanks |
| DataBaseHandler.TrimmedClause | starfall-server/src/Messaging/Handlers/DataBaseHandler.ts:100-102 | one clause trimmed is the clause without its blanks |
| DataBaseHandler.FilterQueryText | starfall-server/src/Messaging/Handlers/DataBaseHandler.ts:98-109 | with some clause applying, the query is the WHERE head, the clauses joined with AND in the fixed order, and the clauses' parameters in the same order |
| DataBaseHandler.FilterQueryDefault | starfall-server/src/Messaging/Handlers/DataBaseHandler.ts:46-109 | the query is the default one exactly when no clause applies |
| DataBaseHandler.DefaultFilterQuery | starfall-server/src/Messaging/Handlers/DataBaseHandler.ts:46-109 | the viewer's default filter selects every event |
| DataBaseHandler.PagingPlaceholders | starfall-server/src/Messaging/Handlers/DataBaseHandler.ts:56 | the page-size and offset placeholders come right after the filter's, the filter's parameters keep their numbers, and the offset is the number of events on the earlier pages (also lines 203-205) |
| DataBaseHandler.SelectedTags | starfall-server/src/Messaging/Handlers/DataBaseHandler.ts:268-275 | failed or no-solution events show the GLM and outlier point sources; every other state shows the accepted ones |
| DataBaseHandler.GroupPlatforms | starfall-server/src/Messaging/Handlers/DataBaseHandler.ts:533-547 | the loop groups the rows by platform, row by row |
| DataBaseHandler.GroupRowsPlatforms | starfall-server/src/Messaging/Handlers/DataBaseHandler.ts:533-547 | one entry per platform of the rows, with one sensor per sensor of its rows, each keyed by its own id |
| DataBaseHandler.GroupRowsFirstName | starfall-server/src/Messaging/Handlers/DataBaseHandler.ts:535-541 | a platform keeps the name of its first row |
| DataBaseHandler.GroupRowsLastSensor | starfall-server/src/Messaging/Handlers/DataBaseHandler.ts:542-546 | a sensor entry is the last row of that platform and sensor |

## Left out

- netCDF loading, and the file walk of `load_glm_files` and `load_glm_data_at_time`: the model starts from the arrays they fill.
- Glob, file deletion and gcloud listings are function parameters or left out; `get_latest_list_from_gcloud` and `get_file_list_from_gcloud` are not modelled.
- `ecef2geodetic`, `adjusted_lat_lon_to_ecef` and `find_pierce_point_at_alt` are function parameters, because they need trigonometry and square roots.
- The arcsin test for parallel lines of sight and the cosine of the rough longitude box are also parameters.
- The classifier pipeline is one `classify` parameter: down-sampling, z-scores and the model. It uses floats, randomness and a learned model.
- `compute_source_intensities` is not modelled; the calibrated-energy lookup and the scaling are.
- `select_cal_tables`, `within_cluster_calibration`, `group_calibration`, `prune_calibration_tables` and the calibration orchestration are not modelled.
- `write_trigger_data`, `publish_cluster_over_zmq` and `get_cluster_group_event_data` are not modelled: files, messaging and the database.
- The debug prints and plots are left out: `omit_large_group_size_clusters` at glm_data_set.py lines 1542-1577, and `plot_pairs` at 2664-2672.
- The debug log messages of `status_helper.send_logs` are left out.
- `debug_print` is modelled as a log of output lines, not as printing.
- The filters change the `cluster_ids` argument they are passed in place. The model returns a new list, so it does not capture that aliasing.
- ArrayOps.ArgSort is a stable sort, while numpy's default quicksort may order ties differently; the model fixes the stable order.
- Ranks are natural numbers in the model; the source stores them as floats.
- The rocket probabilities are keyed by string ids in the source; the model keeps pairs of id and probability.
- GlmVelocity.StereoLosData: the guard at glm_data_set.py line 2545 can never fire, so the model has no branch for it.
- GlmClustering.ClusterGlmData runs the corrected skip rule, which skips the neighbour search for the last detection in time. The source (glm_data_set.py lines 1229-1230 and 1246-1247) skips the largest array index; that rule is modelled by GlmClustering.ClusterLabels with the `LargestIndex` skip rule and shown wrong in the Findings.
- GlmDataSetModel.GlmDataSet.ClusterGlmData likewise runs the corrected last-in-time skip, not the source's largest-index skip.
- GlmStereo.Estimate gives no estimate when the chosen pair names one satellite twice (two of its lines of sight are not parallel). In the source the second track then stays `None`, and the time match of `mark_low_atl_clusters` raises a TypeError.
- GlmDataSetHelpers.MarkClustered does not state the stereo locations the low-altitude step stores; GlmDataSetModel.GlmDataSet.MarkLowAltitudeStereoEvents states them for that step.
- GlmDataSetHelpers.MarkClusters and GlmDataSetHelpers.MarkAndRank do not state the stored stereo locations either, for the same reason.
- GlmDataSetHelpers.SelectAndPrune does not state the velocities and rocket probabilities it records; GlmDataSetModel.GlmDataSet.EstimateVelocities and GlmDataSetHelpers.SelectTriggers state them.
- GlmDataSetHelpers.ProcessLoaded and GlmDataSetHelpers.ProcessGlmFiles do not state the stored locations, velocities and rocket probabilities; the step members above state each of them.
- GeoHelpers.Dist3dSegmentToSegment returns the squared distance, and callers compare it with the squared limit. The square root is not modelled.
- VelocityHelpers.AssociateLosVectors requires at least one sample of the satellite with more samples. Its callers only pair satellites that both have detections.
- FileIoHelpers, GcloudHelpers and RocketMissingPng.ParseFilename read digit fields as ASCII digit runs (FileIoHelpers.ParseDigits and Text.AllDigits). Python's `\d` also matches other Unicode decimal digits, and `int()` also accepts surrounding whitespace, a leading sign and single underscores between digits; the model refuses those.
- GlmEvents.LookupValue: the contract does not mention the nearest cell itself; GlmEvents.LookupValueReads states it.
- The database, the message broker and the timers of the server are not modelled. The handlers are modelled as the values they compute from a request.
- StatusTypes.LogState is modelled from its uses: debug, info, warning, error and OK. Its definition file is not part of this model.
- JavaScript puts integer-like object keys first. The model keeps keys in insertion order, and does not model the `__proto__` key.
- The ConfigParser file read (ConfigParser.ts lines 84-87) and the lexer's `yylineno` are not modelled.
- The sample configuration of the ConfigParser tests is not restated as one concrete instance; the single-feature test cases are.
- `parseInt` precision for long digit runs is not modelled; the numbers are unbounded integers.
- EventModule: the state-filter flags are modelled as a list of booleans.
- Platform.ts and Sensor.ts are not part of this model. Platforms are records with a name, two positions and their sensors.
- The other EventModule mutations are not modelled: the hover, view and history setters, and the point-source setters.
- The details of a sighting are not modelled.
- The SettingsModule toggles, the numeric setters and INIT/RESET are not modelled. They assign one field each or copy the default state (RESET aliases the default lists).
- `localStorage` writes are left out.
- EventModule.EventStore.SaveEventFilter is the corrected save: it always uses the name given. The as-written save, which keeps a loaded filter's name, is EventModule.EventStore.SaveEventFilterAsWritten.
- MicroserviceStatusModule.MicroserviceStatusStore.UpdateStatus copies statuses by value. The source pushes the same objects it was given, and that aliasing is not modelled.
- ColorGenerator: Cesium's `Color.fromCssColorString` and `withAlpha` are left out; the model stops at the colour string.
- ColorGenerator.ToHex states nothing about `toString(16)` of a non-integer number.

## Findings

| source | as written | input that shows it | evidently intended | confidence | as-written member | corrected member |
|---|---|---|---|---|---|---|
| glmtriggergen/src/helper_funs/geo_helpers.py:339-340 | the longitude is shifted by the upper bound and then by the lower bound, so it moves by twice the upper bound modulo 360 | upper bound 90 and longitude 0 give -180 | a longitude in the window with the same value modulo 360 | not executed; callers pass 0 and 180, for which both agree | GeoHelpers.WrapLongitudesAsWrittenCounterexample | GeoHelpers.WrapLongitudes |
| glmtriggergen/src/glm_data_set.py:1229-1248 | the detection that skips the neighbour search is the largest entry of the time order, always the last array index | two linked detections at one place stored with times 1.0 then 0.0 end in two clusters | skip the detection that comes last in time | not executed | GlmClustering.LargestIndexSplitsLinkedPair | GlmClustering.ClusterTogether |
| starfall-viewer/src/store/modules/EventModule.ts:194-202 | `findIndex` gives -1 for a missing id, the undefined guard never fires, and `splice(-1, 1)` removes the last event | deleting an unknown id from a non-empty list | leave the list unchanged for an unknown id | not executed | EventModule.DeleteMissingRemovesLast | EventModule.DeleteEvent |
| starfall-viewer/src/store/modules/MicroserviceStatusModule.ts:253 | the debug count looks for `(degug)`, so a debug line falls through to the info count | a log line holding `(debug)` and no other level marker is counted as info | count lines holding `(debug)` as debug | not executed | MicroserviceStatusModule.DebugLineCountedAsInfo | MicroserviceStatusModule.CorrectedCountsDebug |
| starfall-viewer/src/store/modules/EventModule.ts:254-260 | LOAD_EVENT_FILTER clones the saved object with its `name`, and SAVE_EVENT_FILTER writes `{ name, ...clone }`, so the clone's name overrides the one given | SAVE("a"), LOAD(0), SAVE("b") saves a second filter named "a" | save the copy under the name given | not executed | EventModule.SaveAfterLoadKeepsName | EventModule.SaveAfterLoadUsesNewName |
