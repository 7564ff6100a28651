# Audio visualizer shapes, modelled in Dafny

This project models the core of the Android audio-visualizer library. A
visualizer view holds a buffer of signed audio bytes, which is a waveform or
FFT frame handed over by the host or by a platform capture. On every frame
one of six shapes turns the buffer into drawing commands:

- **Bar**: vertical bars that tween between batches of targets.
- **Wave**: a smooth curve through N + 1 knots, tweened the same way.
- **Blob**: a closed Bézier spline whose knots step towards a ring.
- **Blast**: a closed polygon of spikes around a ring.
- **HiFi**: two mirrored rings of cubic arcs.
- **CircleLine**: dots, rays and bars around a ring.

All shapes share a base class with these parts:

- the configuration: density, paint style, gravity, animation speed, stroke width, buffer and enabled flag;
- its XML attribute parsing;
- show and hide;
- the setters.

Blob uses a Bézier-spline helper. It solves the tridiagonal system for the first control points of an open spline with natural end conditions.

Modules follow the source files:

- `AVConstants`: the library constants, `TruncToInt` and `PointCount`.
- `BaseVisualizer` (imported as `Base`): the base class.
- `BezierSpline`: the spline helper.
- `Bar`, `Wave`, `Blob`, `Blast`, `HiFi`, `CircleLine`: one module per shape.

Five helper modules hold logic that the shapes share:

- `Outcome`: Kotlin exceptions modelled as `Result`/`Fault` values.
- `Geometry`: points, polar points, path commands and rectangles.
- `Sampling`: which buffer index a slot reads, and the three magnitude formulas.
- `Tween`: the batch counter and interpolation used by Bar and Wave.
- `Ring`: the angle loop and the ring radii of the circular shapes.

`Gallery` relates the shapes to each other at the defaults.

Exceptions become results:

- An array read at an index in `[len, 1024)` is `Err(IndexOutOfRange)`. Indices of 1024 or more are never read, because the source tests them against 1024 first.
- `0 until 360 step 0` is `Err(IllegalArgument)`.
- A spline with fewer than two knots is `Err(IllegalArgument)`.
- An array of negative size is `Err(NegativeArraySize)`.

Floats are `real`. `Float.toInt()` is `TruncToInt`, which truncates toward zero and saturates at the 32-bit limits. `ceil(x * (len.toFloat() / n))` is the exact ceiling `CeilDiv`.

The circular shapes emit polar points `(radius, degrees)` relative to the view centre. Sine and cosine are left abstract, so every radius and angle stays exact. HiFi and CircleLine subtract the sine in the source, so they turn counter-clockwise on screen; their angles are recorded negated.

Details of the code the model keeps:

- The tween counter is incremented *before* the interpolation fraction is computed. The fraction of the first frame of a batch is therefore 1/maxBatch, and the last frame shows the destination exactly.
- The random destination is copied into the last slot *after* the fresh targets are written.
- The point count has no upper clamp. `PointCount` is at most the maximum only for densities in [0, 1].
- HiFi and CircleLine store *negated* heights. HiFi's "outward" ring runs at radius R + h ≤ R, and CircleLine's bars point inward from the ring.

## Model

| member | source | states |
|---|---|---|
| AVConstants.TruncToInt | audiovisualizer/src/main/kotlin/com/gauravk/audiovisualizer/visualizer/BarVisualizer.kt:59 | `Float.toInt()`: in the 32-bit range; inside it, truncation toward zero (floor for non-negative, ceiling for non-positive); saturates beyond it |
| AVConstants.PointCount | audiovisualizer/src/main/kotlin/com/gauravk/audiovisualizer/visualizer/BarVisualizer.kt:59-62 | the point count is never below the minimum; it is at most the maximum for densities in [0,1]; it equals the maximum at density 1 and the minimum when max·density is below it; otherwise it is the floor of max·density |
| AVConstants.FractionTruncAtMost | audiovisualizer/src/main/kotlin/com/gauravk/audiovisualizer/visualizer/BarVisualizer.kt:59 | truncating m·d for d in [0,1] never exceeds m |
| Sampling.CeilDiv | audiovisualizer/src/main/kotlin/com/gauravk/audiovisualizer/visualizer/BarVisualizer.kt:107 | `ceil` of an exact quotient: the least q with a ≤ q·d |
| Sampling.ProbeAt | audiovisualizer/src/main/kotlin/com/gauravk/audiovisualizer/visualizer/BarVisualizer.kt:109-111 | an index of 1024 or more is never read; below 1024, a read past the end is the out-of-range case; otherwise it yields the byte |
| Sampling.Magnitude | audiovisualizer/src/main/kotlin/com/gauravk/audiovisualizer/visualizer/BarVisualizer.kt:109-111 | the three magnitude formulas keep their bands: Bar/Wave in [2h, 3h], Blob/Blast in [0, h/4], HiFi/CircleLine in [R, 2R] |
| Sampling.Window | audiovisualizer/src/main/kotlin/com/gauravk/audiovisualizer/visualizer/BarVisualizer.kt:104-125 | reading N slots succeeds exactly when no slot reads past the end below 1024; slot i then holds the level of the byte at its ceiling index |
| Sampling.MagnitudeMonotone | audiovisualizer/src/main/kotlin/com/gauravk/audiovisualizer/visualizer/BlastVisualizer.kt:77-80 | a louder byte gives a larger magnitude for the growing formulas and a smaller one for the inset formula |
| Sampling.IndexAtMostLen | audiovisualizer/src/main/kotlin/com/gauravk/audiovisualizer/visualizer/BarVisualizer.kt:107 | the index `ceil((i+1)·len/N)` never exceeds len, and the last slot reads exactly index len |
| Sampling.BlastIndexBound | audiovisualizer/src/main/kotlin/com/gauravk/audiovisualizer/visualizer/BlastVisualizer.kt:76 | the Blast index `ceil(i·len/N)` is at most len − len/N, and below len when len ≥ N |
| Sampling.BlastLastIndex | audiovisualizer/src/main/kotlin/com/gauravk/audiovisualizer/visualizer/BlastVisualizer.kt:76 | when len < N the last spike reads exactly index len |
| Sampling.WindowOkIff | audiovisualizer/src/main/kotlin/com/gauravk/audiovisualizer/visualizer/BarVisualizer.kt:104-111 | a batch-start read of N slots succeeds if and only if the buffer holds at least 1024 bytes |
| Sampling.BlastWindowOkIff | audiovisualizer/src/main/kotlin/com/gauravk/audiovisualizer/visualizer/BlastVisualizer.kt:75-80 | a Blast frame reads successfully if and only if the buffer holds at least N or at least 1024 bytes |
| Sampling.GuardedWindow | audiovisualizer/src/main/kotlin/com/gauravk/audiovisualizer/visualizer/BarVisualizer.kt:109-111 | with a length guard, every slot is defined: a sample inside both the buffer and the horizon gives its magnitude, anything else 0 |
| Sampling.GuardedWindowAgrees | audiovisualizer/src/main/kotlin/com/gauravk/audiovisualizer/visualizer/BarVisualizer.kt:104-111 | wherever the unguarded read succeeds, the guarded read gives the same levels |
| Ring.Radius | audiovisualizer/src/main/kotlin/com/gauravk/audiovisualizer/visualizer/BlastVisualizer.kt:60-63 | the Blob/Blast ring radius lies in [0, side/2] and is the floor of 0.325·side |
| Ring.HalvedRadius | audiovisualizer/src/main/kotlin/com/gauravk/audiovisualizer/visualizer/HiFiVisualizer.kt:81 | the HiFi radius lies in [0, side/2] and is the floor of 0.65·(side div 2) |
| Ring.RadiiAgreeOnEvenSide | audiovisualizer/src/main/kotlin/com/gauravk/audiovisualizer/visualizer/HiFiVisualizer.kt:81 | the two radius formulas agree on an even side |
| Ring.RadiiDifferOnOddSide | audiovisualizer/src/main/kotlin/com/gauravk/audiovisualizer/visualizer/HiFiVisualizer.kt:81 | on a 7×7 view they differ (2 against 1) |
| Ring.StepZeroIff | audiovisualizer/src/main/kotlin/com/gauravk/audiovisualizer/visualizer/HiFiVisualizer.kt:99 | the step `360 / P` is zero, so the loop is rejected, exactly when P exceeds 360 |
| Ring.Iterations | audiovisualizer/src/main/kotlin/com/gauravk/audiovisualizer/visualizer/HiFiVisualizer.kt:99 | `0 until 360 step s` makes at least one iteration |
| Ring.SlotInRange | audiovisualizer/src/main/kotlin/com/gauravk/audiovisualizer/visualizer/HiFiVisualizer.kt:99-100 | every visited angle is below 360, so the slot `i·P/360` it reads is below P |
| Ring.DividingVisitsEachSlot | audiovisualizer/src/main/kotlin/com/gauravk/audiovisualizer/visualizer/CircleLineVisualizer.kt:95-97 | when P divides 360 the loop runs exactly P times and iteration k reads slot k |
| Ring.NonDividingRevisitsSlotZero | audiovisualizer/src/main/kotlin/com/gauravk/audiovisualizer/visualizer/HiFiVisualizer.kt:99-100 | when 2 ≤ P ≤ 360 and P does not divide 360, the second iteration reads slot 0 again |
| Tween.MaxBatch | audiovisualizer/src/main/kotlin/com/gauravk/audiovisualizer/visualizer/BarVisualizer.kt:73-76 | frames per batch lie between 2 and MAX_ANIM_BATCH_COUNT |
| Tween.FasterMeansShorterBatch | audiovisualizer/src/main/kotlin/com/gauravk/audiovisualizer/visualizer/BarVisualizer.kt:73-76 | a later speed ordinal means strictly fewer frames per batch, in both directions |
| Tween.Restart | audiovisualizer/src/main/kotlin/com/gauravk/audiovisualizer/visualizer/BarVisualizer.kt:104-125 | a batch start moves the old destinations to the sources, takes fresh targets, and copies the randomly chosen old destination into the last slot |
| Tween.Advance | audiovisualizer/src/main/kotlin/com/gauravk/audiovisualizer/visualizer/BarVisualizer.kt:128-140 | a frame increments the counter before interpolating and wraps it to 0 exactly when it reaches maxBatch; it shows `Lerp(src, dest, count/maxBatch)` |
| Tween.Frame | audiovisualizer/src/main/kotlin/com/gauravk/audiovisualizer/visualizer/BarVisualizer.kt:104-140 | a counter below maxBatch stays below it; one at or above it only grows, with sources and destinations frozen |
| Tween.Targets | audiovisualizer/src/main/kotlin/com/gauravk/audiovisualizer/visualizer/BarVisualizer.kt:113-117 | each target is measured from the clip edge that gravity names |
| Tween.StartBatch | audiovisualizer/src/main/kotlin/com/gauravk/audiovisualizer/visualizer/BarVisualizer.kt:97-125 | between batch starts the tween is untouched; a batch start succeeds if and only if the buffer holds 1024 bytes, and then it is a `Restart` with the window's targets |
| Tween.TargetBand | audiovisualizer/src/main/kotlin/com/gauravk/audiovisualizer/visualizer/BarVisualizer.kt:109-117 | a target beyond the horizon rests on the clip edge; otherwise it lies 2h to 3h from it, on the gravity's side |
| Tween.AdvanceShowsBetween | audiovisualizer/src/main/kotlin/com/gauravk/audiovisualizer/visualizer/BarVisualizer.kt:128-135 | every shown value lies between its source and destination, and the last frame of a batch shows the destinations |
| Tween.FractionInUnit | audiovisualizer/src/main/kotlin/com/gauravk/audiovisualizer/visualizer/BarVisualizer.kt:128-135 | the interpolation fraction of frame k in a batch of m lies in (0, 1], and is 1 exactly on the last frame |
| Tween.LerpBetween | audiovisualizer/src/main/kotlin/com/gauravk/audiovisualizer/visualizer/BarVisualizer.kt:131-135 | interpolation with t in [0,1] stays between its endpoints |
| Tween.OneBatchCycle | audiovisualizer/src/main/kotlin/com/gauravk/audiovisualizer/visualizer/BarVisualizer.kt:104-140 | from a zero counter, frame k of the batch shows `Lerp(src, dest, k/maxBatch)` of the restarted tween |
| Tween.BatchCycling | audiovisualizer/src/main/kotlin/com/gauravk/audiovisualizer/visualizer/BarVisualizer.kt:104-140 | from a zero counter, after k frames the counter is k mod maxBatch and ⌈k/maxBatch⌉ batches have started |
| Tween.StalledBatchNeverRestarts | audiovisualizer/src/main/kotlin/com/gauravk/audiovisualizer/visualizer/BarVisualizer.kt:128-140 | a counter at or beyond maxBatch never wraps again: no batch ever restarts |
| BezierSpline.Pivot | audiovisualizer/src/main/kotlin/com/gauravk/audiovisualizer/utils/BezierSpline.kt:112-120 | every elimination pivot lies in [2,4], and from the second row on in [3,4]; the system is diagonally dominant |
| BezierSpline.ReciprocalBounds | audiovisualizer/src/main/kotlin/com/gauravk/audiovisualizer/utils/BezierSpline.kt:117 | the stored reciprocal of a pivot lies in [1/4, 1/2] |
| BezierSpline.Solution | audiovisualizer/src/main/kotlin/com/gauravk/audiovisualizer/utils/BezierSpline.kt:107-128 | the closed form of forward elimination and back substitution, entry by entry |
| BezierSpline.SolveFirstControls | audiovisualizer/src/main/kotlin/com/gauravk/audiovisualizer/utils/BezierSpline.kt:107-128 | `getFirstControlPoints` returns a solution of the tridiagonal system (2, 4, …, 4, 3.5 on the diagonal, 1 beside it), and the only one |
| BezierSpline.Decompose | audiovisualizer/src/main/kotlin/com/gauravk/audiovisualizer/utils/BezierSpline.kt:112-120 | the forward loop stores each eliminated right-hand side and the reciprocal of each pivot |
| BezierSpline.BackSubstitute | audiovisualizer/src/main/kotlin/com/gauravk/audiovisualizer/utils/BezierSpline.kt:122-125 | the backward loop turns the eliminated system into its solution |
| BezierSpline.SolvesIffSolution | audiovisualizer/src/main/kotlin/com/gauravk/audiovisualizer/utils/BezierSpline.kt:107-128 | a vector solves the system if and only if it is the elimination's result |
| BezierSpline.SolvesIffEliminated | audiovisualizer/src/main/kotlin/com/gauravk/audiovisualizer/utils/BezierSpline.kt:116-120 | the first m rows hold if and only if the eliminated rows hold: elimination preserves the solution set |
| BezierSpline.EliminatedIffBack | audiovisualizer/src/main/kotlin/com/gauravk/audiovisualizer/utils/BezierSpline.kt:123-125 | the eliminated rows from i on hold if and only if entries i.. equal the back-substituted values |
| BezierSpline.RowStep | audiovisualizer/src/main/kotlin/com/gauravk/audiovisualizer/utils/BezierSpline.kt:117-119 | one elimination step turns an original row into its eliminated row and back |
| BezierSpline.Rhs | audiovisualizer/src/main/kotlin/com/gauravk/audiovisualizer/utils/BezierSpline.kt:57-64 | the right-hand side has one entry per segment |
| BezierSpline.Seconds | audiovisualizer/src/main/kotlin/com/gauravk/audiovisualizer/utils/BezierSpline.kt:79-96 | one second control point per segment |
| BezierSpline.AxisControlsIffNatural | audiovisualizer/src/main/kotlin/com/gauravk/audiovisualizer/utils/BezierSpline.kt:32-96 | the control points the method computes on one axis are exactly those of the natural spline: C¹ and C² at inner knots, zero curvature at both ends |
| BezierSpline.ControlsAreNatural | audiovisualizer/src/main/kotlin/com/gauravk/audiovisualizer/utils/BezierSpline.kt:57-96 | computed controls (three or more knots) meet the natural-spline conditions |
| BezierSpline.NaturalIsControls | audiovisualizer/src/main/kotlin/com/gauravk/audiovisualizer/utils/BezierSpline.kt:57-96 | natural-spline controls (three or more knots) are the computed ones |
| BezierSpline.AxisControlsUnique | audiovisualizer/src/main/kotlin/com/gauravk/audiovisualizer/utils/BezierSpline.kt:32-96 | the controls for a given set of knots are unique |
| BezierSpline.NewSpline | audiovisualizer/src/main/kotlin/com/gauravk/audiovisualizer/utils/BezierSpline.kt:20-24 | construction fails with a negative array size exactly when size < 1; otherwise it holds size − 1 control pairs |
| BezierSpline.UpdateCurveControlPoints | audiovisualizer/src/main/kotlin/com/gauravk/audiovisualizer/utils/BezierSpline.kt:32-98 | fewer than two knots fail the `require`; more knots than arrays fault; otherwise the leading controls form the natural spline on both axes and the rest are untouched |
| BezierSpline.TwoKnotsGiveThirds | audiovisualizer/src/main/kotlin/com/gauravk/audiovisualizer/utils/BezierSpline.kt:38-51 | with two knots the controls sit at one and two thirds of the straight line |
| BezierSpline.AxesIndependent | audiovisualizer/src/main/kotlin/com/gauravk/audiovisualizer/utils/BezierSpline.kt:55-96 | the x controls depend only on the knots' x values, and likewise for y |
| BaseVisualizer.Lower | audiovisualizer/src/main/kotlin/com/gauravk/audiovisualizer/base/BaseVisualizer.kt:77 | `toLowerCase()` keeps the length and maps A–Z to a–z, leaving every other character alone |
| BaseVisualizer.LowerMatchesIgnoringCase | audiovisualizer/src/main/kotlin/com/gauravk/audiovisualizer/base/BaseVisualizer.kt:77-97 | for a lower-case word, comparing after lower-casing is case-insensitive equality, both ways |
| BaseVisualizer.ParsePaintStyle | audiovisualizer/src/main/kotlin/com/gauravk/audiovisualizer/base/BaseVisualizer.kt:77-82 | `avType` is OUTLINE if and only if it spells "outline" in any case |
| BaseVisualizer.ParseGravity | audiovisualizer/src/main/kotlin/com/gauravk/audiovisualizer/base/BaseVisualizer.kt:84-89 | `avGravity` is TOP if and only if it spells "top" in any case |
| BaseVisualizer.ParseSpeed | audiovisualizer/src/main/kotlin/com/gauravk/audiovisualizer/base/BaseVisualizer.kt:91-97 | `avSpeed` is SLOW or FAST if and only if it spells that word; anything else is MEDIUM |
| BaseVisualizer.InitAttributes | audiovisualizer/src/main/kotlin/com/gauravk/audiovisualizer/base/BaseVisualizer.kt:43-103 | without attributes the defaults stand; with them each attribute overrides its field, and the view starts enabled with no buffer |
| BaseVisualizer.Show | audiovisualizer/src/main/kotlin/com/gauravk/audiovisualizer/base/BaseVisualizer.kt:221-223 | `show` sets only the flag; the view then draws exactly when it holds a non-empty buffer |
| BaseVisualizer.Hide | audiovisualizer/src/main/kotlin/com/gauravk/audiovisualizer/base/BaseVisualizer.kt:228-230 | `hide` clears only the flag, and the view stops drawing |
| BaseVisualizer.LastVisibilityCallWins | audiovisualizer/src/main/kotlin/com/gauravk/audiovisualizer/base/BaseVisualizer.kt:221-230 | any sequence of show and hide calls changes nothing but the flag, and the last call decides it |
| BaseVisualizer.SetPaintStyle | audiovisualizer/src/main/kotlin/com/gauravk/audiovisualizer/base/BaseVisualizer.kt:132-135 | sets the style and nothing else |
| BaseVisualizer.SetPositionGravity | audiovisualizer/src/main/kotlin/com/gauravk/audiovisualizer/base/BaseVisualizer.kt:142-144 | sets the gravity and nothing else |
| BaseVisualizer.SetAnimationSpeed | audiovisualizer/src/main/kotlin/com/gauravk/audiovisualizer/base/BaseVisualizer.kt:151-153 | sets the speed and nothing else |
| BaseVisualizer.SetStrokeWidth | audiovisualizer/src/main/kotlin/com/gauravk/audiovisualizer/base/BaseVisualizer.kt:160-163 | sets the stroke width and nothing else |
| BaseVisualizer.SetDensity | audiovisualizer/src/main/kotlin/com/gauravk/audiovisualizer/base/BaseVisualizer.kt:120-125 | sets the density and nothing else; each shape reruns its own `init` |
| BaseVisualizer.SetRawAudioBytes | audiovisualizer/src/main/kotlin/com/gauravk/audiovisualizer/base/BaseVisualizer.kt:170-173 | replaces the buffer and nothing else; the view then draws exactly when it is enabled and the buffer is non-null and non-empty |
| BaseVisualizer.Release | audiovisualizer/src/main/kotlin/com/gauravk/audiovisualizer/base/BaseVisualizer.kt:214-216 | releases an attached capture, does nothing when none is attached, and changes nothing else |
| Bar.Init | audiovisualizer/src/main/kotlin/com/gauravk/audiovisualizer/visualizer/BarVisualizer.kt:58-71 | the clamped point count, frames per batch from the speed, a zeroed tween and no layout |
| Bar.SetDensity | audiovisualizer/src/main/kotlin/com/gauravk/audiovisualizer/base/BaseVisualizer.kt:120-125 | stores the density, and the returned state is exactly what `init` builds for it, so everything `Bar.Init` states holds of it |
| Bar.SetAnimationSpeed | audiovisualizer/src/main/kotlin/com/gauravk/audiovisualizer/visualizer/BarVisualizer.kt:73-76 | as written: the new frames per batch with the running counter kept |
| Bar.SetAnimationSpeedResetting | audiovisualizer/src/main/kotlin/com/gauravk/audiovisualizer/visualizer/BarVisualizer.kt:73-76 | corrected: the counter is reset with the new speed, so it stays below the new maxBatch, and the tween's sources and destinations are kept |
| Bar.Bars | audiovisualizer/src/main/kotlin/com/gauravk/audiovisualizer/visualizer/BarVisualizer.kt:131-135 | one vertical segment per bar, from the canvas bottom to the shown value, at the bar's centre |
| Bar.EnsureLayout | audiovisualizer/src/main/kotlin/com/gauravk/audiovisualizer/visualizer/BarVisualizer.kt:79-94 | the first frame fixes the bar width (width/N) and the clip once; later frames keep them |
| Bar.Draw | audiovisualizer/src/main/kotlin/com/gauravk/audiovisualizer/visualizer/BarVisualizer.kt:96-141 | a hidden view draws nothing; a batch-start frame faults if and only if the buffer is shorter than 1024; otherwise the new tween is the batch start (restart from the window's targets when the counter is zero) followed by one advance, and the N segments end at the values it shows |
| Bar.DrawIsFrame | audiovisualizer/src/main/kotlin/com/gauravk/audiovisualizer/visualizer/BarVisualizer.kt:104-140 | with a buffer of at least 1024 bytes, one drawn frame is exactly one tween frame against the targets read from that buffer, and each bar ends at the value that frame shows |
| Bar.ReplayIsRun | audiovisualizer/src/main/kotlin/com/gauravk/audiovisualizer/visualizer/BarVisualizer.kt:104-140 | once laid out, k frames drawn from one buffer of at least 1024 bytes, with the random slot r held fixed across them, are the tween run for k frames against its targets |
| Bar.BarsInsideCanvas | audiovisualizer/src/main/kotlin/com/gauravk/audiovisualizer/visualizer/BarVisualizer.kt:79-94 | bars are one width apart and their centres lie inside the canvas |
| Bar.SpeedChangeCanStall | audiovisualizer/src/main/kotlin/com/gauravk/audiovisualizer/visualizer/BarVisualizer.kt:73-76 | after the as-written speed change with the counter at or beyond the new maximum, no later frame ever starts a batch |
| Bar.SpeedChangeOvershoots | audiovisualizer/src/main/kotlin/com/gauravk/audiovisualizer/visualizer/BarVisualizer.kt:73-76 | concretely: three frames into a SLOW batch, switching to FAST leaves the counter at 3 against a maximum of 2, so the next frame draws a bar at 20 against a destination of 10: the bars overshoot their destination and keep moving |
| Bar.SpeedChangeStallsDrawing | audiovisualizer/src/main/kotlin/com/gauravk/audiovisualizer/visualizer/BarVisualizer.kt:73-76 | after the as-written speed change with the counter at or past the new maximum, every later drawn frame (random slot r held fixed, which no restart reads) keeps the tween's sources and destinations and only raises the counter, so the bars run ever further past their destinations |
| Bar.ResettingSpeedChangeKeepsCycling | audiovisualizer/src/main/kotlin/com/gauravk/audiovisualizer/visualizer/BarVisualizer.kt:73-76 | after the corrected speed change the counter cycles k mod maxBatch and batches keep starting |
| Bar.ResettingKeepsDrawingCycling | audiovisualizer/src/main/kotlin/com/gauravk/audiovisualizer/visualizer/BarVisualizer.kt:73-76 | after the corrected speed change, k drawn frames with the random slot r held fixed leave the counter at k mod the new batch length |
| Wave.Init | audiovisualizer/src/main/kotlin/com/gauravk/audiovisualizer/visualizer/WaveVisualizer.kt:66-86 | the clamped count, N + 1 zeroed tween slots, speed-derived frames per batch, no layout |
| Wave.SetDensity | audiovisualizer/src/main/kotlin/com/gauravk/audiovisualizer/base/BaseVisualizer.kt:120-125 | stores the density, and the returned state is exactly what `init` builds for it, so everything `Wave.Init` states holds of it |
| Wave.SetAnimationSpeed | audiovisualizer/src/main/kotlin/com/gauravk/audiovisualizer/visualizer/WaveVisualizer.kt:88-91 | as written: the new frames per batch with the running counter kept |
| Wave.SetAnimationSpeedResetting | audiovisualizer/src/main/kotlin/com/gauravk/audiovisualizer/visualizer/WaveVisualizer.kt:88-91 | corrected: the counter is reset with the new speed and the tween's sources and destinations are kept |
| Wave.Knots | audiovisualizer/src/main/kotlin/com/gauravk/audiovisualizer/visualizer/WaveVisualizer.kt:151-153 | knot i sits at x = clip.left + i·width/N, at the shown y |
| Wave.WavePath | audiovisualizer/src/main/kotlin/com/gauravk/audiovisualizer/visualizer/WaveVisualizer.kt:161-187 | MoveTo the first knot, then one cubic per knot ending on it, with both controls at the horizontal midpoint; FILL adds lines to the clip's bottom-right and bottom-left corners and closes, whatever the gravity |
| Wave.EnsureLayout | audiovisualizer/src/main/kotlin/com/gauravk/audiovisualizer/visualizer/WaveVisualizer.kt:94-111 | the first frame fixes the knot spacing and the clip once |
| Wave.Draw | audiovisualizer/src/main/kotlin/com/gauravk/audiovisualizer/visualizer/WaveVisualizer.kt:113-190 | a hidden view draws nothing; a batch start faults if and only if the buffer is shorter than 1024; otherwise the new tween is the batch start followed by one advance, and the path is the midpoint-control wave, with the FILL tail, through the N + 1 knots at the shown heights |
| Wave.DrawIsFrame | audiovisualizer/src/main/kotlin/com/gauravk/audiovisualizer/visualizer/WaveVisualizer.kt:123-187 | with a buffer of at least 1024 bytes, one drawn frame is exactly one tween frame against the targets read from that buffer, and the path runs through the knots at the heights it shows |
| Wave.ReplayIsRun | audiovisualizer/src/main/kotlin/com/gauravk/audiovisualizer/visualizer/WaveVisualizer.kt:123-158 | once laid out, k frames drawn from one buffer of at least 1024 bytes, with the random slot r held fixed across them, are the tween run for k frames against its targets |
| Wave.KnotsSpanWidth | audiovisualizer/src/main/kotlin/com/gauravk/audiovisualizer/visualizer/WaveVisualizer.kt:94-111 | knots run from x = clip.left to x = clip.left + width in equal steps of width/N |
| Wave.SegmentStaysInBox | audiovisualizer/src/main/kotlin/com/gauravk/audiovisualizer/visualizer/WaveVisualizer.kt:161-170 | both control points of a cubic lie in the box its two knots span, so the curve cannot overshoot them |
| Wave.HorizontalTangentsAtKnots | audiovisualizer/src/main/kotlin/com/gauravk/audiovisualizer/visualizer/WaveVisualizer.kt:161-170 | at an inner knot, the incoming and outgoing controls share the knot's height, so the tangent is horizontal |
| Wave.SpeedChangeCanStall | audiovisualizer/src/main/kotlin/com/gauravk/audiovisualizer/visualizer/WaveVisualizer.kt:88-91 | after the as-written speed change with the counter at or past the new maximum, no batch ever restarts |
| Wave.SpeedChangeStallsDrawing | audiovisualizer/src/main/kotlin/com/gauravk/audiovisualizer/visualizer/WaveVisualizer.kt:88-91 | after the as-written speed change with the counter at or past the new maximum, every later drawn frame (random slot r held fixed, which no restart reads) keeps the tween's sources and destinations and only raises the counter, so the knots run ever further past their destinations |
| Wave.ResettingSpeedChangeKeepsCycling | audiovisualizer/src/main/kotlin/com/gauravk/audiovisualizer/visualizer/WaveVisualizer.kt:88-91 | after the corrected speed change batches keep cycling |
| Wave.ResettingKeepsDrawingCycling | audiovisualizer/src/main/kotlin/com/gauravk/audiovisualizer/visualizer/WaveVisualizer.kt:88-91 | after the corrected speed change, k drawn frames with the random slot r held fixed leave the counter at k mod the new batch length |
| Blob.UpdateChangeFactor | audiovisualizer/src/main/kotlin/com/gauravk/audiovisualizer/visualizer/BlobVisualizer.kt:82-93 | the step is positive, and it is the speed's bare rate when the height is not used |
| Blob.Init | audiovisualizer/src/main/kotlin/com/gauravk/audiovisualizer/visualizer/BlobVisualizer.kt:58-75 | the clamped count; N knots a full turn apart (offset·N = 360); no radius yet; the speed's rate |
| Blob.SetDensity | audiovisualizer/src/main/kotlin/com/gauravk/audiovisualizer/base/BaseVisualizer.kt:120-125 | stores the density, and the returned state is exactly what `init` builds for it, so everything `Blob.Init` states holds of it |
| Blob.SetAnimationSpeed | audiovisualizer/src/main/kotlin/com/gauravk/audiovisualizer/visualizer/BlobVisualizer.kt:77-80 | stores the speed and recomputes the change factor as the speed's rate times the view height (1000 before layout), touching nothing else |
| Blob.PlaceOnRing | audiovisualizer/src/main/kotlin/com/gauravk/audiovisualizer/visualizer/BlobVisualizer.kt:104-110 | knot i is placed on the ring at angle i·offset; the two closing knots are untouched |
| Blob.FirstDraw | audiovisualizer/src/main/kotlin/com/gauravk/audiovisualizer/visualizer/BlobVisualizer.kt:99-112 | the first frame fixes the radius, multiplies the step by the view height and puts the knots on the ring; later frames change nothing |
| Blob.StepKnots | audiovisualizer/src/main/kotlin/com/gauravk/audiovisualizer/visualizer/BlobVisualizer.kt:125-154 | each knot steps towards its goal, and the two extra knots close the loop on knot 0 |
| Blob.BlobPath | audiovisualizer/src/main/kotlin/com/gauravk/audiovisualizer/visualizer/BlobVisualizer.kt:162-174 | MoveTo knot 0, one cubic per segment with the spline's controls, and FILL adds a line to the centre |
| Blob.Draw | audiovisualizer/src/main/kotlin/com/gauravk/audiovisualizer/visualizer/BlobVisualizer.kt:97-177 | a hidden view only runs the first-frame block; a visible one faults if and only if the buffer is shorter than 1024; otherwise only the knots and the spline change (angle offset, radius and step are kept from the first-frame block), the knots step, the loop closes, and the spline is natural on both axes |
| Blob.FasterMovesFurther | audiovisualizer/src/main/kotlin/com/gauravk/audiovisualizer/visualizer/BlobVisualizer.kt:82-93 | the step grows strictly from SLOW to MEDIUM to FAST |
| Blob.ApproachCloses | audiovisualizer/src/main/kotlin/com/gauravk/audiovisualizer/visualizer/BlobVisualizer.kt:136-147 | a coordinate farther than one step from its goal moves exactly one step closer |
| Blob.ApproachStaysNear | audiovisualizer/src/main/kotlin/com/gauravk/audiovisualizer/visualizer/BlobVisualizer.kt:136-147 | a coordinate within one step stays within one step, and one exactly on its goal is pushed off it |
| Blob.LouderSitsCloser | audiovisualizer/src/main/kotlin/com/gauravk/audiovisualizer/visualizer/BlobVisualizer.kt:126-130 | a louder sample gives a smaller outward offset, within [0, h/4] |
| Blob.SpeedBeforeFirstDrawScalesTwice | audiovisualizer/src/main/kotlin/com/gauravk/audiovisualizer/visualizer/BlobVisualizer.kt:77-112 | a speed set before the first frame ends up scaled by the height twice |
| Blast.Init | audiovisualizer/src/main/kotlin/com/gauravk/audiovisualizer/visualizer/BlastVisualizer.kt:48-56 | the clamped spike count, and no radius yet |
| Blast.SetDensity | audiovisualizer/src/main/kotlin/com/gauravk/audiovisualizer/base/BaseVisualizer.kt:120-125 | stores the density, and the returned state is exactly what `init` builds for it, so everything `Blast.Init` states holds of it |
| Blast.Spikes | audiovisualizer/src/main/kotlin/com/gauravk/audiovisualizer/visualizer/BlastVisualizer.kt:75-93 | MoveTo the first spike, LineTo each later one at its angle, then Close |
| Blast.EnsureRadius | audiovisualizer/src/main/kotlin/com/gauravk/audiovisualizer/visualizer/BlastVisualizer.kt:60-63 | the radius is computed once, from the first view |
| Blast.Draw | audiovisualizer/src/main/kotlin/com/gauravk/audiovisualizer/visualizer/BlastVisualizer.kt:58-96 | a hidden view draws nothing; a visible one faults if and only if the buffer is shorter than both N and 1024; otherwise a closed polygon of N spikes, the first at 0° and spike i at i·360/N, each at radius R + level, within [R, R + h/4] |
| Blast.DrawIsRepeatable | audiovisualizer/src/main/kotlin/com/gauravk/audiovisualizer/visualizer/BlastVisualizer.kt:58-96 | after the first frame the state is a fixed point, and the same input gives the same polygon whatever view is passed |
| Blast.SpikeExtremes | audiovisualizer/src/main/kotlin/com/gauravk/audiovisualizer/visualizer/BlastVisualizer.kt:77-89 | a silent sample reaches R + h/4; a full-scale sample, or an index past 1024, sits on the ring |
| Blast.LouderSpikeIsShorter | audiovisualizer/src/main/kotlin/com/gauravk/audiovisualizer/visualizer/BlastVisualizer.kt:77-89 | a louder sample at a spike's index never moves that spike outward |
| HiFi.Init | audiovisualizer/src/main/kotlin/com/gauravk/audiovisualizer/visualizer/HiFiVisualizer.kt:56-66 | the clamped count, zeroed heights and no radius yet |
| HiFi.SetDensity | audiovisualizer/src/main/kotlin/com/gauravk/audiovisualizer/base/BaseVisualizer.kt:120-125 | stores the density, and the returned state is exactly what `init` builds for it with the control length kept, so everything `HiFi.Init` states holds of it |
| HiFi.SetPaintStyle | audiovisualizer/src/main/kotlin/com/gauravk/audiovisualizer/visualizer/HiFiVisualizer.kt:74-77 | the override is a no-op: the whole configuration is returned unchanged, so any change the base setter would make is refused |
| HiFi.EnsureRadius | audiovisualizer/src/main/kotlin/com/gauravk/audiovisualizer/visualizer/HiFiVisualizer.kt:81-82 | the radius and control length are fixed once, on the first frame |
| HiFi.UpdateData | audiovisualizer/src/main/kotlin/com/gauravk/audiovisualizer/visualizer/HiFiVisualizer.kt:134-147 | a hidden view keeps its heights; a visible one faults if and only if the buffer is shorter than 1024; otherwise height i is the negated Spread level of its sample |
| HiFi.LastOf | audiovisualizer/src/main/kotlin/com/gauravk/audiovisualizer/visualizer/HiFiVisualizer.kt:113 | the slot of the previous arc is below P; the corrected rule never goes negative |
| HiFi.Sweep | audiovisualizer/src/main/kotlin/com/gauravk/audiovisualizer/visualizer/HiFiVisualizer.kt:99-128 | the arc loop succeeds if and only if no previous-slot index is negative; each arc then joins the previous slot's tip to this slot's tip |
| HiFi.Trace | audiovisualizer/src/main/kotlin/com/gauravk/audiovisualizer/visualizer/HiFiVisualizer.kt:89-128 | both rings start at the tip of the last slot, then follow the sweep |
| HiFi.Render | audiovisualizer/src/main/kotlin/com/gauravk/audiovisualizer/visualizer/HiFiVisualizer.kt:79-132 | errors propagate from the data update; P > 360 is a zero step; otherwise the frame succeeds if and only if every previous-slot index is in range, and it is then the trace |
| HiFi.Draw | audiovisualizer/src/main/kotlin/com/gauravk/audiovisualizer/visualizer/HiFiVisualizer.kt:79-132 | as written: a frame succeeds if and only if the update does and P divides 360; a non-dividing P ≤ 360 faults with an out-of-range index |
| HiFi.DrawCorrected | audiovisualizer/src/main/kotlin/com/gauravk/audiovisualizer/visualizer/HiFiVisualizer.kt:99-128 | corrected: a frame succeeds if and only if the update does and P ≤ 360 |
| HiFi.AsWrittenLastIff | audiovisualizer/src/main/kotlin/com/gauravk/audiovisualizer/visualizer/HiFiVisualizer.kt:99-113 | the as-written previous-slot index stays in range if and only if P divides 360 |
| HiFi.CorrectionAgreesWhenDividing | audiovisualizer/src/main/kotlin/com/gauravk/audiovisualizer/visualizer/HiFiVisualizer.kt:99-128 | when P divides 360 the corrected frame equals the as-written one |
| HiFi.SweepRulesAgree | audiovisualizer/src/main/kotlin/com/gauravk/audiovisualizer/visualizer/HiFiVisualizer.kt:99-128 | two index rules that agree on every iteration give the same sweep |
| HiFi.FullDensityFaults | audiovisualizer/src/main/kotlin/com/gauravk/audiovisualizer/visualizer/HiFiVisualizer.kt:63-113 | at density 1, P = 240; the as-written frame faults and the corrected one draws |
| HiFi.RingsMirror | audiovisualizer/src/main/kotlin/com/gauravk/audiovisualizer/visualizer/HiFiVisualizer.kt:106-127 | at every arc the outer and inner radii sum to 2R, the control lengths sum to twice the control length, and the angles agree |
| HiFi.RingsClose | audiovisualizer/src/main/kotlin/com/gauravk/audiovisualizer/visualizer/HiFiVisualizer.kt:89-128 | both rings end where they started, so each is a closed loop |
| HiFi.TraceCloses | audiovisualizer/src/main/kotlin/com/gauravk/audiovisualizer/visualizer/HiFiVisualizer.kt:89-128 | with a dividing P, the last arc ends at the start tip |
| HiFi.HeightsBand | audiovisualizer/src/main/kotlin/com/gauravk/audiovisualizer/visualizer/HiFiVisualizer.kt:138-145 | a height is 0 beyond the horizon and otherwise lies in [−2R, −R] |
| CircleLine.Init | audiovisualizer/src/main/kotlin/com/gauravk/audiovisualizer/visualizer/CircleLineVisualizer.kt:48-59 | the clamped count and zeroed samples; every other field is kept |
| CircleLine.SetDensity | audiovisualizer/src/main/kotlin/com/gauravk/audiovisualizer/base/BaseVisualizer.kt:120-125 | stores the density, and the returned state is exactly what `init` builds from the old one: zeroed slots, with the radii and the ray switch kept |
| CircleLine.OnSizeChanged | audiovisualizer/src/main/kotlin/com/gauravk/audiovisualizer/visualizer/CircleLineVisualizer.kt:61-77 | the radius is a quarter of the smaller side, rounded down, and only the radii change |
| CircleLine.UpdateData | audiovisualizer/src/main/kotlin/com/gauravk/audiovisualizer/visualizer/CircleLineVisualizer.kt:139-152 | a hidden view keeps its samples; a visible one faults if and only if the buffer is shorter than 1024; otherwise slot i becomes minus the Spread level of the sample it reads |
| CircleLine.Bars | audiovisualizer/src/main/kotlin/com/gauravk/audiovisualizer/visualizer/CircleLineVisualizer.kt:95-115 | every bar drawn belongs to an iteration with a non-zero value, and every such iteration's bar is drawn |
| CircleLine.Draw | audiovisualizer/src/main/kotlin/com/gauravk/audiovisualizer/visualizer/CircleLineVisualizer.kt:79-137 | a frame succeeds if and only if the update does and P ≤ 360; it draws a dot per iteration, rays only with drawLine, and bars for the non-zero values |
| CircleLine.DividingDrawsEverySlot | audiovisualizer/src/main/kotlin/com/gauravk/audiovisualizer/visualizer/CircleLineVisualizer.kt:85-115 | when P divides 360 iteration k draws slot k's dot at angle k·360/P |
| CircleLine.AngleDetermines | audiovisualizer/src/main/kotlin/com/gauravk/audiovisualizer/visualizer/CircleLineVisualizer.kt:95-97 | distinct iterations have distinct angles |
| CircleLine.BarsFollowReadSamples | audiovisualizer/src/main/kotlin/com/gauravk/audiovisualizer/visualizer/CircleLineVisualizer.kt:95-115 | an iteration's bar is in the picture if and only if its sample index lies below 1024, and it then reaches inward by at most the radius |
| CircleLine.RaysMeetBars | audiovisualizer/src/main/kotlin/com/gauravk/audiovisualizer/visualizer/CircleLineVisualizer.kt:123-137 | each ray is fourteen dot radii long, starts where the bar at the same angle ends, and shares its dot's angle |
| CircleLine.FreshViewDrawsNoBars | audiovisualizer/src/main/kotlin/com/gauravk/audiovisualizer/visualizer/CircleLineVisualizer.kt:48-59 | a freshly initialised hidden view draws no bars |
| CircleLine.ZeroSlotsDrawNoBars | audiovisualizer/src/main/kotlin/com/gauravk/audiovisualizer/visualizer/CircleLineVisualizer.kt:95-97 | all-zero samples give no bars at any loop length |
| Gallery.DefaultPointCounts | audiovisualizer/src/main/kotlin/com/gauravk/audiovisualizer/utils/AVConstants.kt:21 | at the default density of 0.25 the counts are 30, 13, 15, 250, 60 and 60; with no buffer attached the HiFi and CircleLine default frames draw |
| Gallery.DefaultFramesWithAudio | audiovisualizer/src/main/kotlin/com/gauravk/audiovisualizer/visualizer/HiFiVisualizer.kt:99-113 | with a buffer of at least 1024 bytes on the defaults, the HiFi and CircleLine frames draw without a fault, and their 60 iterations read slot k on iteration k, so no slot is skipped |

## Left out

- Bar.Replay and Wave.Replay: every frame uses one random slot r, where the source draws a fresh `mRandom.nextInt` at each batch start. r only picks the old destination copied into the last slot, so the counter results do not depend on it; the slot values of later batches are stated for that single r only.
- Trigonometry: `cos`/`sin` of angles are not evaluated. Ring shapes emit polar points; Blob takes the direction function as a parameter.
- Float rounding: `real` is exact, so results that Float rounding would perturb are modelled as the exact values.
- Android drawing, colours, paint fields and the gradient: `setColor` and paint set-up change only how the commands are stroked.
- `setAudioSessionId` and the platform capture: the capture is an opaque handle, and its buffer arrives through `SetRawAudioBytes`.
- `synchronized` blocks and threads: each operation is a single atomic step.
- The Kotlin construction order: the base constructor calls `init` before subclass initialisers run. `Init` models the state after construction.
- The state a view keeps after an exception propagates out of `onDraw`: not modelled.
- `Random.nextInt(n)`: becomes the input `r < n`.
- The HiFi control length (`mRadius / cos(PI / mPoints)`) and the CircleLine point radius (`2 * mRadius * sin(PI / mPoints / 3)`) need cosine and sine. They are inputs.
- Unicode lower-casing: only A–Z are folded.
- The sample app's activities: they only call the public setters.
- AVConstants.TruncToInt: does not model other 32-bit overflows. Integers in the arithmetic are unbounded.
- BaseVisualizer.InitAttributes: attribute values are assumed already parsed into Float and String, not the raw typed array.
- CircleLine.Draw: the ray and bar lengths are stated as their integer values; their screen endpoints are left to trigonometry.
- Blob.Draw: the knot goals are stated through `Goal`, which uses the direction function.

## Findings

| source | as written | input that shows it | evidently intended | confidence | as-written member | corrected member |
|---|---|---|---|---|---|---|
| audiovisualizer/src/main/kotlin/com/gauravk/audiovisualizer/visualizer/BarVisualizer.kt:73-76 | `setAnimationSpeed` lowers the frames per batch but keeps the running counter; the counter is reset only when it equals the maximum | three frames into a SLOW batch (counter 3), switching to FAST (maximum 2) | the bars keep cycling through batches at the new speed | high; not executed | Bar.SpeedChangeOvershoots | Bar.ResettingSpeedChangeKeepsCycling |
| audiovisualizer/src/main/kotlin/com/gauravk/audiovisualizer/visualizer/WaveVisualizer.kt:88-91 | the same counter is kept on a speed change | any counter at or above the new maximum | the wave keeps cycling | high; not executed | Wave.SpeedChangeCanStall | Wave.ResettingSpeedChangeKeepsCycling |
| audiovisualizer/src/main/kotlin/com/gauravk/audiovisualizer/visualizer/HiFiVisualizer.kt:99-113 | the previous slot is `pointIndex - 1`, which is −1 whenever a later angle maps back to slot 0 | density 1.0, so P = 240 and the step is 1: angle 1 reads slot 0, and the previous slot is −1 | the previous arc's slot, which never goes negative | high; not executed | HiFi.FullDensityFaults | HiFi.DrawCorrected |
| audiovisualizer/src/main/kotlin/com/gauravk/audiovisualizer/visualizer/BarVisualizer.kt:107-111 | the last slot reads index `len`, which is guarded only against 1024 | a buffer of 512 bytes at a batch start | read only indices below the buffer length | medium (the capture size is normally 1024); not executed | Sampling.WindowOkIff | Sampling.GuardedWindow |
