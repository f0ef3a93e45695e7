# Wind direction pipeline for a UAS-mounted anemometer

This project models the calculation core of the NMT UAS wind-direction tool.

The tool merges a Trisonica sonic anemometer log with the flight log of a DJI M600 Pro drone. It then derives the following from the merged table:
- air density and its error;
- the wind in the earth frame, from the sensor wind rotated by the heading plus the aircraft velocity;
- the propagated error of that wind;
- a five-row average of the wind around every row carrying a chemical (CH4) sample;
- the unit normal of the flight track;
- the crosswind through that normal, and its error.

The model covers the pandas table operations of `wind_calc.py` and their older variants in `calculations.py`. It also covers the bearing wrap of `wind_utils.py` and the instrument constants of `wind_consts.py`.

How the model represents things:
- **Tables.** A table (`Tables.Table`) is a set of column names and a sequence of rows. A row maps columns to cells.
- **Cells.** A cell is `Num(x)` or `NaN`. A missing key reads as `NaN`, as pandas reads a null. Arithmetic on cells is lifted so that any `NaN` operand gives `NaN`. A division by zero and the root of a negative number also give `NaN`.
- **Missing columns.** Reading a column the table lacks is pandas' `KeyError`. The model returns it as `Err(MissingColumn(c))`, where `c` is the first missing column in the order the source reads them.
- **Math functions.** Sine, cosine, square root and arctangent are the fields of a `Math` value passed to each operation. `ValidMath` states the facts the proofs rely on: a square root is non-negative and squares back to its argument, and sin² + cos² = 1. `Atan2InRange` states that atan2 lies within ±π.

Operations that loop in the source are methods with loop invariants. This covers `normal_vector`, both fill loops of `average_wrt_aeris` and the wrap loop of `wrap_wind_dir`. The in-place clamp of one bearing works on an `array`. The other table operations are functions.

## Model

| member | source | states |
|---|---|---|
| WindCalc.CalculationsOnMergedDf | wind_calc.py:7-13 | Runs density, winds, winds error and average in turn; it stops with the first stage's failure, and otherwise returns what the average yields for the table built by the first three stages |
| WindCalc.BeforeAverageFailures | wind_calc.py:7-10 | The three stages before the average fail exactly when a column they read is missing, and then fail with the KeyError of the first such column in read order (P, T, Yaw, Um, Vm, Wm, Vx, Vy, Vz, MD); the error stage never returns None here, because the winds stage requires Yaw |
| WindCalc.CalculateDensity | wind_calc.py:15-31 | Fails exactly when P or T is missing, with P reported first; otherwise adds Rho = (M_air/R)·100P/(T+273.15) and its error to every row, changes no other cell, and keeps the row count and well-formedness |
| WindCalc.DensityPositive | wind_calc.py:18-22 | Density is defined exactly when T ≠ −273.15, and is positive for positive pressure above absolute zero |
| WindCalc.DensityLinearInPressure | wind_calc.py:19-22 | At a fixed temperature, density is linear in pressure |
| WindCalc.DensityErrorValue | wind_calc.py:23-26 | The density error is (M_air/R)·sqrt((dP/T_K)² + (100·P·dT/T_K²)²) |
| WindCalc.DensityErrorBound | wind_calc.py:23-26 | Wherever density is defined, its error is defined, positive, and at least the pressure term (M_air/R)·dP/\|T_K\| on its own |
| WindCalc.CalcMatchingReferenceFrames | wind_calc.py:33-38 | Fails exactly when Vx, Vy or Vz is missing, with Vy (the first read) reported first; otherwise swaps Vx and Vy, negates Vz, and leaves every other cell and the column set unchanged |
| WindCalc.MatchingFramesInvolution | wind_calc.py:33-38 | Matching the frames twice gives back the original table |
| WindCalc.MatchFramesRowTwice | wind_calc.py:35-37 | A row with Vx, Vy and Vz is its own double frame match |
| WindCalc.VectorWindsRow | wind_calc.py:46-66 | Each winds row holds the rotated Ur/Vr/Wr, the earth-frame U/V/W (rotated plus aircraft velocity), the speed Sc of (U, V) and the wrapped bearing WD; every other cell is kept |
| WindCalc.CalculateVectorWinds | wind_calc.py:40-68 | Fails exactly when one of Yaw, Um, Vm, Wm, Vx, Vy, Vz is missing, reporting the first in that order; otherwise adds the eight wind columns to every row with the heading taken from Yaw |
| WindCalc.VectorWindsKeepNorm | wind_calc.py:46-49 | Rotating by the heading keeps Ur² + Vr² equal to Um² + Vm² |
| WindCalc.RawBearingRange | wind_utils.py:6 | 270 − atan2(v, u)·180/π lies in [90, 450] |
| WindCalc.VectorWindsSpeedAndDirection | wind_calc.py:56-66 | Where U and V are defined, Sc is their non-negative Euclidean norm and WD lies in (0, 720] |
| WindCalc.CalculateVectorWindsError | wind_calc.py:71-101 | Missing MD raises first; without the flag or a Yaw column the result is None; with both, a missing Um or Vm raises, and otherwise U_err and V_err are added to every row and nothing else changes |
| WindCalc.VectorWindsErrorBounds | wind_calc.py:84-96 | U_err is defined exactly where Yaw, Um and Vm are, and V_err exactly where Yaw and Vm are; each defined error is at least the aircraft velocity error of its axis |
| ErrorPropagation.PropagatedErrorAtLeastVelocityError | wind_calc.py:84-87 | The quadrature sum is defined exactly when both partial derivatives are, and is then no smaller than the velocity error term |
| Rotation.RotationPreservesNorm | wind_calc.py:48-49 | The heading rotation of a defined pair is defined and keeps its squared norm |
| WindCalc.AvgColumnsIndexed | wind_calc.py:106-108 | The averaged columns are exactly "<key>_avg" for the seven keys |
| WindCalc.WindowSpan | wind_calc.py:113 | The label slice idx−2 : idx+2 holds the row itself and at most two rows on each side, clipped to the table |
| WindCalc.AvgCellDefined | wind_calc.py:110-113 | An average cell is a number exactly at a CH4 row whose window holds a present cell of the key |
| WindCalc.AvgCellBetween | wind_calc.py:113 | An average lies within any bounds that hold for the cells it averages |
| WindCalc.AverageWrtAeris | wind_calc.py:103-115 | A missing CH4 raises; a missing key raises only when some row has CH4, and it is the first missing key; otherwise every "<key>_avg" cell is the window mean at CH4 rows and NaN elsewhere, and every other cell is unchanged |
| WindCalc.ClearAverages | wind_calc.py:107-108 | The first loop sets every "<key>_avg" cell of every row to NaN and changes no other cell |
| WindCalc.FillAverages | wind_calc.py:111-113 | The inner loop at one CH4 row fails on the first missing key; otherwise it sets each "<key>_avg" cell of that row to the window mean and changes no other cell |
| Series.CountZero | wind_calc.py:113 | No cell is present exactly when the present cells number zero |
| Series.Mean | wind_calc.py:113 | The skip-null mean is a number exactly when some cell is present |
| Series.TotalBounds | wind_calc.py:113 | The sum of present cells lying in [lo, hi] lies between lo·count and hi·count |
| Series.MeanBetween | wind_calc.py:113 | The mean of cells lying in [lo, hi] lies in [lo, hi] |
| Series.MeanOfConstant | wind_calc.py:113 | The mean of cells that all hold c is c |
| Series.Min | wind_calc.py:142 | The skip-null minimum is a number exactly when some cell is present; it is one of the cells and is no greater than any present cell |
| Series.ShiftToMin | wind_calc.py:142 | Every cell is shifted by the minimum, and the length is kept |
| Series.ShiftToMinProperties | wind_calc.py:142 | After the shift the same cells are present, none is negative, the least is 0, and differences between cells are unchanged |
| WindCalc.PayloadRows | wind_calc.py:119 | The kept rows all carry CH4 and C2H6, every such row is kept, and the kept rows form a sub-multiset of the input |
| WindCalc.FilterPayloadNulls | wind_calc.py:117-120 | Fails exactly when CH4 or C2H6 is not a column, CH4 first; otherwise keeps the columns and the rows with both readings |
| WindCalc.PayloadRowsAppend | wind_calc.py:119 | Filtering distributes over concatenation, so the kept rows keep their order |
| WindCalc.PayloadRowsIdempotent | wind_calc.py:119 | A second filter removes nothing |
| WindCalc.PayloadRowsKeepsComplete | wind_calc.py:119 | A table whose rows all carry both readings is left unchanged |
| WindCalc.CalculateCrosswindDataframe | wind_calc.py:122-143 | Fails with the first missing column it reads; otherwise every row holds the normal of its velocity, the crosswind and its error; the fourteen listed columns are dropped, every other cell is kept, the row count is kept, and Seconds is shifted to start at its minimum |
| WindCalc.CrosswindRowCells | wind_calc.py:124-142 | One crosswind row has the normal, the crosswind, its error and the shifted Seconds; the dropped columns are gone and all else is kept |
| WindCalc.CrosswindRowUnchanged | wind_calc.py:140 | A crosswind row keeps every cell outside the dropped and written columns, and has exactly the input's keys plus the written ones, minus the dropped ones |
| WindCalc.CrossWindErrValue | wind_calc.py:128-135 | The crosswind error is defined and non-negative, and its square is Nx⁴·U_err_avg² + Ny⁴·V_err_avg²; the two U_avg/V_avg terms vanish |
| WindCalc.CrossWindProjection | wind_calc.py:126 | Against a unit normal of the track, a wind along the track has zero crosswind, and a wind k along the normal has crosswind k |
| WindCalc.RootSolves | wind_calc.py:171-184 | (−b + s)/2a with s² = b² − 4ac solves ax² + bx + c = 0 |
| WindCalc.QuadraticRootsSolve | wind_calc.py:171-184 | Both roots are defined exactly when a ≠ 0 and the discriminant is non-negative, and each root then solves the equation |
| WindCalc.UnitRoot | wind_calc.py:150 | For a ≥ 1, both roots of ax² − 1 = 0 are defined; the first is positive with a·root² = 1, and the second is its negative |
| WindCalc.NormalPairValues | wind_calc.py:149-157 | For q ≠ 0 one branch gives f > 0 and g ≥ 0 with f² + g² = 1 and (f·p)² = (g·q)², where g is zero exactly when p is |
| WindCalc.UnitPairFacts | wind_calc.py:150-152 | The algebra of one branch: the pair is unit, and p and q are weighted crosswise |
| WindCalc.UnsignedNormalValues | wind_calc.py:149-159 | Before the sign rule, a nonzero velocity gives a non-negative unit pair whose components vanish exactly where the other velocity component does |
| WindCalc.OrientedNormal | wind_calc.py:161-164 | The sign rule makes the pair orthogonal to the velocity, and Ny is negated exactly for a velocity strictly in the first or third quadrant |
| WindCalc.NormalVectorProperties | wind_calc.py:145-169 | For a defined nonzero velocity, the normal is a unit vector orthogonal to it, with Nx ≥ 0 (zero exactly when Vy is) and Ny negative exactly in the first or third quadrant |
| WindCalc.NormalVectorDefined | wind_calc.py:149-159 | The normal is defined exactly for a defined velocity other than (0, 0) |
| WindCalc.NormalVector | wind_calc.py:145-169 | Returns one normal per pair of zip(Vx, Vy), as long as the shorter input, each the normal of its sample |
| WindUtils.SpeedIsNorm | wind_utils.py:5 | The speed of a defined pair is defined, non-negative, and squares to u² + v² |
| WindUtils.LoweredWindow | wind_utils.py:8-9 | Lowering a bearing above the limit by whole turns lands it in (limit − 360, limit] |
| WindUtils.TurnsUnique | wind_utils.py:8-9 | Exactly one number of turns lands a bearing in that window |
| WindUtils.BearingCongruent | wind_utils.py:7-11 | The wrapped bearing differs from the raw one by whole turns of 360 degrees |
| WindUtils.BearingAtMostLimit | wind_utils.py:8-11 | With a wrap factor of at least 1, no wrapped bearing exceeds wrapFactor·360 |
| WindUtils.BearingPositive | wind_utils.py:10-11 | A raw bearing above −360 wraps to a positive bearing |
| WindUtils.BearingFixesCanonical | wind_utils.py:7-11 | A bearing already in (0, wrapFactor·360] is left as it is |
| WindUtils.BearingIdempotent | wind_utils.py:7-11 | Wrapping twice is the same as wrapping once |
| WindUtils.ClampInPlace | wind_utils.py:8-11 | The loop and the final test for one index set that array cell to its wrapped bearing, and leave every other cell unchanged |
| WindUtils.WrapWindDir | wind_utils.py:3-12 | Returns, per sample, the speed sqrt(u² + v²) and the bearing 270 − atan2(v, u)·180/π wrapped into (0, wrapFactor·360] |
| Calculations.HeadingColumn | calculations.py:39-41 | The heading is Yaw exactly when the flag is set and the table has Yaw, and MD otherwise |
| Calculations.VectorWindsRow | calculations.py:43-66 | Each row gets Ur/Vr/Wr from the chosen heading, and V = Vr (+Vx), U = Ur (+Vy), W = Wm (−Vz), with the velocity terms included only for columns the table has; Sc = sqrt(V² + U²); every other cell is kept |
| Calculations.CalculateVectorWinds | calculations.py:36-68 | Fails exactly when MD, Um, Vm or Wm is missing, reporting the first of these; otherwise adds the seven wind columns (no WD) to every row |
| Calculations.VectorWindsKeepNorm | calculations.py:43-44 | Whichever column gives the heading, the rotation keeps Ur² + Vr² = Um² + Vm² |
| Calculations.OptionalVelocityColumns | calculations.py:47-57 | A missing velocity column leaves that component as the rotated one; a present one adds Vx to V and Vy to U, and subtracts Vz from W |
| Calculations.SpeedIsNorm | calculations.py:63 | Where U and V are defined, Sc is their non-negative Euclidean norm |
| Calculations.AgreesWithMatchedFrames | calculations.py:43-63 | For a table with the Yaw and velocity columns, this variant agrees cell for cell on Ur, Vr, Wr, U, V, W and Sc with wind_calc.py's winds applied after the frame match |
| Calculations.CalculateVectorWindsError | calculations.py:71-101 | The same outcomes as wind_calc.py's version: MD raises first, the result is None off the Yaw branch, and Um/Vm raise in it; otherwise U_err and V_err are added |
| Calculations.VectorWindsErrorBounds | calculations.py:80-87 | U_err is defined exactly where Yaw and Um are, and is then at least the aircraft velocity error |
| Calculations.ErrorVariantsAgree | calculations.py:71-101 | The two error variants fail alike, return None alike, and produce the same columns, row count and cells, except U_err; U_err also agrees in every row where Um equals Vm |

## Left out

- Floating point: cells are exact reals. IEEE rounding, infinities and signed zeros are not modelled. A division by zero and the root of a negative number give `NaN` instead of `inf`.
- Trigonometry, square root and atan2 are not computed. They are parameters (`Math`), constrained only by the facts that `ValidMath` and `Atan2InRange` list.
- `main.py`, `wind_correction.py` and `wind_plotter.py` are not part of this model. They handle file reading, merging of the logs, plotting and command-line handling.
- pandas index labels: row labels are taken to be the positions 0..n−1. The label slice `idx-2:idx+2` of `average_wrt_aeris` is modelled on positions. `reset_index` in `calculate_crosswind_dataframe` changes nothing, because the rows are already numbered by position.
- WindCalc.CalculateVectorWinds: the `using_dji_yaw` flag is accepted and ignored, because the lines that would use it are commented out in the source, so the heading is always Yaw.
- WindCalc.CrossWindErrOf follows the code, which multiplies the projected error by its normal component a second time (Nx²·(U_err_avg·Nx)²), and not the plain propagation formula.
- WindCalc.NonZero: the test `vy != np.nan` is always true in Python, NaN included, so it is modelled as a plain `!= 0.0`, and a NaN velocity takes the first branch and yields NaN.
- `dropna` and `drop` raise a KeyError for missing subset or drop columns. The model reports the first missing column; pandas may name several at once.
- Series.Mean and Series.Min: pandas' floating-point summation order and rounding are not modelled; the mean is the exact quotient.
- The plot label strings of `wind_consts.py` (the LaTeX names) are not modelled; only the numeric constants are.
- Calculations: `calculate_density` in `calculations.py` is the same code as in `wind_calc.py`, and is modelled once as `WindCalc.CalculateDensity`.
- Calculations.CalculateVectorWindsError: its V error is letter for letter the one of `wind_calc.py`, so it reuses `WindCalc.RowVErr`.
- WindUtils.WrapWindDir copies the raw bearings into a fresh `array` and clamps it in place. It then returns the array's contents. Aliasing between `wd` and the caller's series is not modelled.
- Copies (`df_in.copy()`) are implicit: tables are values, so no operation changes its input.
