/**
 * wind_calc.py: the wind pipeline.  Air density, the aircraft-to-sensor frame swap,
 * earth-frame winds and their propagated error, the windowed average around
 * chemical-sample rows, the payload filter, the cross-track normal vector and the
 * crosswind projection.  Each stage maps a table to a new table or raises a KeyError
 * (`Err(MissingColumn(c))`) for the first column it reads that the table lacks.
 */
module WindCalc {
  import opened Wrappers
  import opened Numerics
  import opened Tables
  import opened WindConsts
  import opened Rotation
  import opened WindUtils
  import opened ErrorPropagation
  import opened Series

  // ---------------------------------------------------------------------------
  // The merged-table pipeline

  /** The stages of `calculations_on_merged_df` before the average: density, winds and
      their error, the last of which returns None (here `NotATable`) without Yaw. */
  function BeforeAverage(m: Math, t: Table): Result<Table, Failure> {
    match CalculateDensity(m, t)
    case Err(e) => Err(e)
    case Ok(t1) =>
      match CalculateVectorWinds(m, t1, true)
      case Err(e) => Err(e)
      case Ok(t2) =>
        match CalculateVectorWindsError(m, t2, true)
        case Err(e) => Err(e)
        case Ok(None) => Err(NotATable)
        case Ok(Some(t3)) => Ok(t3)
  }

  /** The columns the stages before the average read, in the order they read them. */
  const MergedReads: seq<Column> := [P, T] + WindsReads + [MD]

  /** The columns `calculate_vector_winds` reads, in order. */
  const WindsReads: seq<Column> := [Yaw, Um, Vm, Wm, Vx, Vy, Vz]

  /** `calculations_on_merged_df`: the four stages in turn, stopping at the first failure. */
  method CalculationsOnMergedDf(m: Math, t: Table) returns (r: Result<Table, Failure>)
    ensures BeforeAverage(m, t).Err? ==> r == Err(BeforeAverage(m, t).error)
    ensures BeforeAverage(m, t).Ok? ==> AverageOutcome(BeforeAverage(m, t).value, r)
  {
    var pre := BeforeAverage(m, t);
    if pre.Err? {
      return Err(pre.error);
    }
    r := AverageWrtAeris(pre.value);
  }

  /** The winds stage demands Yaw, so the error stage never returns None here: the stages
      before the average fail exactly with the KeyError of the first column they read
      that the merged table lacks. */
  lemma BeforeAverageFailures(m: Math, t: Table)
    ensures BeforeAverage(m, t).Err? <==> FirstMissing(t, MergedReads).Some?
    ensures BeforeAverage(m, t).Err? ==> BeforeAverage(m, t).error == MissingColumn(FirstMissing(t, MergedReads).value)
  {
    MergedReadsOrder(t);
    if P !in t.columns || T !in t.columns {
      DensityStageFails(m, t);
      if P !in t.columns {
        FirstMissingAt(t, [P, T], 0);
      } else {
        FirstMissingAt(t, [P, T], 1);
      }
    } else {
      FirstMissingNone(t, [P, T]);
      if FirstMissing(t, WindsReads).Some? {
        WindsStageFails(m, t);
      } else {
        WindsStagePasses(m, t);
        if MD in t.columns {
          FirstMissingNone(t, [MD]);
        } else {
          FirstMissingAt(t, [MD], 0);
        }
      }
    }
  }

  /** The first missing column of the merged reads, stage by stage. */
  lemma MergedReadsOrder(t: Table)
    ensures FirstMissing(t, MergedReads) ==
      if FirstMissing(t, [P, T]).Some? then FirstMissing(t, [P, T])
      else if FirstMissing(t, WindsReads).Some? then FirstMissing(t, WindsReads)
      else FirstMissing(t, [MD])
  {
    assert MergedReads == [P, T] + (WindsReads + [MD]);
    FirstMissingAppend(t, [P, T], WindsReads + [MD]);
    FirstMissingAppend(t, WindsReads, [MD]);
  }

  lemma DensityStageFails(m: Math, t: Table)
    requires P !in t.columns || T !in t.columns
    ensures BeforeAverage(m, t) == Err(MissingColumn(if P !in t.columns then P else T))
  {
  }

  lemma WindsStageFails(m: Math, t: Table)
    requires P in t.columns && T in t.columns && FirstMissing(t, WindsReads).Some?
    ensures BeforeAverage(m, t) == Err(MissingColumn(FirstMissing(t, WindsReads).value))
  {
    DensityKeepsWindsReads(t, CalculateDensity(m, t).value);
  }

  /** Adding Rho and Rho_err changes none of the columns the winds stage reads. */
  lemma DensityKeepsWindsReads(t: Table, d: Table)
    requires d.columns == t.columns + {Rho, RhoErr}
    ensures FirstMissing(d, WindsReads) == FirstMissing(t, WindsReads)
  {
    FirstMissingSameColumns(t, d, WindsReads);
  }

  lemma WindsStagePasses(m: Math, t: Table)
    requires P in t.columns && T in t.columns && FirstMissing(t, WindsReads).None?
    ensures BeforeAverage(m, t).Ok? <==> MD in t.columns
    ensures MD !in t.columns ==> BeforeAverage(m, t) == Err(MissingColumn(MD))
  {
    var d := CalculateDensity(m, t).value;
    DensityKeepsWindsReads(t, d);
    var w := CalculateVectorWinds(m, d, true).value;
    WindsStageColumns(t.columns, d.columns, w.columns);
    ErrorStageWithYaw(m, w);
  }

  /** The winds stage keeps the columns it read and adds none of MD's name. */
  lemma WindsStageColumns(t: set<Column>, d: set<Column>, w: set<Column>)
    requires d == t + {Rho, RhoErr} && w == d + WindColumns
    requires {Yaw, Um, Vm} <= d
    ensures Yaw in w && Um in w && Vm in w && (MD in w <==> MD in t)
  {
  }

  /** With Yaw, Um and Vm present and the flag set, the error stage returns a table
      exactly when MD is present, and otherwise raises the KeyError for MD. */
  lemma ErrorStageWithYaw(m: Math, w: Table)
    requires Yaw in w.columns && Um in w.columns && Vm in w.columns
    ensures MD in w.columns ==> CalculateVectorWindsError(m, w, true).Ok? && CalculateVectorWindsError(m, w, true).value.Some?
    ensures MD !in w.columns ==> CalculateVectorWindsError(m, w, true) == Err(MissingColumn(MD))
  {
  }

  // ---------------------------------------------------------------------------
  // Air density

  /** Molar mass of air in kg/mol. */
  const MAir: real := MmAir * 0.001

  /** Density coefficient M_air / R. */
  const DensityScale: real := MAir / GasConstant

  /** rho = (M_air / R) * (100 P / (T + 273.15)) */
  function RhoOf(p: Num, t: Num): Num {
    var pressure := Times(p, Num(100.0));
    var temperature := Plus(t, Num(273.15));
    Times(Num(DensityScale), Over(pressure, temperature))
  }

  /** (M_air / R) * sqrt((dP / T_K)^2 + (100 P dT / T_K^2)^2) */
  function RhoErrOf(m: Math, p: Num, t: Num): Num {
    var pressure := Times(p, Num(100.0));
    var temperature := Plus(t, Num(273.15));
    Times(Num(DensityScale), Sqrt(m, Plus(
      Square(Over(Num(ErrTrisonicaP), temperature)),
      Square(Over(Times(pressure, Num(ErrTrisonicaT)), Square(temperature))))))
  }

  function DensityRow(m: Math, r: Row): Row {
    var rho := RhoOf(Get(r, P), Get(r, T));
    var rhoErr := RhoErrOf(m, Get(r, P), Get(r, T));
    Put(Put(r, Rho, rho), RhoErr, rhoErr)
  }

  /** `calculate_density`: adds Rho and Rho_err, leaving every other cell as it was. */
  function CalculateDensity(m: Math, t: Table): (r: Result<Table, Failure>)
    ensures r.Err? <==> P !in t.columns || T !in t.columns
    ensures r.Err? ==> r.error == MissingColumn(if P !in t.columns then P else T)
    ensures r.Ok? ==> r.value.columns == t.columns + {Rho, RhoErr} && |r.value.rows| == |t.rows|
    ensures r.Ok? ==> forall i :: 0 <= i < |t.rows| ==>
      && Get(r.value.rows[i], Rho) == RhoOf(Get(t.rows[i], P), Get(t.rows[i], T))
      && Get(r.value.rows[i], RhoErr) == RhoErrOf(m, Get(t.rows[i], P), Get(t.rows[i], T))
    ensures r.Ok? ==> forall i, c :: 0 <= i < |t.rows| && c != Rho && c != RhoErr ==>
      Get(r.value.rows[i], c) == Get(t.rows[i], c)
    ensures r.Ok? && WellFormed(t) ==> WellFormed(r.value)
  {
    match FirstMissing(t, [P, T])
    case Some(c) => Err(MissingColumn(c))
    case None =>
      Ok(Table(t.columns + {Rho, RhoErr}, seq(|t.rows|, i requires 0 <= i < |t.rows| => DensityRow(m, t.rows[i]))))
  }

  /** Density is defined exactly when the absolute temperature is not zero, and is then
      positive for a positive pressure above absolute zero. */
  lemma DensityPositive(p: real, t: real)
    ensures RhoOf(Num(p), Num(t)).Num? <==> t != -273.15
    ensures p > 0.0 && t > -273.15 ==> RhoOf(Num(p), Num(t)).value > 0.0
  {
    if p > 0.0 && t > -273.15 {
      QuotientPositive(p * 100.0, t + 273.15);
      QuotientPositive(MAir, GasConstant);
    }
  }

  /** At a fixed temperature density is linear in pressure. */
  lemma DensityLinearInPressure(p1: real, p2: real, k: real, t: real)
    requires t != -273.15
    ensures RhoOf(Num(k * p1 + p2), Num(t)).value
         == k * RhoOf(Num(p1), Num(t)).value + RhoOf(Num(p2), Num(t)).value
  {
    var tk := t + 273.15;
    assert ((k * p1 + p2) * 100.0) / tk == k * ((p1 * 100.0) / tk) + (p2 * 100.0) / tk;
  }

  /** (dP / T_K)^2 + (100 P dT / T_K^2)^2, the quantity under the root of the density error. */
  function DensityRadicand(p: real, t: real): real
    requires t != -273.15
  {
    var tk := t + 273.15;
    var a, b := ErrTrisonicaP / tk, (p * 100.0 * ErrTrisonicaT) / (tk * tk);
    a * a + b * b
  }

  /** The density error written out as a real formula. */
  lemma DensityErrorValue(m: Math, p: real, t: real)
    requires t != -273.15
    ensures RhoErrOf(m, Num(p), Num(t)) == Num(DensityScale * m.sqrt(DensityRadicand(p, t)))
  {
    var tk := t + 273.15;
    assert tk * tk != 0.0;
    var a, b := ErrTrisonicaP / tk, (p * 100.0 * ErrTrisonicaT) / (tk * tk);
    var temperature := Plus(Num(t), Num(273.15));
    assert temperature == Num(tk);
    assert Square(temperature) == Num(tk * tk);
    assert Over(Num(ErrTrisonicaP), temperature) == Num(a);
    assert Over(Times(Times(Num(p), Num(100.0)), Num(ErrTrisonicaT)), Square(temperature)) == Num(b);
    var sum := a * a + b * b;
    assert sum == DensityRadicand(p, t);
    assert Plus(Square(Num(a)), Square(Num(b))) == Num(sum);
    assert 0.0 <= a * a && 0.0 <= b * b;
    assert Sqrt(m, Num(sum)) == Num(m.sqrt(sum));
  }

  /** The density error is defined wherever density is, is positive, and is at least
      its pressure term (M_air / R) * dP / |T_K| alone. */
  lemma DensityErrorBound(m: Math, p: real, t: real)
    requires ValidMath(m)
    requires t != -273.15
    ensures RhoErrOf(m, Num(p), Num(t)).Num?
    ensures RhoErrOf(m, Num(p), Num(t)).value >= DensityScale * (ErrTrisonicaP / Abs(t + 273.15))
    ensures RhoErrOf(m, Num(p), Num(t)).value > 0.0
  {
    var tk := t + 273.15;
    var a, b := ErrTrisonicaP / tk, (p * 100.0 * ErrTrisonicaT) / (tk * tk);
    DensityErrorValue(m, p, t);
    assert DensityRadicand(p, t) == a * a + b * b;
    assert 0.0 <= b * b;
    assert Abs(a) * Abs(a) == a * a;
    SqrtAtLeast(m, a * a + b * b, Abs(a));
    QuotientAbs(ErrTrisonicaP, tk);
    QuotientPositive(ErrTrisonicaP, Abs(tk));
    QuotientPositive(MAir, GasConstant);
    var s := m.sqrt(a * a + b * b);
    assert DensityScale * s >= DensityScale * Abs(a);
  }

  // ---------------------------------------------------------------------------
  // Reference frames

  function MatchFramesRow(r: Row): Row {
    Put(Put(Put(r, Vx, Get(r, Vy)), Vy, Get(r, Vx)), Vz, Negate(Get(r, Vz)))
  }

  /** `calc_matching_reference_frames`: swaps Vx and Vy and negates Vz. */
  function CalcMatchingReferenceFrames(t: Table): (r: Result<Table, Failure>)
    ensures r.Err? <==> Vx !in t.columns || Vy !in t.columns || Vz !in t.columns
    ensures r.Err? ==> r.error == MissingColumn(FirstMissing(t, [Vy, Vx, Vz]).value)
    ensures r.Ok? ==> r.value.columns == t.columns && |r.value.rows| == |t.rows|
    ensures r.Ok? ==> forall i :: 0 <= i < |t.rows| ==>
      && Get(r.value.rows[i], Vx) == Get(t.rows[i], Vy)
      && Get(r.value.rows[i], Vy) == Get(t.rows[i], Vx)
      && Get(r.value.rows[i], Vz) == Negate(Get(t.rows[i], Vz))
    ensures r.Ok? ==> forall i, c :: 0 <= i < |t.rows| && c != Vx && c != Vy && c != Vz ==>
      Get(r.value.rows[i], c) == Get(t.rows[i], c)
    ensures r.Ok? && WellFormed(t) ==> WellFormed(r.value)
  {
    match FirstMissing(t, [Vy, Vx, Vz])
    case Some(c) => Err(MissingColumn(c))
    case None => Ok(Table(t.columns, seq(|t.rows|, i requires 0 <= i < |t.rows| => MatchFramesRow(t.rows[i]))))
  }

  /** Matching the frames twice gives back the input table. */
  lemma MatchingFramesInvolution(t: Table)
    requires WellFormed(t)
    requires CalcMatchingReferenceFrames(t).Ok?
    ensures CalcMatchingReferenceFrames(CalcMatchingReferenceFrames(t).value) == Ok(t)
  {
    var once := CalcMatchingReferenceFrames(t).value;
    var twice := CalcMatchingReferenceFrames(once).value;
    assert |twice.rows| == |t.rows|;
    forall i | 0 <= i < |t.rows| ensures twice.rows[i] == t.rows[i] {
      MatchFramesRowTwice(t.rows[i]);
    }
    assert twice.rows == t.rows;
  }

  lemma MatchFramesRowTwice(r: Row)
    requires {Vx, Vy, Vz} <= r.Keys
    ensures MatchFramesRow(MatchFramesRow(r)) == r
  {
    var twice := MatchFramesRow(MatchFramesRow(r));
    forall c ensures Get(twice, c) == Get(r, c) {
      if c == Vz {
        assert Get(twice, c) == Negate(Negate(Get(r, c)));
      }
    }
    RowExt(twice, r);
  }

  // ---------------------------------------------------------------------------
  // Earth-frame winds

  /** The wrap factor `calculate_vector_winds` passes to `wrap_wind_dir` (its default). */
  const DefaultWrapFactor: real := 2.0

  /** The columns `calculate_vector_winds` writes. */
  const WindColumns: set<Column> := {Vr, Ur, Wr, Sc, V, U, W, WD}

  /** The heading in radians, from Yaw. */
  function YawPhi(r: Row): Num {
    Radians(Get(r, Yaw))
  }

  function RowUr(m: Math, r: Row): Num {
    RotatedU(m, Get(r, Um), Get(r, Vm), YawPhi(r))
  }

  function RowVr(m: Math, r: Row): Num {
    RotatedV(m, Get(r, Um), Get(r, Vm), YawPhi(r))
  }

  /** Earth-frame components: the rotated wind plus the aircraft velocity on each axis. */
  function RowU(m: Math, r: Row): Num {
    Plus(RowUr(m, r), Get(r, Vx))
  }

  function RowV(m: Math, r: Row): Num {
    Plus(RowVr(m, r), Get(r, Vy))
  }

  function RowW(r: Row): Num {
    Plus(Get(r, Wm), Get(r, Vz))
  }

  function VectorWindsRow(m: Math, r: Row): (r': Row)
    ensures Get(r', Ur) == RowUr(m, r) && Get(r', Vr) == RowVr(m, r) && Get(r', Wr) == Get(r, Wm)
    ensures Get(r', U) == RowU(m, r) && Get(r', V) == RowV(m, r) && Get(r', W) == RowW(r)
    ensures Get(r', Sc) == Speed(m, RowU(m, r), RowV(m, r))
    ensures Get(r', WD) == WrapBearing(RawBearing(m, RowU(m, r), RowV(m, r)), DefaultWrapFactor)
    ensures forall c :: c !in WindColumns ==> Get(r', c) == Get(r, c)
    ensures r'.Keys == r.Keys + WindColumns
  {
    var u, v := RowU(m, r), RowV(m, r);
    var r1 := Put(Put(Put(r, Vr, RowVr(m, r)), Ur, RowUr(m, r)), Wr, Get(r, Wm));
    var r2 := Put(Put(Put(Put(r1, Sc, Speed(m, u, v)), V, v), U, u), W, RowW(r));
    Put(r2, WD, WrapBearing(RawBearing(m, u, v), DefaultWrapFactor))
  }

  /**
   * `calculate_vector_winds` of wind_calc.py.  The heading is always Yaw: the flag
   * `usingDjiYaw` is accepted and ignored, as the lines that used it are commented out.
   */
  function CalculateVectorWinds(m: Math, t: Table, usingDjiYaw: bool): (r: Result<Table, Failure>)
    ensures r.Err? <==> !({Yaw, Um, Vm, Wm, Vx, Vy, Vz} <= t.columns)
    ensures r.Err? ==> r.error == MissingColumn(FirstMissing(t, WindsReads).value)
    ensures r.Ok? ==> r.value.columns == t.columns + WindColumns && |r.value.rows| == |t.rows|
    ensures r.Ok? ==> forall i :: 0 <= i < |t.rows| ==> r.value.rows[i] == VectorWindsRow(m, t.rows[i])
    ensures r.Ok? && WellFormed(t) ==> WellFormed(r.value)
  {
    match FirstMissing(t, WindsReads)
    case Some(c) => Err(MissingColumn(c))
    case None => Ok(Table(t.columns + WindColumns, seq(|t.rows|, i requires 0 <= i < |t.rows| => VectorWindsRow(m, t.rows[i]))))
  }

  /** The cell values of a row are real numbers in every column listed. */
  predicate Defined(r: Row, cs: set<Column>) {
    forall c :: c in cs ==> Get(r, c).Num?
  }

  /** Rotating by the heading keeps the squared norm of the horizontal sensor wind. */
  lemma VectorWindsKeepNorm(m: Math, r: Row)
    requires ValidMath(m)
    requires Get(r, Yaw).Num? && Get(r, Um).Num? && Get(r, Vm).Num?
    ensures RowUr(m, r).Num? && RowVr(m, r).Num?
    ensures RowUr(m, r).value * RowUr(m, r).value + RowVr(m, r).value * RowVr(m, r).value
         == Get(r, Um).value * Get(r, Um).value + Get(r, Vm).value * Get(r, Vm).value
  {
    var um, vm, phi := Get(r, Um).value, Get(r, Vm).value, YawPhi(r).value;
    RotationPreservesNorm(m, um, vm, phi);
  }

  /** 270 - atan2(v, u) in degrees lies in [90, 450]. */
  lemma RawBearingRange(m: Math, u: real, v: real)
    requires Atan2InRange(m)
    ensures RawBearing(m, Num(u), Num(v)).Num?
    ensures 90.0 <= RawBearing(m, Num(u), Num(v)).value <= 450.0
  {
    var a := m.atan2(v, u);
    assert -Pi <= a <= Pi;
    var q := a / Pi;
    assert q * Pi == a;
    assert -1.0 <= q <= 1.0;
    assert a * 180.0 / Pi == q * 180.0;
  }

  /** Wherever the earth-frame U and V are defined, the speed Sc is their non-negative
      norm and the direction WD lies in (0, 720]. */
  lemma VectorWindsSpeedAndDirection(m: Math, r: Row)
    requires ValidMath(m) && Atan2InRange(m)
    requires RowU(m, r).Num? && RowV(m, r).Num?
    ensures var u, v := RowU(m, r).value, RowV(m, r).value;
      var sc, wd := Speed(m, Num(u), Num(v)), WrapBearing(RawBearing(m, Num(u), Num(v)), DefaultWrapFactor);
      && sc.Num? && wd.Num?
      && 0.0 <= sc.value && sc.value * sc.value == u * u + v * v
      && 0.0 < wd.value <= DefaultWrapFactor * 360.0
  {
    var u, v := RowU(m, r).value, RowV(m, r).value;
    SpeedIsNorm(m, u, v);
    RawBearingRange(m, u, v);
    var raw := RawBearing(m, Num(u), Num(v)).value;
    BearingPositive(raw, DefaultWrapFactor);
    BearingAtMostLimit(raw, DefaultWrapFactor);
  }

  // ---------------------------------------------------------------------------
  // Error propagation (wind_calc.py variant)

  /** du/dUm = cos(phi) + sin(phi) */
  function DuDum(m: Math, phi: Num): Num {
    Plus(Cos(m, phi), Sin(m, phi))
  }

  /** dv/dVm = -sin(phi) + cos(phi) */
  function DvDvm(m: Math, phi: Num): Num {
    Plus(Negate(Sin(m, phi)), Cos(m, phi))
  }

  /** dv/dphi = -Vm cos(phi) - Vm sin(phi) */
  function DvDphi(m: Math, vm: Num, phi: Num): Num {
    Minus(Times(Negate(vm), Cos(m, phi)), Times(vm, Sin(m, phi)))
  }

  /** du/dphi as wind_calc.py writes it: -Um sin(phi) + Vm cos(phi). */
  function DuDphi(m: Math, um: Num, vm: Num, phi: Num): Num {
    Plus(Times(Negate(um), Sin(m, phi)), Times(vm, Cos(m, phi)))
  }

  function RowUErr(m: Math, r: Row): Num {
    var phi := YawPhi(r);
    PropagatedError(m, DuDum(m, phi), ErrTrisonicaUm, DuDphi(m, Get(r, Um), Get(r, Vm), phi), ErrM600pPhi, ErrM600pVy)
  }

  function RowVErr(m: Math, r: Row): Num {
    var phi := YawPhi(r);
    PropagatedError(m, DvDvm(m, phi), ErrTrisonicaVm, DvDphi(m, Get(r, Vm), phi), ErrM600pPhi, ErrM600pVx)
  }

  /**
   * `calculate_vector_winds_error` of wind_calc.py.  The table is returned only from
   * inside the Yaw branch: without the flag or without a Yaw column the function
   * returns Python's None (`Ok(None)` here).  MD is read, and so required, either way.
   */
  function CalculateVectorWindsError(m: Math, t: Table, usingDjiYaw: bool): (r: Result<Option<Table>, Failure>)
    ensures MD !in t.columns ==> r == Err(MissingColumn(MD))
    ensures r == Ok(None) <==> MD in t.columns && !(usingDjiYaw && Yaw in t.columns)
    ensures r.Err? <==> MD !in t.columns || (usingDjiYaw && Yaw in t.columns && !({Um, Vm} <= t.columns))
    ensures r.Ok? && r.value.Some? ==>
      && r.value.value.columns == t.columns + {UErr, VErr} && |r.value.value.rows| == |t.rows|
      && forall i :: 0 <= i < |t.rows| ==>
           r.value.value.rows[i] == t.rows[i][VErr := RowVErr(m, t.rows[i])][UErr := RowUErr(m, t.rows[i])]
    ensures r.Ok? && r.value.Some? && WellFormed(t) ==> WellFormed(r.value.value)
  {
    if MD !in t.columns then Err(MissingColumn(MD))
    else if !(usingDjiYaw && Yaw in t.columns) then Ok(None)
    else match FirstMissing(t, [Um, Vm])
      case Some(c) => Err(MissingColumn(c))
      case None =>
        Ok(Some(Table(t.columns + {UErr, VErr}, seq(|t.rows|, i requires 0 <= i < |t.rows| =>
          t.rows[i][VErr := RowVErr(m, t.rows[i])][UErr := RowUErr(m, t.rows[i])]))))
  }

  /** Each propagated error is at least the aircraft velocity error, because each
      velocity partial is 1; it is defined exactly where Yaw, Um and Vm are. */
  lemma VectorWindsErrorBounds(m: Math, t: Table, usingDjiYaw: bool, i: nat)
    requires ValidMath(m)
    requires CalculateVectorWindsError(m, t, usingDjiYaw).Ok? && CalculateVectorWindsError(m, t, usingDjiYaw).value.Some?
    requires i < |t.rows|
    ensures var r := CalculateVectorWindsError(m, t, usingDjiYaw).value.value.rows[i];
      && (Get(r, UErr).Num? <==> Defined(t.rows[i], {Yaw, Um, Vm}))
      && (Get(r, VErr).Num? <==> Defined(t.rows[i], {Yaw, Vm}))
      && (Get(r, UErr).Num? ==> Get(r, UErr).value >= ErrM600pVy)
      && (Get(r, VErr).Num? ==> Get(r, VErr).value >= ErrM600pVx)
  {
    var row := t.rows[i];
    var phi := YawPhi(row);
    PropagatedErrorAtLeastVelocityError(m, DuDum(m, phi), ErrTrisonicaUm, DuDphi(m, Get(row, Um), Get(row, Vm), phi), ErrM600pPhi, ErrM600pVy);
    PropagatedErrorAtLeastVelocityError(m, DvDvm(m, phi), ErrTrisonicaVm, DvDphi(m, Get(row, Vm), phi), ErrM600pPhi, ErrM600pVx);
  }

  // ---------------------------------------------------------------------------
  // Windowed average around chemical-sample rows

  /** The columns averaged around each row that carries a CH4 sample. */
  const AvgKeys: seq<Column> := [Sc, WD, V, U, W, UErr, VErr]

  /** The "<key>_avg" columns that `average_wrt_aeris` writes. */
  const AvgColumns: set<Column> := {Avg(Sc), Avg(WD), Avg(V), Avg(U), Avg(W), Avg(UErr), Avg(VErr)}

  /** AvgColumns lists the "<key>_avg" column of each key of AvgKeys, and nothing else. */
  lemma AvgColumnsIndexed()
    ensures (set b | 0 <= b < |AvgKeys| :: Avg(AvgKeys[b])) == AvgColumns
  {
    var s := set b | 0 <= b < |AvgKeys| :: Avg(AvgKeys[b]);
    assert Avg(AvgKeys[0]) in s && Avg(AvgKeys[1]) in s && Avg(AvgKeys[2]) in s && Avg(AvgKeys[3]) in s;
    assert Avg(AvgKeys[4]) in s && Avg(AvgKeys[5]) in s && Avg(AvgKeys[6]) in s;
    forall c | c in s
      ensures c in AvgColumns
    {
      var b :| 0 <= b < |AvgKeys| && c == Avg(AvgKeys[b]);
      assert b == 0 || b == 1 || b == 2 || b == 3 || b == 4 || b == 5 || b == 6;
    }
  }

  /** Row i carries a CH4 sample (`df['CH4'].notnull()`). */
  predicate IsMarker(t: Table, i: nat)
    requires i < |t.rows|
  {
    Get(t.rows[i], CH4).Num?
  }

  predicate HasMarker(t: Table) {
    exists i :: 0 <= i < |t.rows| && IsMarker(t, i)
  }

  /** The first row of the label slice idx-2 : idx+2 (inclusive) over positions 0..n-1. */
  function WindowLo(i: nat): nat {
    if i >= 2 then i - 2 else 0
  }

  /** One past the last row of that slice. */
  function WindowHi(t: Table, i: nat): nat {
    if i + 3 <= |t.rows| then i + 3 else |t.rows|
  }

  /** The cells of column k in the rows within two of row i. */
  function Window(t: Table, k: Column, i: nat): seq<Num>
    requires i < |t.rows|
  {
    Values(t, k)[WindowLo(i)..WindowHi(t, i)]
  }

  /** The mean that an "<k>_avg" cell of a CH4 row i receives. */
  function WindowMean(t: Table, c: Column, i: nat): Num
    requires i < |t.rows|
  {
    if c.Avg? then Mean(Window(t, c.of, i)) else NaN
  }

  /** The "<k>_avg" cell c of row i: the window mean at a sample row, NaN elsewhere. */
  function AvgCell(t: Table, c: Column, i: nat): Num
    requires i < |t.rows|
  {
    if IsMarker(t, i) then WindowMean(t, c, i) else NaN
  }

  /** The window holds the row itself and at most two rows on either side of it. */
  lemma WindowSpan(t: Table, k: Column, i: nat)
    requires i < |t.rows|
    ensures WindowLo(i) <= i < WindowHi(t, i) <= |t.rows|
    ensures |Window(t, k, i)| == WindowHi(t, i) - WindowLo(i) <= 5
    ensures i - WindowLo(i) <= 2 && WindowHi(t, i) - i <= 3
    ensures forall j :: WindowLo(i) <= j < WindowHi(t, i) ==> Window(t, k, i)[j - WindowLo(i)] == Get(t.rows[j], k)
  {
  }

  /** An average cell is defined exactly at a CH4 row whose window has a present cell. */
  lemma AvgCellDefined(t: Table, k: Column, i: nat)
    requires i < |t.rows|
    ensures AvgCell(t, Avg(k), i).Num? <==>
      IsMarker(t, i) && exists j :: WindowLo(i) <= j < WindowHi(t, i) && Get(t.rows[j], k).Num?
  {
    WindowSpan(t, k, i);
    var w := Window(t, k, i);
    if AnyPresent(w) {
      var j :| 0 <= j < |w| && w[j].Num?;
      assert Get(t.rows[WindowLo(i) + j], k).Num?;
    }
    if exists j :: WindowLo(i) <= j < WindowHi(t, i) && Get(t.rows[j], k).Num? {
      var j :| WindowLo(i) <= j < WindowHi(t, i) && Get(t.rows[j], k).Num?;
      assert w[j - WindowLo(i)].Num?;
    }
  }

  /** An average lies within the range of the cells it averages. */
  lemma AvgCellBetween(t: Table, k: Column, i: nat, lo: real, hi: real)
    requires i < |t.rows|
    requires forall j :: WindowLo(i) <= j < WindowHi(t, i) && Get(t.rows[j], k).Num? ==>
      lo <= Get(t.rows[j], k).value <= hi
    ensures AvgCell(t, Avg(k), i).Num? ==> lo <= AvgCell(t, Avg(k), i).value <= hi
  {
    WindowSpan(t, k, i);
    var w := Window(t, k, i);
    forall j | 0 <= j < |w| && w[j].Num?
      ensures lo <= w[j].value <= hi
    {
      assert w[j] == Get(t.rows[WindowLo(i) + j], k);
    }
    MeanBetween(w, lo, hi);
  }

  /**
   * What `average_wrt_aeris` yields for t: the KeyError for CH4, or for the first
   * missing key when there is a CH4 row; otherwise t with the "<key>_avg" columns
   * added, holding AvgCell, and every other cell unchanged.
   */
  ghost predicate AverageOutcome(t: Table, r: Result<Table, Failure>) {
    && (r.Err? <==> CH4 !in t.columns || (HasMarker(t) && FirstMissing(t, AvgKeys).Some?))
    && (r.Err? ==> r.error == MissingColumn(if CH4 !in t.columns then CH4 else FirstMissing(t, AvgKeys).value))
    && (r.Ok? ==> r.value.columns == t.columns + AvgColumns && |r.value.rows| == |t.rows|)
    && (r.Ok? ==> forall i, c :: 0 <= i < |t.rows| && c in AvgColumns ==>
          Get(r.value.rows[i], c) == AvgCell(t, c, i))
    && (r.Ok? ==> forall i, c :: 0 <= i < |t.rows| && c !in AvgColumns ==>
          Get(r.value.rows[i], c) == Get(t.rows[i], c))
    && (r.Ok? ==> forall i :: 0 <= i < |t.rows| ==> r.value.rows[i].Keys == t.rows[i].Keys + AvgColumns)
  }

  /**
   * `average_wrt_aeris`: every "<key>_avg" column is first cleared to NaN, then
   * filled at each CH4 row with the mean of the key's present cells within two rows.
   * Reading CH4 raises first; a missing key raises at the first CH4 row only.
   */
  method AverageWrtAeris(t: Table) returns (r: Result<Table, Failure>)
    ensures AverageOutcome(t, r)
  {
    if CH4 !in t.columns {
      return Err(MissingColumn(CH4));
    }
    var cleared := ClearAverages(t.rows);
    var rows := cleared;
    var n := |t.rows|;
    ghost var seen := false;
    for i := 0 to n
      invariant |rows| == n
      invariant seen <==> exists a :: 0 <= a < i && IsMarker(t, a)
      invariant seen ==> FirstMissing(t, AvgKeys).None?
      invariant forall a :: 0 <= a < i ==> RowAveraged(t, a, rows[a], cleared[a])
      invariant forall a :: i <= a < n ==> rows[a] == cleared[a]
    {
      if IsMarker(t, i) {
        var filled := FillAverages(t, i, rows[i]);
        if filled.Err? {
          return Err(filled.error);
        }
        assert RowAveraged(t, i, filled.value, cleared[i]);
        rows := rows[i := filled.value];
      }
      seen := seen || IsMarker(t, i);
    }
    forall a | 0 <= a < n
      ensures forall c :: c in AvgColumns ==> Get(rows[a], c) == AvgCell(t, c, a)
      ensures forall c :: c !in AvgColumns ==> Get(rows[a], c) == Get(t.rows[a], c)
      ensures rows[a].Keys == t.rows[a].Keys + AvgColumns
    {
      assert RowAveraged(t, a, rows[a], cleared[a]);
    }
    return Ok(Table(t.columns + AvgColumns, rows));
  }

  /** Row a after its turn came: its "<key>_avg" cells hold AvgCell, all else as in base. */
  ghost predicate RowAveraged(t: Table, a: nat, row: Row, base: Row)
    requires a < |t.rows|
  {
    && row.Keys == base.Keys
    && forall c :: Get(row, c) == if c in AvgColumns then AvgCell(t, c, a) else Get(base, c)
  }

  /** The first loop of `average_wrt_aeris`: each "<key>_avg" column set to NaN in every row. */
  method ClearAverages(rows: seq<Row>) returns (out: seq<Row>)
    ensures |out| == |rows|
    ensures forall a, c :: 0 <= a < |rows| ==> Get(out[a], c) == if c in AvgColumns then NaN else Get(rows[a], c)
    ensures forall a :: 0 <= a < |rows| ==> out[a].Keys == rows[a].Keys + AvgColumns
  {
    out := rows;
    ghost var done: set<Column> := {};
    for j := 0 to |AvgKeys|
      invariant |out| == |rows|
      invariant done == set b | 0 <= b < j :: Avg(AvgKeys[b])
      invariant forall a, c :: 0 <= a < |rows| ==> Get(out[a], c) == if c in done then NaN else Get(rows[a], c)
      invariant forall a :: 0 <= a < |rows| ==> out[a].Keys == rows[a].Keys + done
    {
      var key := AvgKeys[j];
      out := seq(|out|, a requires 0 <= a < |out| => Put(out[a], Avg(key), NaN));
      done := done + {Avg(key)};
    }
    AvgColumnsIndexed();
  }

  /** The inner loop of `average_wrt_aeris` at CH4 row i: each "<key>_avg" cell set to
      the window mean of the key, or the KeyError of the first key the table lacks. */
  method FillAverages(t: Table, i: nat, row: Row) returns (r: Result<Row, Failure>)
    requires i < |t.rows|
    ensures r.Err? <==> FirstMissing(t, AvgKeys).Some?
    ensures r.Err? ==> r.error == MissingColumn(FirstMissing(t, AvgKeys).value)
    ensures r.Ok? ==> r.value.Keys == row.Keys + AvgColumns
    ensures r.Ok? ==> forall c :: Get(r.value, c) == if c in AvgColumns then WindowMean(t, c, i) else Get(row, c)
  {
    var out := row;
    ghost var done: set<Column> := {};
    for j := 0 to |AvgKeys|
      invariant forall b :: 0 <= b < j ==> AvgKeys[b] in t.columns
      invariant done == set b | 0 <= b < j :: Avg(AvgKeys[b])
      invariant out.Keys == row.Keys + done
      invariant forall c :: Get(out, c) == if c in done then WindowMean(t, c, i) else Get(row, c)
    {
      var key := AvgKeys[j];
      if key !in t.columns {
        FirstMissingAt(t, AvgKeys, j);
        return Err(MissingColumn(key));
      }
      out := Put(out, Avg(key), WindowMean(t, Avg(key), i));
      done := done + {Avg(key)};
    }
    FirstMissingNone(t, AvgKeys);
    AvgColumnsIndexed();
    return Ok(out);
  }

  // ---------------------------------------------------------------------------
  // Payload filter

  /** Both chemical readings of the row are present. */
  predicate HasPayload(r: Row) {
    Get(r, CH4).Num? && Get(r, C2H6).Num?
  }

  /** The rows carrying both readings, in their original order. */
  function PayloadRows(rows: seq<Row>): (out: seq<Row>)
    ensures forall i :: 0 <= i < |out| ==> HasPayload(out[i])
    ensures forall r :: r in rows && HasPayload(r) ==> r in out
    ensures multiset(out) <= multiset(rows)
  {
    if rows == [] then []
    else
      var rest := PayloadRows(rows[1..]);
      assert rows == [rows[0]] + rows[1..];
      assert multiset(rows) == multiset{rows[0]} + multiset(rows[1..]);
      if HasPayload(rows[0]) then [rows[0]] + rest else rest
  }

  /** `filter_payload_nulls`: `dropna` on CH4 and C2H6, which must both be columns. */
  function FilterPayloadNulls(t: Table): (r: Result<Table, Failure>)
    ensures r.Err? <==> CH4 !in t.columns || C2H6 !in t.columns
    ensures r.Err? ==> r.error == MissingColumn(if CH4 !in t.columns then CH4 else C2H6)
    ensures r.Ok? ==> r.value.columns == t.columns && r.value.rows == PayloadRows(t.rows)
  {
    match FirstMissing(t, [CH4, C2H6])
    case Some(c) => Err(MissingColumn(c))
    case None => Ok(Table(t.columns, PayloadRows(t.rows)))
  }

  /** Filtering splits over concatenation, so the kept rows keep their order. */
  lemma {:induction false} PayloadRowsAppend(a: seq<Row>, b: seq<Row>)
    ensures PayloadRows(a + b) == PayloadRows(a) + PayloadRows(b)
  {
    if a == [] {
      assert a + b == b;
    } else {
      assert (a + b)[0] == a[0] && (a + b)[1..] == a[1..] + b;
      PayloadRowsAppend(a[1..], b);
    }
  }

  /** A second filter removes nothing. */
  lemma {:induction false} PayloadRowsIdempotent(rows: seq<Row>)
    ensures PayloadRows(PayloadRows(rows)) == PayloadRows(rows)
  {
    if rows != [] {
      PayloadRowsIdempotent(rows[1..]);
      if HasPayload(rows[0]) {
        var rest := PayloadRows(rows[1..]);
        assert ([rows[0]] + rest)[1..] == rest;
      }
    }
  }

  /** A table whose rows all carry both readings passes the filter unchanged. */
  lemma {:induction false} PayloadRowsKeepsComplete(rows: seq<Row>)
    requires forall i :: 0 <= i < |rows| ==> HasPayload(rows[i])
    ensures PayloadRows(rows) == rows
  {
    if rows != [] {
      assert forall i :: 0 <= i < |rows[1..]| ==> rows[1..][i] == rows[i + 1];
      PayloadRowsKeepsComplete(rows[1..]);
      assert rows == [rows[0]] + rows[1..];
    }
  }

  // ---------------------------------------------------------------------------
  // Quadratic roots and the cross-track normal

  /** b^2 - 4ac */
  function Discriminant(a: real, b: real, c: real): real {
    b * b - 4.0 * a * c
  }

  /** `quadratic_equ`: the roots (-b + sqrt(d)) / 2a and (-b - sqrt(d)) / 2a of
      a x^2 + b x + c, with d the discriminant.  A NaN coefficient, a negative d (whose
      square root is NaN) or a zero a (a division by zero) makes both roots NaN. */
  function QuadraticEqu(m: Math, a: Num, b: Num, c: Num): (Num, Num) {
    if a.Num? && b.Num? && c.Num? then
      var d := Discriminant(a.value, b.value, c.value);
      var den := 2.0 * a.value;
      if d < 0.0 || den == 0.0 then (NaN, NaN)
      else (Num((-b.value + m.sqrt(d)) / den), Num((-b.value - m.sqrt(d)) / den))
    else (NaN, NaN)
  }

  /** A number r with 2a r = -b + s, where s^2 is the discriminant, solves a r^2 + b r + c = 0. */
  lemma RootSolves(a: real, b: real, c: real, s: real, r: real)
    requires a != 0.0 && s * s == Discriminant(a, b, c) && 2.0 * a * r == -b + s
    ensures a * r * r + b * r + c == 0.0
  {
    var x := 2.0 * a * r;
    var e := a * r * r + b * r + c;
    assert 4.0 * a * e == x * x + 2.0 * b * x + 4.0 * a * c;
    assert x * x + 2.0 * b * x == (x + b) * (x + b) - b * b;
    assert e * (4.0 * a) == 0.0;
    ProductZero(e, 4.0 * a);
  }

  /** Both roots returned by `quadratic_equ` are defined exactly when a != 0 and the
      discriminant is non-negative, and then both solve the equation. */
  lemma QuadraticRootsSolve(m: Math, a: real, b: real, c: real)
    requires ValidMath(m)
    ensures var roots := QuadraticEqu(m, Num(a), Num(b), Num(c));
      var defined := a != 0.0 && Discriminant(a, b, c) >= 0.0;
      && (roots.0.Num? <==> defined) && (roots.1.Num? <==> defined)
      && (defined ==> a * roots.0.value * roots.0.value + b * roots.0.value + c == 0.0)
      && (defined ==> a * roots.1.value * roots.1.value + b * roots.1.value + c == 0.0)
  {
    var d := Discriminant(a, b, c);
    if a != 0.0 && d >= 0.0 {
      var s := m.sqrt(d);
      assert s * s == d;
      var r1, r2 := (-b + s) / (2.0 * a), (-b - s) / (2.0 * a);
      assert QuadraticEqu(m, Num(a), Num(b), Num(c)) == (Num(r1), Num(r2));
      assert 2.0 * a * r1 == -b + s;
      assert 2.0 * a * r2 == -b + (-s);
      assert (-s) * (-s) == d;
      RootSolves(a, b, c, s, r1);
      RootSolves(a, b, c, -s, r2);
    }
  }

  /** The equation a x^2 - 1 = 0 that `normal_vector` solves, for a >= 1: its first root
      is positive with a root1^2 = 1, and its second is the negative of the first. */
  lemma UnitRoot(m: Math, a: real)
    requires ValidMath(m)
    requires a >= 1.0
    ensures var roots := QuadraticEqu(m, Num(a), Num(0.0), Num(-1.0));
      && roots.0.Num? && roots.1.Num?
      && roots.0.value > 0.0 && roots.1.value == -roots.0.value
      && a * roots.0.value * roots.0.value == 1.0
  {
    assert Discriminant(a, 0.0, -1.0) == 4.0 * a;
    QuadraticRootsSolve(m, a, 0.0, -1.0);
    var s := m.sqrt(Discriminant(a, 0.0, -1.0));
    assert 0.0 <= s && s * s == 4.0 * a;
    var roots := QuadraticEqu(m, Num(a), Num(0.0), Num(-1.0));
    assert roots.0.value == s / (2.0 * a);
    assert roots.1.value == (-s) / (2.0 * a);
    assert s != 0.0;
    QuotientPositive(s, 2.0 * a);
  }

  /** `(v != 0.0) & (v != np.nan)`: the second test is always true, NaN included. */
  predicate NonZero(v: Num) {
    v.NaN? || v.value != 0.0
  }

  predicate Positive(v: Num) {
    v.Num? && v.value > 0.0
  }

  predicate Negative(v: Num) {
    v.Num? && v.value < 0.0
  }

  /** The leading coefficient (p/q)^2 + 1 of the quadratic each branch solves. */
  function SlopeCoefficient(p: real, q: real): real
    requires q != 0.0
  {
    (p / q) * (p / q) + 1.0
  }

  /** One branch of `normal_vector` with q != 0: the first component |root1| of
      ((p/q)^2 + 1) x^2 - 1 = 0, and the second sqrt(1 - first^2). */
  function NormalPair(m: Math, p: Num, q: Num): (Num, Num) {
    if p.Num? && q.Num? && q.value != 0.0 then
      var root := QuadraticEqu(m, Num(SlopeCoefficient(p.value, q.value)), Num(0.0), Num(-1.0)).0;
      var first := AbsNum(root);
      (first, Sqrt(m, Minus(Num(1.0), Square(first))))
    else (NaN, NaN)
  }

  /** The two branches of `normal_vector` before its sign rule: the pair of
      non-negative magnitudes, solved along the nonzero component. */
  function UnsignedNormal(m: Math, vx: Num, vy: Num): (Num, Num) {
    if NonZero(vy) then NormalPair(m, vx, vy)
    else if NonZero(vx) then (NormalPair(m, vy, vx).1, NormalPair(m, vy, vx).0)
    else (NaN, NaN)
  }

  /** `normal_vector` for one sample (Vx, Vy): the unit normal, turned so that it never
      points into the first quadrant when (Vx, Vy) lies strictly in the first or third. */
  function NormalComponents(m: Math, vx: Num, vy: Num): (Num, Num) {
    var n := UnsignedNormal(m, vx, vy);
    var flip := (Positive(vx) && Positive(vy)) || (Negative(vx) && Negative(vy));
    (n.0, if flip then Negate(n.1) else n.1)
  }

  /** For q != 0 the branch gives f = |q| / |(p, q)| > 0 and g = |p| / |(p, q)| >= 0,
      stated through their squares: f^2 + g^2 = 1 and (f p)^2 = (g q)^2. */
  lemma NormalPairValues(m: Math, p: real, q: real)
    requires ValidMath(m)
    requires q != 0.0
    ensures var n := NormalPair(m, Num(p), Num(q));
      && n.0.Num? && n.1.Num?
      && n.0.value > 0.0 && n.1.value >= 0.0
      && n.0.value * n.0.value + n.1.value * n.1.value == 1.0
      && (n.0.value * p) * (n.0.value * p) == (n.1.value * q) * (n.1.value * q)
      && (n.1.value == 0.0 <==> p == 0.0)
  {
    var a := SlopeCoefficient(p, q);
    assert a >= 1.0 by {
      assert 0.0 <= (p / q) * (p / q);
    }
    var root := QuadraticEqu(m, Num(a), Num(0.0), Num(-1.0)).0;
    assert root.Num? && root.value > 0.0 && a * root.value * root.value == 1.0 by {
      UnitRoot(m, a);
    }
    var f := root.value;
    assert 0.0 <= 1.0 - f * f by {
      RemainderNonnegative(a, f);
    }
    var g := m.sqrt(1.0 - f * f);
    assert 0.0 <= g && g * g == 1.0 - f * f;
    assert NormalPair(m, Num(p), Num(q)) == (Num(f), Num(g)) by {
      assert AbsNum(root) == Num(f);
      assert Minus(Num(1.0), Square(Num(f))) == Num(1.0 - f * f);
    }
    UnitPairFacts(p, q, f, g);
  }

  /** With a >= 1 and a f^2 = 1, 1 - f^2 is not negative. */
  lemma RemainderNonnegative(a: real, f: real)
    requires a >= 1.0 && a * f * f == 1.0
    ensures 0.0 <= 1.0 - f * f
  {
    assert 1.0 - f * f == (a - 1.0) * (f * f);
    assert 0.0 <= f * f;
  }

  /** The real algebra of one branch: f = 1/sqrt(a) with a = (p/q)^2 + 1, and
      g = sqrt(1 - f^2). */
  lemma UnitPairFacts(p: real, q: real, f: real, g: real)
    requires q != 0.0
    requires SlopeCoefficient(p, q) * f * f == 1.0
    requires 0.0 <= g && g * g == 1.0 - f * f
    ensures f * f + g * g == 1.0
    ensures (f * p) * (f * p) == (g * q) * (g * q)
    ensures g == 0.0 <==> p == 0.0
  {
    SumOfSquaresPositive(p, q);
    PairSquares(p, q, f, g);
    CrossSquares(f, g, p, q);
    if p == 0.0 {
      NonnegSquaresEqual(g, 0.0);
    }
  }

  /** With a = (p/q)^2 + 1, a f^2 = 1 and g^2 = 1 - f^2:
      f^2 (p^2 + q^2) = q^2 and g^2 (p^2 + q^2) = p^2. */
  lemma PairSquares(p: real, q: real, f: real, g: real)
    requires q != 0.0
    requires SlopeCoefficient(p, q) * f * f == 1.0 && g * g == 1.0 - f * f
    ensures f * f * SquaredNorm(p, q) == q * q
    ensures g * g * SquaredNorm(p, q) == p * p
    ensures p == 0.0 ==> g * g == 0.0
    ensures p != 0.0 ==> g * g > 0.0
  {
    var ratio := p / q;
    assert ratio * q == p;
    var a := SlopeCoefficient(p, q);
    assert a * (q * q) == SquaredNorm(p, q) by {
      assert ratio * ratio * (q * q) == (ratio * q) * (ratio * q);
    }
    assert f * f * SquaredNorm(p, q) == q * q by {
      assert f * f * SquaredNorm(p, q) == (a * f * f) * (q * q);
    }
    assert g * g == ratio * ratio * (f * f);
    assert g * g * SquaredNorm(p, q) == p * p by {
      assert g * g * SquaredNorm(p, q) == ratio * ratio * (q * q) * (a * f * f);
      assert ratio * ratio * (q * q) == (ratio * q) * (ratio * q);
    }
    if p == 0.0 {
      assert ratio == 0.0;
    } else {
      SumOfSquaresPositive(p, q);
      SquarePositive(p);
      assert g * g == (g * g * SquaredNorm(p, q)) / SquaredNorm(p, q);
      QuotientPositive(p * p, SquaredNorm(p, q));
    }
  }

  /** a*a == b*b with a*b <= 0 gives a + b == 0. */
  lemma OppositeEqualSquares(a: real, b: real)
    requires a * a == b * b && a * b <= 0.0
    ensures a + b == 0.0
  {
    assert Abs(a) * Abs(a) == a * a && Abs(b) * Abs(b) == b * b;
    NonnegSquaresEqual(Abs(a), Abs(b));
    assert (a + b) * (a + b) == 2.0 * (a * a + a * b);
    if a == b {
      assert a * a <= 0.0;
      assert 0.0 <= a * a;
    }
  }

  /** Where f^2 S = q^2 and g^2 S = p^2 with S = p^2 + q^2 > 0, (f p)^2 == (g q)^2. */
  lemma CrossSquares(f: real, g: real, p: real, q: real)
    requires SquaredNorm(p, q) > 0.0
    requires f * f * SquaredNorm(p, q) == q * q && g * g * SquaredNorm(p, q) == p * p
    ensures (f * p) * (f * p) == (g * q) * (g * q)
  {
    var s := SquaredNorm(p, q);
    assert (f * p) * (f * p) * s == (f * f * s) * (p * p);
    assert (g * q) * (g * q) * s == (g * g * s) * (q * q);
    assert (f * p) * (f * p) == ((f * p) * (f * p) * s) / s;
    assert (g * q) * (g * q) == ((g * q) * (g * q) * s) / s;
  }

  /**
   * For a defined, nonzero velocity (Vx, Vy) the normal (Nx, Ny) is a unit vector
   * orthogonal to it, with Nx >= 0 (zero exactly when Vy is), and Ny negative exactly
   * when the velocity lies strictly in the first or the third quadrant.
   */
  lemma NormalVectorProperties(m: Math, vx: real, vy: real)
    requires ValidMath(m)
    requires vx != 0.0 || vy != 0.0
    ensures var n := NormalComponents(m, Num(vx), Num(vy));
      && n.0.Num? && n.1.Num?
      && n.0.value * n.0.value + n.1.value * n.1.value == 1.0
      && n.0.value * vx + n.1.value * vy == 0.0
      && n.0.value >= 0.0 && (n.0.value == 0.0 <==> vy == 0.0)
      && (n.1.value < 0.0 <==> (vx > 0.0 && vy > 0.0) || (vx < 0.0 && vy < 0.0))
  {
    UnsignedNormalValues(m, vx, vy);
    var n := UnsignedNormal(m, Num(vx), Num(vy));
    OrientedNormal(vx, vy, n.0.value, n.1.value);
  }

  /** Both branches before the sign rule: non-negative magnitudes of unit length, each
      zero exactly when the other velocity component is, with equal squared products. */
  lemma UnsignedNormalValues(m: Math, vx: real, vy: real)
    requires ValidMath(m)
    requires vx != 0.0 || vy != 0.0
    ensures var n := UnsignedNormal(m, Num(vx), Num(vy));
      && n.0.Num? && n.1.Num?
      && 0.0 <= n.0.value && 0.0 <= n.1.value
      && n.0.value * n.0.value + n.1.value * n.1.value == 1.0
      && (n.0.value == 0.0 <==> vy == 0.0) && (n.1.value == 0.0 <==> vx == 0.0)
      && (n.0.value * vx) * (n.0.value * vx) == (n.1.value * vy) * (n.1.value * vy)
  {
    if vy != 0.0 {
      NormalPairValues(m, vx, vy);
    } else {
      NormalPairValues(m, vy, vx);
      var n := NormalPair(m, Num(vy), Num(vx));
      assert n.1.value * n.1.value + n.0.value * n.0.value == 1.0;
    }
  }

  /** The sign rule of `normal_vector` applied to the non-negative pair (nx, ny0), whose
      products with (vx, vy) have equal squares: the result is a unit normal of (vx, vy). */
  lemma OrientedNormal(vx: real, vy: real, nx: real, ny0: real)
    requires 0.0 <= nx && 0.0 <= ny0 && nx * nx + ny0 * ny0 == 1.0
    requires (nx == 0.0 <==> vy == 0.0) && (ny0 == 0.0 <==> vx == 0.0)
    requires (nx * vx) * (nx * vx) == (ny0 * vy) * (ny0 * vy)
    ensures var flip := (vx > 0.0 && vy > 0.0) || (vx < 0.0 && vy < 0.0);
      var ny := if flip then -ny0 else ny0;
      && nx * nx + ny * ny == 1.0
      && nx * vx + ny * vy == 0.0
      && (ny < 0.0 <==> flip)
  {
    var flip := (vx > 0.0 && vy > 0.0) || (vx < 0.0 && vy < 0.0);
    var ny := if flip then -ny0 else ny0;
    assert ny * ny == ny0 * ny0;
    assert (ny * vy) * (ny * vy) == (ny0 * vy) * (ny0 * vy);
    assert 0.0 <= nx * ny0;
    if flip {
      assert 0.0 < vx * vy;
      assert (nx * vx) * (ny * vy) == -((nx * ny0) * (vx * vy));
    } else {
      assert vx * vy <= 0.0;
      assert (nx * vx) * (ny * vy) == (nx * ny0) * (vx * vy);
    }
    OppositeEqualSquares(nx * vx, ny * vy);
  }

  /** The normal is defined exactly for a defined velocity other than (0, 0). */
  lemma NormalVectorDefined(m: Math, vx: Num, vy: Num)
    requires ValidMath(m)
    ensures var n := NormalComponents(m, vx, vy);
      var defined := vx.Num? && vy.Num? && (vx.value != 0.0 || vy.value != 0.0);
      (n.0.Num? <==> defined) && (n.1.Num? <==> defined)
  {
    if vx.Num? && vy.Num? && (vx.value != 0.0 || vy.value != 0.0) {
      NormalVectorProperties(m, vx.value, vy.value);
    }
  }

  /** `normal_vector`: the normals of the pairs of `zip(Vx, Vy)`, which stops at the
      shorter of the two columns. */
  method NormalVector(m: Math, vxs: seq<Num>, vys: seq<Num>) returns (nxs: seq<Num>, nys: seq<Num>)
    ensures |nxs| == |nys| == if |vxs| <= |vys| then |vxs| else |vys|
    ensures forall i :: 0 <= i < |nxs| ==>
      nxs[i] == NormalComponents(m, vxs[i], vys[i]).0 && nys[i] == NormalComponents(m, vxs[i], vys[i]).1
  {
    nxs, nys := [], [];
    var i := 0;
    while i < |vxs| && i < |vys|
      invariant i <= |vxs| && i <= |vys|
      invariant |nxs| == |nys| == i
      invariant forall j :: 0 <= j < i ==>
        nxs[j] == NormalComponents(m, vxs[j], vys[j]).0 && nys[j] == NormalComponents(m, vxs[j], vys[j]).1
    {
      var n := NormalComponents(m, vxs[i], vys[i]);
      nxs, nys := nxs + [n.0], nys + [n.1];
      i := i + 1;
    }
  }

  // ---------------------------------------------------------------------------
  // Crosswind

  /** The columns `calculate_crosswind_dataframe` drops, in the order it names them. */
  const DroppedColumns: seq<Column> := [S, Um, Vm, Wm, Vr, Ur, Wr, Sc, V, U, W, WD, VErr, UErr]

  const DroppedSet: set<Column> := {S, Um, Vm, Wm, Vr, Ur, Wr, Sc, V, U, W, WD, VErr, UErr}

  /** The columns it reads, in the order it reads them; the first one missing is raised. */
  const CrosswindReads: seq<Column> :=
    [Vx, Vy, Avg(U), Avg(V), Avg(UErr), Avg(VErr)] + DroppedColumns + [Seconds]

  /** cross_wind = U_avg Nx + V_avg Ny: the averaged wind projected on the normal. */
  function CrossWindOf(u: Num, v: Num, nx: Num, ny: Num): Num {
    if u.Num? && v.Num? && nx.Num? && ny.Num? then Num(u.value * nx.value + v.value * ny.value) else NaN
  }

  /** cross_wind_err as the code computes it: sqrt(Nx^2 (U_err_avg Nx)^2 + Ny^2 (V_err_avg Ny)^2
      + U_avg^2 (0 U_avg)^2 + V_avg^2 (0 V_avg)^2). */
  function CrossWindErrOf(m: Math, u: Num, v: Num, ue: Num, ve: Num, nx: Num, ny: Num): Num {
    if u.Num? && v.Num? && ue.Num? && ve.Num? && nx.Num? && ny.Num? then
      var uerr, verr := ue.value * nx.value, ve.value * ny.value;
      var nxerr, nyerr := u.value * 0.0, v.value * 0.0;
      Sqrt(m, Num(nx.value * nx.value * (uerr * uerr) + ny.value * ny.value * (verr * verr)
        + u.value * u.value * (nxerr * nxerr) + v.value * v.value * (nyerr * nyerr)))
    else NaN
  }

  /** The row i of the crosswind table, given the normal (nx, ny) of its velocity and the
      least Seconds of the table. */
  function CrosswindRow(m: Math, r: Row, nx: Num, ny: Num, start: Num): Row {
    var u, v := Get(r, Avg(U)), Get(r, Avg(V));
    var ue, ve := Get(r, Avg(UErr)), Get(r, Avg(VErr));
    var r1 := Put(Put(r, Nx, nx), Ny, ny);
    var r2 := Put(Put(r1, CrossWind, CrossWindOf(u, v, nx, ny)), CrossWindErr, CrossWindErrOf(m, u, v, ue, ve, nx, ny));
    Put(r2 - DroppedSet, Seconds, Minus(Get(r, Seconds), start))
  }

  /** The columns a crosswind row writes. */
  const CrosswindWritten: set<Column> := {Nx, Ny, CrossWind, CrossWindErr, Seconds}

  /** Row `out` of the crosswind table made from row `r` with normal (nx, ny): the normal,
      the crosswind and its error, Seconds less `start`, no cell in a dropped column, and
      every other cell as it was. */
  ghost predicate CrosswindCells(m: Math, r: Row, out: Row, nx: Num, ny: Num, start: Num) {
    var u, v := Get(r, Avg(U)), Get(r, Avg(V));
    && Get(out, Nx) == nx && Get(out, Ny) == ny
    && Get(out, CrossWind) == CrossWindOf(u, v, nx, ny)
    && Get(out, CrossWindErr) == CrossWindErrOf(m, u, v, Get(r, Avg(UErr)), Get(r, Avg(VErr)), nx, ny)
    && Get(out, Seconds) == Minus(Get(r, Seconds), start)
    && (forall c :: c !in DroppedSet && c !in CrosswindWritten ==> Get(out, c) == Get(r, c))
    && out.Keys == (r.Keys + CrosswindWritten) - DroppedSet
  }

  /**
   * `calculate_crosswind_dataframe`: the normal of the aircraft velocity, the crosswind
   * and its error, the sensor and intermediate wind columns dropped, the rows renumbered
   * and Seconds shifted to start at zero.
   */
  method CalculateCrosswindDataframe(m: Math, t: Table) returns (r: Result<Table, Failure>)
    ensures r.Err? <==> FirstMissing(t, CrosswindReads).Some?
    ensures r.Err? ==> r.error == MissingColumn(FirstMissing(t, CrosswindReads).value)
    ensures r.Ok? ==> r.value.columns == (t.columns + {Nx, Ny, CrossWind, CrossWindErr}) - DroppedSet
    ensures r.Ok? ==> |r.value.rows| == |t.rows|
    ensures r.Ok? ==> forall i :: 0 <= i < |t.rows| ==>
      var n := NormalComponents(m, Get(t.rows[i], Vx), Get(t.rows[i], Vy));
      CrosswindCells(m, t.rows[i], r.value.rows[i], n.0, n.1, Min(Values(t, Seconds)))
    ensures r.Ok? ==> Values(r.value, Seconds) == ShiftToMin(Values(t, Seconds))
  {
    var missing := FirstMissing(t, CrosswindReads);
    if missing.Some? {
      return Err(MissingColumn(missing.value));
    }
    var nxs, nys := NormalVector(m, Values(t, Vx), Values(t, Vy));
    var start := Min(Values(t, Seconds));
    var rows := seq(|t.rows|, i requires 0 <= i < |t.rows| => CrosswindRow(m, t.rows[i], nxs[i], nys[i], start));
    forall i | 0 <= i < |t.rows|
      ensures CrosswindCells(m, t.rows[i], rows[i], nxs[i], nys[i], start)
    {
      CrosswindRowCells(m, t.rows[i], nxs[i], nys[i], start);
    }
    var out := Table((t.columns + {Nx, Ny, CrossWind, CrossWindErr}) - DroppedSet, rows);
    assert Values(out, Seconds) == ShiftToMin(Values(t, Seconds));
    return Ok(out);
  }

  lemma CrosswindRowCells(m: Math, r: Row, nx: Num, ny: Num, start: Num)
    ensures CrosswindCells(m, r, CrosswindRow(m, r, nx, ny, start), nx, ny, start)
  {
    var out := CrosswindRow(m, r, nx, ny, start);
    var u, v := Get(r, Avg(U)), Get(r, Avg(V));
    assert Get(out, Nx) == nx && Get(out, Ny) == ny;
    assert Get(out, CrossWind) == CrossWindOf(u, v, nx, ny);
    assert Get(out, CrossWindErr) == CrossWindErrOf(m, u, v, Get(r, Avg(UErr)), Get(r, Avg(VErr)), nx, ny);
    assert Get(out, Seconds) == Minus(Get(r, Seconds), start);
    CrosswindRowUnchanged(m, r, nx, ny, start);
  }

  lemma CrosswindRowUnchanged(m: Math, r: Row, nx: Num, ny: Num, start: Num)
    ensures var out := CrosswindRow(m, r, nx, ny, start);
      && (forall c :: c !in DroppedSet && c !in CrosswindWritten ==> Get(out, c) == Get(r, c))
      && out.Keys == (r.Keys + CrosswindWritten) - DroppedSet
  {
  }

  /** The crosswind error is the quadrature sum of the two projected averaged errors,
      each weighted once more by its normal component; the two terms in U_avg and V_avg
      vanish. */
  lemma CrossWindErrValue(m: Math, u: real, v: real, ue: real, ve: real, nx: real, ny: real)
    requires ValidMath(m)
    ensures var e := CrossWindErrOf(m, Num(u), Num(v), Num(ue), Num(ve), Num(nx), Num(ny));
      && e.Num? && 0.0 <= e.value
      && e.value * e.value == (nx * nx) * (nx * nx) * (ue * ue) + (ny * ny) * (ny * ny) * (ve * ve)
  {
    var a := nx * nx * ((ue * nx) * (ue * nx));
    var b := ny * ny * ((ve * ny) * (ve * ny));
    assert a == (nx * nx) * (nx * nx) * (ue * ue);
    assert b == (ny * ny) * (ny * ny) * (ve * ve);
    assert 0.0 <= a && 0.0 <= b by {
      SquareNonnegative(nx);
      SquareNonnegative(ue * nx);
      SquareNonnegative(ny);
      SquareNonnegative(ve * ny);
    }
    assert u * u * ((u * 0.0) * (u * 0.0)) == 0.0 && v * v * ((v * 0.0) * (v * 0.0)) == 0.0;
  }

  /** Against a unit normal of the track (vx, vy), such as the one `normal_vector`
      computes (NormalVectorProperties), a wind along the track has no crosswind and a
      wind along the normal is all crosswind. */
  lemma CrossWindProjection(nx: real, ny: real, vx: real, vy: real, k: real)
    requires nx * nx + ny * ny == 1.0 && nx * vx + ny * vy == 0.0
    ensures CrossWindOf(Num(k * vx), Num(k * vy), Num(nx), Num(ny)) == Num(0.0)
    ensures CrossWindOf(Num(k * nx), Num(k * ny), Num(nx), Num(ny)) == Num(k)
  {
    assert (k * vx) * nx + (k * vy) * ny == k * (nx * vx + ny * vy);
    assert (k * nx) * nx + (k * ny) * ny == k * (nx * nx + ny * ny);
  }
}
