/**
 * The older variant of the wind stages, calculations.py.  It differs from wind_calc.py
 * in four ways: the heading comes from Yaw only when asked for and present, and from
 * MD otherwise; the aircraft velocity columns are optional; the velocity is added in
 * the swapped convention (V takes Vx, U takes Vy, W subtracts Vz); and no wind
 * direction is written.  Its `calculate_density` is the same code as wind_calc.py's,
 * modelled once as `WindCalc.CalculateDensity`.
 */
module Calculations {
  import opened Wrappers
  import opened Numerics
  import opened Tables
  import opened WindConsts
  import opened Rotation
  import opened WindUtils
  import opened ErrorPropagation
  import WindCalc

  // ---------------------------------------------------------------------------
  // Earth-frame winds

  /** The columns this variant of `calculate_vector_winds` writes (no WD). */
  const WindColumns: set<Column> := {Vr, Ur, Wr, Sc, V, U, W}

  /** The columns it always reads, in order: MD for the default heading, then the sensor wind. */
  const WindsReads: seq<Column> := [MD, Um, Vm, Wm]

  /** The heading column: Yaw when the flag is set and the table has Yaw, else MD. */
  function HeadingColumn(t: Table, usingDjiYaw: bool): (h: Column)
    ensures h == Yaw <==> usingDjiYaw && Yaw in t.columns
    ensures h != Yaw ==> h == MD
  {
    if usingDjiYaw && Yaw in t.columns then Yaw else MD
  }

  function RowUr(m: Math, h: Column, r: Row): Num {
    RotatedU(m, Get(r, Um), Get(r, Vm), Radians(Get(r, h)))
  }

  function RowVr(m: Math, h: Column, r: Row): Num {
    RotatedV(m, Get(r, Um), Get(r, Vm), Radians(Get(r, h)))
  }

  /** V is Vr plus Vx when the table has Vx, and Vr alone otherwise. */
  function RowV(m: Math, t: Table, h: Column, r: Row): Num {
    if Vx in t.columns then Plus(RowVr(m, h, r), Get(r, Vx)) else RowVr(m, h, r)
  }

  /** U is Ur plus Vy when the table has Vy, and Ur alone otherwise. */
  function RowU(m: Math, t: Table, h: Column, r: Row): Num {
    if Vy in t.columns then Plus(RowUr(m, h, r), Get(r, Vy)) else RowUr(m, h, r)
  }

  /** W is Wm minus Vz when the table has Vz, and Wm alone otherwise. */
  function RowW(t: Table, r: Row): Num {
    if Vz in t.columns then Minus(Get(r, Wm), Get(r, Vz)) else Get(r, Wm)
  }

  /** Sc = sqrt(V^2 + U^2) */
  function RowSc(m: Math, t: Table, h: Column, r: Row): Num {
    Sqrt(m, Plus(Square(RowV(m, t, h, r)), Square(RowU(m, t, h, r))))
  }

  function VectorWindsRow(m: Math, t: Table, h: Column, r: Row): (r': Row)
    ensures Get(r', Ur) == RowUr(m, h, r) && Get(r', Vr) == RowVr(m, h, r) && Get(r', Wr) == Get(r, Wm)
    ensures Get(r', U) == RowU(m, t, h, r) && Get(r', V) == RowV(m, t, h, r) && Get(r', W) == RowW(t, r)
    ensures Get(r', Sc) == RowSc(m, t, h, r)
    ensures forall c :: c !in WindColumns ==> Get(r', c) == Get(r, c)
    ensures r'.Keys == r.Keys + WindColumns
  {
    var r1 := Put(Put(Put(r, Vr, RowVr(m, h, r)), Ur, RowUr(m, h, r)), Wr, Get(r, Wm));
    Put(Put(Put(Put(r1, Sc, RowSc(m, t, h, r)), V, RowV(m, t, h, r)), U, RowU(m, t, h, r)), W, RowW(t, r))
  }

  /**
   * `calculate_vector_winds` of calculations.py.  MD is read before the flag is looked
   * at, so it is required even when the heading is Yaw; Vx, Vy and Vz are optional.
   */
  function CalculateVectorWinds(m: Math, t: Table, usingDjiYaw: bool): (r: Result<Table, Failure>)
    ensures r.Err? <==> !({MD, Um, Vm, Wm} <= t.columns)
    ensures r.Err? ==> r.error == MissingColumn(FirstMissing(t, WindsReads).value)
    ensures r.Ok? ==> r.value.columns == t.columns + WindColumns && |r.value.rows| == |t.rows|
    ensures r.Ok? ==> forall i :: 0 <= i < |t.rows| ==>
      r.value.rows[i] == VectorWindsRow(m, t, HeadingColumn(t, usingDjiYaw), t.rows[i])
    ensures r.Ok? && WellFormed(t) ==> WellFormed(r.value)
  {
    match FirstMissing(t, WindsReads)
    case Some(c) => Err(MissingColumn(c))
    case None =>
      var h := HeadingColumn(t, usingDjiYaw);
      Ok(Table(t.columns + WindColumns, seq(|t.rows|, i requires 0 <= i < |t.rows| => VectorWindsRow(m, t, h, t.rows[i]))))
  }

  /** Whichever column gives the heading, the rotation keeps the squared norm of the
      horizontal sensor wind. */
  lemma VectorWindsKeepNorm(m: Math, h: Column, r: Row)
    requires ValidMath(m)
    requires Get(r, h).Num? && Get(r, Um).Num? && Get(r, Vm).Num?
    ensures RowUr(m, h, r).Num? && RowVr(m, h, r).Num?
    ensures RowUr(m, h, r).value * RowUr(m, h, r).value + RowVr(m, h, r).value * RowVr(m, h, r).value
         == Get(r, Um).value * Get(r, Um).value + Get(r, Vm).value * Get(r, Vm).value
  {
    RotationPreservesNorm(m, Get(r, Um).value, Get(r, Vm).value, Radians(Get(r, h)).value);
  }

  /** Without any aircraft velocity column the earth-frame wind is the rotated sensor
      wind, and with all three it is the rotated wind corrected by each. */
  lemma OptionalVelocityColumns(m: Math, t: Table, h: Column, r: Row)
    ensures Vx !in t.columns ==> RowV(m, t, h, r) == RowVr(m, h, r)
    ensures Vy !in t.columns ==> RowU(m, t, h, r) == RowUr(m, h, r)
    ensures Vz !in t.columns ==> RowW(t, r) == Get(r, Wm)
    ensures Vx in t.columns && RowVr(m, h, r).Num? && Get(r, Vx).Num? ==>
      RowV(m, t, h, r).Num? && RowV(m, t, h, r).value - Get(r, Vx).value == RowVr(m, h, r).value
    ensures Vy in t.columns && RowUr(m, h, r).Num? && Get(r, Vy).Num? ==>
      RowU(m, t, h, r).Num? && RowU(m, t, h, r).value - Get(r, Vy).value == RowUr(m, h, r).value
    ensures Vz in t.columns && Get(r, Wm).Num? && Get(r, Vz).Num? ==>
      RowW(t, r).Num? && RowW(t, r).value + Get(r, Vz).value == Get(r, Wm).value
  {
  }

  /** Sc is the speed of (U, V): where both are defined, their non-negative norm. */
  lemma SpeedIsNorm(m: Math, t: Table, h: Column, r: Row)
    requires ValidMath(m)
    requires RowU(m, t, h, r).Num? && RowV(m, t, h, r).Num?
    ensures var u, v := RowU(m, t, h, r).value, RowV(m, t, h, r).value;
      RowSc(m, t, h, r).Num? && 0.0 <= RowSc(m, t, h, r).value
      && RowSc(m, t, h, r).value * RowSc(m, t, h, r).value == u * u + v * v
  {
    var u, v := RowU(m, t, h, r), RowV(m, t, h, r);
    SpeedSymmetric(m, u, v);
    WindUtils.SpeedIsNorm(m, u.value, v.value);
  }

  /**
   * With the heading taken from Yaw and every column present, this variant computes
   * the same Ur, Vr, Wr, U, V, W and Sc as wind_calc.py's `calculate_vector_winds`
   * applied after `calc_matching_reference_frames`: the swapped convention here is
   * exactly the frame swap there.
   */
  lemma AgreesWithMatchedFrames(m: Math, t: Table, i: nat)
    requires WindCalc.CalcMatchingReferenceFrames(t).Ok?
    requires WindCalc.CalculateVectorWinds(m, WindCalc.CalcMatchingReferenceFrames(t).value, true).Ok?
    requires MD in t.columns
    requires i < |t.rows|
    ensures CalculateVectorWinds(m, t, true).Ok?
    ensures var ours := CalculateVectorWinds(m, t, true).value.rows[i];
      var theirs := WindCalc.CalculateVectorWinds(m, WindCalc.CalcMatchingReferenceFrames(t).value, true).value.rows[i];
      && Get(ours, Ur) == Get(theirs, Ur) && Get(ours, Vr) == Get(theirs, Vr) && Get(ours, Wr) == Get(theirs, Wr)
      && Get(ours, U) == Get(theirs, U) && Get(ours, V) == Get(theirs, V) && Get(ours, W) == Get(theirs, W)
      && Get(ours, Sc) == Get(theirs, Sc)
  {
    MatchedFramesRows(m, t, i);
    RowAgreesWithMatchedFrames(m, t, t.rows[i], WindCalc.CalcMatchingReferenceFrames(t).value.rows[i]);
  }

  /** The rows the agreement compares, and how the matched row relates to the input row. */
  lemma MatchedFramesRows(m: Math, t: Table, i: nat)
    requires WindCalc.CalcMatchingReferenceFrames(t).Ok?
    requires WindCalc.CalculateVectorWinds(m, WindCalc.CalcMatchingReferenceFrames(t).value, true).Ok?
    requires MD in t.columns
    requires i < |t.rows|
    ensures {Yaw, Um, Vm, Wm, Vx, Vy, Vz} <= t.columns
    ensures CalculateVectorWinds(m, t, true).Ok?
    ensures CalculateVectorWinds(m, t, true).value.rows[i] == VectorWindsRow(m, t, Yaw, t.rows[i])
    ensures var framed := WindCalc.CalcMatchingReferenceFrames(t).value;
      && WindCalc.CalculateVectorWinds(m, framed, true).value.rows[i] == WindCalc.VectorWindsRow(m, framed.rows[i])
      && Get(framed.rows[i], Yaw) == Get(t.rows[i], Yaw) && Get(framed.rows[i], Um) == Get(t.rows[i], Um)
      && Get(framed.rows[i], Vm) == Get(t.rows[i], Vm) && Get(framed.rows[i], Wm) == Get(t.rows[i], Wm)
      && Get(framed.rows[i], Vx) == Get(t.rows[i], Vy) && Get(framed.rows[i], Vy) == Get(t.rows[i], Vx)
      && Get(framed.rows[i], Vz) == Negate(Get(t.rows[i], Vz))
  {
    var framed := WindCalc.CalcMatchingReferenceFrames(t).value;
    assert framed.columns == t.columns;
    FramedRow(t, i);
    YawHeadingRow(m, t, i);
  }

  lemma FramedRow(t: Table, i: nat)
    requires WindCalc.CalcMatchingReferenceFrames(t).Ok?
    requires i < |t.rows|
    ensures var f := WindCalc.CalcMatchingReferenceFrames(t).value.rows[i];
      && Get(f, Yaw) == Get(t.rows[i], Yaw) && Get(f, Um) == Get(t.rows[i], Um)
      && Get(f, Vm) == Get(t.rows[i], Vm) && Get(f, Wm) == Get(t.rows[i], Wm)
      && Get(f, Vx) == Get(t.rows[i], Vy) && Get(f, Vy) == Get(t.rows[i], Vx)
      && Get(f, Vz) == Negate(Get(t.rows[i], Vz))
  {
  }

  lemma YawHeadingRow(m: Math, t: Table, i: nat)
    requires {MD, Yaw, Um, Vm, Wm} <= t.columns
    requires i < |t.rows|
    ensures CalculateVectorWinds(m, t, true).Ok?
    ensures CalculateVectorWinds(m, t, true).value.rows[i] == VectorWindsRow(m, t, Yaw, t.rows[i])
  {
    FirstMissingNone(t, WindsReads);
  }

  /** One row of the agreement: a row whose frames were matched gives the same winds. */
  lemma RowAgreesWithMatchedFrames(m: Math, t: Table, r: Row, f: Row)
    requires Vx in t.columns && Vy in t.columns && Vz in t.columns && Yaw in t.columns
    requires Get(f, Yaw) == Get(r, Yaw) && Get(f, Um) == Get(r, Um) && Get(f, Vm) == Get(r, Vm) && Get(f, Wm) == Get(r, Wm)
    requires Get(f, Vx) == Get(r, Vy) && Get(f, Vy) == Get(r, Vx) && Get(f, Vz) == Negate(Get(r, Vz))
    ensures var ours, theirs := VectorWindsRow(m, t, Yaw, r), WindCalc.VectorWindsRow(m, f);
      && Get(ours, Ur) == Get(theirs, Ur) && Get(ours, Vr) == Get(theirs, Vr) && Get(ours, Wr) == Get(theirs, Wr)
      && Get(ours, U) == Get(theirs, U) && Get(ours, V) == Get(theirs, V) && Get(ours, W) == Get(theirs, W)
      && Get(ours, Sc) == Get(theirs, Sc)
  {
    RowComponentsAgree(m, t, r, f);
  }

  lemma RowComponentsAgree(m: Math, t: Table, r: Row, f: Row)
    requires Vx in t.columns && Vy in t.columns && Vz in t.columns && Yaw in t.columns
    requires Get(f, Yaw) == Get(r, Yaw) && Get(f, Um) == Get(r, Um) && Get(f, Vm) == Get(r, Vm) && Get(f, Wm) == Get(r, Wm)
    requires Get(f, Vx) == Get(r, Vy) && Get(f, Vy) == Get(r, Vx) && Get(f, Vz) == Negate(Get(r, Vz))
    ensures RowUr(m, Yaw, r) == WindCalc.RowUr(m, f) && RowVr(m, Yaw, r) == WindCalc.RowVr(m, f)
    ensures RowU(m, t, Yaw, r) == WindCalc.RowU(m, f) && RowV(m, t, Yaw, r) == WindCalc.RowV(m, f)
    ensures RowW(t, r) == WindCalc.RowW(f)
    ensures RowSc(m, t, Yaw, r) == Speed(m, WindCalc.RowU(m, f), WindCalc.RowV(m, f))
  {
    SpeedSymmetric(m, WindCalc.RowU(m, f), WindCalc.RowV(m, f));
  }

  /** sqrt(V^2 + U^2) is the speed of (U, V). */
  lemma SpeedSymmetric(m: Math, u: Num, v: Num)
    ensures Sqrt(m, Plus(Square(v), Square(u))) == Speed(m, u, v)
  {
    if u.Num? && v.Num? {
      assert Plus(Square(v), Square(u)) == Plus(Square(u), Square(v));
    }
  }

  // ---------------------------------------------------------------------------
  // Error propagation (calculations.py variant)

  /** du/dphi as calculations.py writes it: -Um sin(phi) + Um cos(phi). */
  function DuDphi(m: Math, um: Num, phi: Num): Num {
    Plus(Times(Negate(um), Sin(m, phi)), Times(um, Cos(m, phi)))
  }

  /** The U error of this variant; its V error is wind_calc.py's formula letter for letter. */
  function RowUErr(m: Math, r: Row): Num {
    var phi := WindCalc.YawPhi(r);
    PropagatedError(m, WindCalc.DuDum(m, phi), ErrTrisonicaUm, DuDphi(m, Get(r, Um), phi), ErrM600pPhi, ErrM600pVy)
  }

  /**
   * `calculate_vector_winds_error` of calculations.py: as in wind_calc.py, MD is read
   * first and the table is returned only from inside the Yaw branch (`Ok(None)` is
   * Python's None).
   */
  function CalculateVectorWindsError(m: Math, t: Table, usingDjiYaw: bool): (r: Result<Option<Table>, Failure>)
    ensures MD !in t.columns ==> r == Err(MissingColumn(MD))
    ensures r == Ok(None) <==> MD in t.columns && !(usingDjiYaw && Yaw in t.columns)
    ensures r.Err? <==> MD !in t.columns || (usingDjiYaw && Yaw in t.columns && !({Um, Vm} <= t.columns))
    ensures r.Ok? && r.value.Some? ==>
      && r.value.value.columns == t.columns + {UErr, VErr} && |r.value.value.rows| == |t.rows|
      && forall i :: 0 <= i < |t.rows| ==>
           r.value.value.rows[i] == t.rows[i][VErr := WindCalc.RowVErr(m, t.rows[i])][UErr := RowUErr(m, t.rows[i])]
    ensures r.Ok? && r.value.Some? && WellFormed(t) ==> WellFormed(r.value.value)
  {
    if MD !in t.columns then Err(MissingColumn(MD))
    else if !(usingDjiYaw && Yaw in t.columns) then Ok(None)
    else match FirstMissing(t, [Um, Vm])
      case Some(c) => Err(MissingColumn(c))
      case None =>
        Ok(Some(Table(t.columns + {UErr, VErr}, seq(|t.rows|, i requires 0 <= i < |t.rows| =>
          t.rows[i][VErr := WindCalc.RowVErr(m, t.rows[i])][UErr := RowUErr(m, t.rows[i])]))))
  }

  /** The U error is at least the aircraft velocity error, and is defined exactly where
      Yaw and Um are: this variant's du/dphi does not read Vm. */
  lemma VectorWindsErrorBounds(m: Math, r: Row)
    requires ValidMath(m)
    ensures RowUErr(m, r).Num? <==> Get(r, Yaw).Num? && Get(r, Um).Num?
    ensures RowUErr(m, r).Num? ==> RowUErr(m, r).value >= ErrM600pVy
  {
    var phi := WindCalc.YawPhi(r);
    PropagatedErrorAtLeastVelocityError(m, WindCalc.DuDum(m, phi), ErrTrisonicaUm, DuDphi(m, Get(r, Um), phi), ErrM600pPhi, ErrM600pVy);
  }

  /**
   * The two variants of `calculate_vector_winds_error` fail, and return None, on the
   * same tables; when both return a table they agree on every cell but U_err, and on
   * U_err too in every row where Um equals Vm, since only du/dphi differs.
   */
  lemma ErrorVariantsAgree(m: Math, t: Table, usingDjiYaw: bool)
    ensures CalculateVectorWindsError(m, t, usingDjiYaw).Err? <==> WindCalc.CalculateVectorWindsError(m, t, usingDjiYaw).Err?
    ensures CalculateVectorWindsError(m, t, usingDjiYaw).Err? ==>
      CalculateVectorWindsError(m, t, usingDjiYaw) == WindCalc.CalculateVectorWindsError(m, t, usingDjiYaw)
    ensures CalculateVectorWindsError(m, t, usingDjiYaw) == Ok(None) <==> WindCalc.CalculateVectorWindsError(m, t, usingDjiYaw) == Ok(None)
    ensures CalculateVectorWindsError(m, t, usingDjiYaw).Ok? && CalculateVectorWindsError(m, t, usingDjiYaw).value.Some? ==>
      var ours := CalculateVectorWindsError(m, t, usingDjiYaw).value.value;
      var theirs := WindCalc.CalculateVectorWindsError(m, t, usingDjiYaw).value.value;
      && ours.columns == theirs.columns && |ours.rows| == |theirs.rows|
      && (forall i, c :: 0 <= i < |ours.rows| && c != UErr ==> Get(ours.rows[i], c) == Get(theirs.rows[i], c))
      && (forall i :: 0 <= i < |ours.rows| && Get(t.rows[i], Um) == Get(t.rows[i], Vm) ==>
            Get(ours.rows[i], UErr) == Get(theirs.rows[i], UErr))
  {
    var ours := CalculateVectorWindsError(m, t, usingDjiYaw);
    var theirs := WindCalc.CalculateVectorWindsError(m, t, usingDjiYaw);
    if ours.Ok? && ours.value.Some? {
      forall i | 0 <= i < |t.rows| && Get(t.rows[i], Um) == Get(t.rows[i], Vm)
        ensures Get(ours.value.value.rows[i], UErr) == Get(theirs.value.value.rows[i], UErr)
      {
        var r := t.rows[i];
        assert DuDphi(m, Get(r, Um), WindCalc.YawPhi(r)) == WindCalc.DuDphi(m, Get(r, Um), Get(r, Vm), WindCalc.YawPhi(r));
      }
    }
  }
}
