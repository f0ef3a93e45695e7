/**
 * wind_utils.py: wind speed and meteorological wind direction from earth-frame
 * components, with the direction clamped by an iterative wrap.
 */
module WindUtils {
  import opened Wrappers
  import opened Numerics

  /** Whole turns of 360 degrees the wrap loop takes off: ceil((raw - limit) / 360). */
  function Turns(raw: real, limit: real): int {
    -(((limit - raw) / 360.0).Floor)
  }

  /**
   * The bearing the clamp leaves, in closed form: a bearing above `wrapFactor * 360`
   * is lowered by whole turns into (limit - 360, limit], then a bearing <= 0 gains
   * one turn.  This is a reference definition for the loop in `WrapWindDir`.
   */
  function Bearing(raw: real, wrapFactor: real): real {
    var limit := wrapFactor * 360.0;
    var lowered := if raw > limit then raw - 360.0 * Turns(raw, limit) as real else raw;
    if lowered <= 0.0 then lowered + 360.0 else lowered
  }

  /** A NaN bearing fails both comparisons and is left as it is. */
  function WrapBearing(raw: Num, wrapFactor: real): Num {
    match raw
    case NaN => NaN
    case Num(x) => Num(Bearing(x, wrapFactor))
  }

  /** 270 - atan2(v, u) in degrees: the direction the wind blows from. */
  function RawBearing(m: Math, u: Num, v: Num): Num {
    if u.Num? && v.Num? then Num(270.0 - m.atan2(v.value, u.value) * 180.0 / Pi) else NaN
  }

  /** sqrt(u^2 + v^2) */
  function Speed(m: Math, u: Num, v: Num): Num {
    Sqrt(m, Plus(Square(u), Square(v)))
  }

  /** The speed of a defined pair is its non-negative Euclidean norm. */
  lemma SpeedIsNorm(m: Math, u: real, v: real)
    requires ValidMath(m)
    ensures Speed(m, Num(u), Num(v)).Num?
    ensures 0.0 <= Speed(m, Num(u), Num(v)).value
    ensures Speed(m, Num(u), Num(v)).value * Speed(m, Num(u), Num(v)).value == u * u + v * v
  {
    var x := SquaredNorm(u, v);
    SquareNonnegative(u);
    SquareNonnegative(v);
    assert 0.0 <= x;
    assert Plus(Square(Num(u)), Square(Num(v))) == Num(x);
    var s := m.sqrt(x);
    assert 0.0 <= s && s * s == x;
  }

  /** Lowering by whole turns lands in (limit - 360, limit]. */
  lemma LoweredWindow(raw: real, limit: real)
    requires raw > limit
    ensures Turns(raw, limit) >= 1
    ensures limit - 360.0 < raw - 360.0 * Turns(raw, limit) as real <= limit
  {
    var z := (limit - raw) / 360.0;
    var f := z.Floor;
    assert f as real <= z < f as real + 1.0;
    assert raw + 360.0 * z == limit;
  }

  /** Only `Turns` many turns put a bearing above the limit into (limit - 360, limit]. */
  lemma TurnsUnique(raw: real, limit: real, k: int)
    requires limit - 360.0 < raw - 360.0 * k as real <= limit
    ensures k == Turns(raw, limit)
  {
    var z := (limit - raw) / 360.0;
    assert raw + 360.0 * z == limit;
    assert -k as real <= z < -k as real + 1.0;
  }

  /** `raw` turned by `k` whole turns. */
  function Turned(raw: real, k: int): real {
    raw + 360.0 * k as real
  }

  /** The wrapped bearing differs from the raw bearing by a whole number of turns. */
  lemma BearingCongruent(raw: real, wrapFactor: real)
    ensures exists k: int :: Bearing(raw, wrapFactor) == Turned(raw, k)
  {
    var limit := wrapFactor * 360.0;
    var j := if raw > limit then -Turns(raw, limit) else 0;
    var lowered := raw + 360.0 * j as real;
    if lowered <= 0.0 {
      assert Bearing(raw, wrapFactor) == Turned(raw, j + 1);
    } else {
      assert Bearing(raw, wrapFactor) == Turned(raw, j);
    }
  }

  /** With a wrap factor of at least one, no bearing is left above `wrapFactor * 360`. */
  lemma BearingAtMostLimit(raw: real, wrapFactor: real)
    requires wrapFactor >= 1.0
    ensures Bearing(raw, wrapFactor) <= wrapFactor * 360.0
  {
    if raw > wrapFactor * 360.0 {
      LoweredWindow(raw, wrapFactor * 360.0);
    }
  }

  /** A raw bearing above -360 ends up positive (for a non-negative wrap factor). */
  lemma BearingPositive(raw: real, wrapFactor: real)
    requires wrapFactor >= 0.0 && raw > -360.0
    ensures Bearing(raw, wrapFactor) > 0.0
  {
    if raw > wrapFactor * 360.0 {
      LoweredWindow(raw, wrapFactor * 360.0);
    }
  }

  /** A bearing already in (0, wrapFactor * 360] is left unchanged. */
  lemma BearingFixesCanonical(raw: real, wrapFactor: real)
    requires 0.0 < raw <= wrapFactor * 360.0
    ensures Bearing(raw, wrapFactor) == raw
  {
  }

  /** Wrapping twice is wrapping once. */
  lemma BearingIdempotent(raw: real, wrapFactor: real)
    requires wrapFactor >= 1.0 && raw > -360.0
    ensures Bearing(Bearing(raw, wrapFactor), wrapFactor) == Bearing(raw, wrapFactor)
  {
    BearingAtMostLimit(raw, wrapFactor);
    BearingPositive(raw, wrapFactor);
    BearingFixesCanonical(Bearing(raw, wrapFactor), wrapFactor);
  }

  /**
   * The body of `wrap_wind_dir`'s loop for one index: lowers `a[i]` by 360 while it is
   * above `wrapFactor * 360`, then raises it by 360 once if it is <= 0.
   */
  method ClampInPlace(a: array<Num>, i: nat, wrapFactor: real)
    requires i < a.Length
    modifies a
    ensures a[i] == WrapBearing(old(a[i]), wrapFactor)
    ensures forall j :: 0 <= j < a.Length && j != i ==> a[j] == old(a[j])
  {
    var limit := wrapFactor * 360.0;
    ghost var raw := a[i];
    ghost var turns := 0;
    while a[i].Num? && a[i].value > limit
      invariant raw.Num? <==> a[i].Num?
      invariant raw.Num? ==> turns >= 0 && a[i].value == raw.value - 360.0 * turns as real
      invariant raw.Num? && turns > 0 ==> raw.value - 360.0 * (turns - 1) as real > limit
      invariant forall j :: 0 <= j < a.Length && j != i ==> a[j] == old(a[j])
      decreases if a[i].Num? then ((a[i].value - limit) / 360.0).Floor else 0
    {
      a[i] := Num(a[i].value - 360.0);
      turns := turns + 1;
    }
    if raw.Num? && turns > 0 {
      TurnsUnique(raw.value, limit, turns);
    }
    if a[i].Num? && a[i].value <= 0.0 {
      a[i] := Num(a[i].value + 360.0);
    }
  }

  /**
   * `wrap_wind_dir`: the speed column, and the direction column clamped element by
   * element in place.
   */
  method WrapWindDir(m: Math, u: seq<Num>, v: seq<Num>, wrapFactor: real)
    returns (ws: seq<Num>, wd: seq<Num>)
    requires |u| == |v|
    ensures |ws| == |u| && |wd| == |u|
    ensures forall i :: 0 <= i < |u| ==> ws[i] == Speed(m, u[i], v[i])
    ensures forall i :: 0 <= i < |u| ==> wd[i] == WrapBearing(RawBearing(m, u[i], v[i]), wrapFactor)
  {
    ws := seq(|u|, i requires 0 <= i < |u| => Speed(m, u[i], v[i]));
    var a := new Num[|u|];
    forall i | 0 <= i < a.Length {
      a[i] := RawBearing(m, u[i], v[i]);
    }
    for i := 0 to a.Length
      invariant forall j :: 0 <= j < i ==> a[j] == WrapBearing(RawBearing(m, u[j], v[j]), wrapFactor)
      invariant forall j :: i <= j < a.Length ==> a[j] == RawBearing(m, u[j], v[j])
    {
      ClampInPlace(a, i, wrapFactor);
    }
    wd := a[..];
  }
}
