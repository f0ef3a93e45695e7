/**
 * Rotation of the sensor-frame horizontal wind (Um, Vm) into the earth frame by a
 * heading phi, written out identically in both wind_calc.py and calculations.py.
 */
module Rotation {
  import opened Wrappers
  import opened Numerics

  /** Degrees to radians, as `deg * np.pi / 180`. */
  function Radians(deg: Num): Num {
    Over(Times(deg, Num(Pi)), Num(180.0))
  }

  /** u_r = Um cos(phi) + Vm sin(phi) */
  function RotatedU(m: Math, um: Num, vm: Num, phi: Num): Num {
    Plus(Times(um, Cos(m, phi)), Times(vm, Sin(m, phi)))
  }

  /** v_r = -Um sin(phi) + Vm cos(phi) */
  function RotatedV(m: Math, um: Num, vm: Num, phi: Num): Num {
    Plus(Times(Negate(um), Sin(m, phi)), Times(vm, Cos(m, phi)))
  }

  /** Rotating the horizontal pair preserves its squared norm, whatever the heading. */
  lemma RotationPreservesNorm(m: Math, um: real, vm: real, phi: real)
    requires ValidMath(m)
    ensures RotatedU(m, Num(um), Num(vm), Num(phi)).Num?
    ensures RotatedV(m, Num(um), Num(vm), Num(phi)).Num?
    ensures var ur, vr := RotatedU(m, Num(um), Num(vm), Num(phi)).value, RotatedV(m, Num(um), Num(vm), Num(phi)).value;
      ur * ur + vr * vr == um * um + vm * vm
  {
    var s, c := m.sin(phi), m.cos(phi);
    assert s * s + c * c == 1.0;
    var ur, vr := um * c + vm * s, -um * s + vm * c;
    calc {
      ur * ur + vr * vr;
      um * um * (c * c + s * s) + vm * vm * (s * s + c * c);
      um * um + vm * vm;
    }
  }
}
