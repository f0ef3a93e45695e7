/**
 * First-order (delta method) error propagation shared by both error stages:
 * sqrt((dx/d_sensor)^2 e_sensor^2 + (dx/d_phi)^2 e_phi^2 + (dx/d_vel)^2 e_vel^2),
 * where the partial with respect to the aircraft velocity is 1.
 */
module ErrorPropagation {
  import opened Numerics

  function PropagatedError(m: Math, dSensor: Num, errSensor: real, dPhi: Num, errPhi: real, errVel: real): Num {
    Sqrt(m, Plus(Plus(
      Times(Square(dSensor), Num(errSensor * errSensor)),
      Times(Square(dPhi), Num(errPhi * errPhi))),
      Num(1.0 * 1.0 * (errVel * errVel))))
  }

  /** The propagated error is defined when both partials are, and is then never below
      the velocity error alone, since the velocity partial is 1. */
  lemma PropagatedErrorAtLeastVelocityError(m: Math, dSensor: Num, errSensor: real, dPhi: Num, errPhi: real, errVel: real)
    requires ValidMath(m)
    requires 0.0 <= errVel
    ensures PropagatedError(m, dSensor, errSensor, dPhi, errPhi, errVel).Num? <==> dSensor.Num? && dPhi.Num?
    ensures PropagatedError(m, dSensor, errSensor, dPhi, errPhi, errVel).Num? ==>
      PropagatedError(m, dSensor, errSensor, dPhi, errPhi, errVel).value >= errVel
  {
    if dSensor.Num? && dPhi.Num? {
      var a := dSensor.value * dSensor.value * (errSensor * errSensor);
      var b := dPhi.value * dPhi.value * (errPhi * errPhi);
      var c := 1.0 * 1.0 * (errVel * errVel);
      assert 0.0 <= dSensor.value * dSensor.value && 0.0 <= errSensor * errSensor;
      assert 0.0 <= a;
      assert 0.0 <= dPhi.value * dPhi.value && 0.0 <= errPhi * errPhi;
      assert 0.0 <= b;
      assert Plus(Plus(Times(Square(dSensor), Num(errSensor * errSensor)), Times(Square(dPhi), Num(errPhi * errPhi))), Num(c)) == Num(a + b + c);
      SqrtAtLeast(m, a + b + c, errVel);
    }
  }
}
