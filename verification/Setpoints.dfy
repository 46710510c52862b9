/**
 * What the computed setpoints mean: the desired setup against targets and limits, and the
 * streamed velocity against stick, profile and velocity limit.
 */
module Setpoints {
  import opened Scaling
  import Proxy = ProxyCache
  import MotorEnd

  /** r is the nearest whole multiple of 1/perUnit to n, as far as 32 signed bits go. */
  ghost predicate Near(n: Number, perUnit: real, r: int) {
    match n
    case PlusInf => r == I32_SATURATED
    case MinusInf => r == -I32_SATURATED
    case NaN => r == 0
    case Fin(x) => Nearest(Product(x, perUnit), r)
  }

  /** The same for unsigned fields: what is negative becomes zero. */
  ghost predicate NearUnsigned(n: Number, perUnit: real, r: int) {
    match n
    case PlusInf => r == U32_SATURATED
    case MinusInf => r == 0
    case NaN => r == 0
    case Fin(x) =>
      var raw, top := Product(x, perUnit), U32_SATURATED as real;
      if x <= 0.0 then r == 0 else if raw > top then r == U32_SATURATED else raw - 0.5 < r as real <= raw + 0.5
  }

  lemma ScaledIsNear(n: Number, perUnit: real)
    requires perUnit > 0.0
    ensures Near(n, perUnit, ToScaledI32(n, perUnit))
  {
    hide Nearest, Product, ToScaledI32;
    ScaledIsNearest(n, perUnit);
    NoNumberIsZero(perUnit);
  }

  lemma NoNumberIsZero(perUnit: real)
    requires perUnit > 0.0
    ensures ToScaledI32(NaN, perUnit) == 0 && ToScaledU32(NaN, perUnit) == 0
  {
  }

  lemma UnsignedIsNear(n: Number, perUnit: real)
    requires perUnit > 0.0
    ensures NearUnsigned(n, perUnit, ToScaledU32(n, perUnit))
  {
    hide Truncate, Product;
    if n.Fin? && n.x > 0.0 {
      ProductPositive(n.x, perUnit);
      TruncateNear(Product(n.x, perUnit) + 0.5);
    }
  }

  /** Between two limits, neither exceeded. */
  predicate Within(x: Number, lo: Number, hi: Number) { !Less(x, lo) && !Less(hi, x) }

  predicate InOrder(lo: Number, hi: Number) { !lo.NaN? && !hi.NaN? && !Less(hi, lo) }

  /** The desired position is the target if that is within the limits, and otherwise the limit
      that it exceeds. */
  lemma DesiredPosition(t: Targets, l: Limits)
    ensures var x, lo, hi := Decode(t.position), Decode(l.lo), Decode(l.hi);
      var d := ComputeDesired(t, l)[POSITION];
      && (Within(x, lo, hi) ==> Near(x, 100000.0, d))
      && (Less(x, lo) ==> Near(lo, 100000.0, d))
      && (!Less(x, lo) && Less(hi, x) ==> Near(hi, 100000.0, d))
  {
    hide Decode, ToScaledI32, ToScaledU32, TimeMs, Near;
    var x, lo, hi := Decode(t.position), Decode(l.lo), Decode(l.hi);
    ScaledIsNear(x, 100000.0);
    ScaledIsNear(lo, 100000.0);
    ScaledIsNear(hi, 100000.0);
  }

  /** Whatever target is set, the motor is never sent beyond the scaled limits. */
  lemma DesiredWithinLimits(t: Targets, l: Limits)
    requires InOrder(Decode(l.lo), Decode(l.hi)) && !Decode(t.position).NaN?
    ensures ToScaledI32(Decode(l.lo), 100000.0) <= ComputeDesired(t, l)[POSITION] <= ToScaledI32(Decode(l.hi), 100000.0)
  {
    hide Decode, ToScaledI32, ToScaledU32, TimeMs;
    var x, lo, hi := Decode(t.position), Decode(l.lo), Decode(l.hi);
    var p := ClampRange(x, lo, hi);
    ScaledOrder(lo, p, 100000.0);
    ScaledOrder(p, hi, 100000.0);
  }

  lemma ScaledOrder(a: Number, b: Number, perUnit: real)
    requires perUnit > 0.0 && !a.NaN? && !b.NaN? && !Less(b, a)
    ensures ToScaledI32(a, perUnit) <= ToScaledI32(b, perUnit)
  {
    hide Saturate, Product;
    if a.Fin? && b.Fin? {
      ProductOrder(a.x, b.x, perUnit);
      SaturateOrder(Product(a.x, perUnit), Product(b.x, perUnit));
    }
  }

  lemma ProductOrder(x: real, y: real, c: real)
    requires x <= y && c > 0.0
    ensures Product(x, c) <= Product(y, c)
  {
  }

  lemma SaturateOrder(x: real, y: real)
    requires x <= y
    ensures Saturate(x) <= Saturate(y)
  {
    hide Saturate;
    if x >= 0.0 {
      SaturateMonotone(x, y);
    } else if y <= 0.0 {
      SaturateMonotone(-y, -x);
      SaturateOdd(x);
      SaturateOdd(y);
    } else {
      SaturateMonotone(0.0, y);
      SaturateMonotone(0.0, -x);
      SaturateOdd(x);
    }
  }

  /** The other six parameters: time in ms, current, velocity limit and acceleration limit, the
      latter for both ramps, each in the motor's unit, and the mode by its number there. */
  lemma DesiredMeans(t: Targets, l: Limits)
    ensures var d := ComputeDesired(t, l);
      && NearTime(Decode(t.time), d[TIME])
      && Near(Decode(t.current), 1000.0, d[CURRENT])
      && NearUnsigned(Decode(l.velocity), 1000.0, d[VELOCITY])
      && NearUnsigned(Decode(l.accel), 1000.0, d[ACCELERATION]) && d[DECELERATION] == d[ACCELERATION]
      && (t.mode in {JOYSTICK, PROFILE_VELOCITY, HOLD} ==> d[MODE] == MotorEnd.MODE_PROFILE_VELOCITY)
      && (t.mode == PROFILE_POSITION ==> d[MODE] == MotorEnd.MODE_PROFILE_POSITION)
      && (t.mode == TORQUE ==> d[MODE] == MotorEnd.MODE_TORQUE)
      && (t.mode == OFF || t.mode > TORQUE ==> d[MODE] == MotorEnd.MODE_DISABLED)
  {
    hide Decode, ToScaledI32, ToScaledU32, TimeMs, Near, NearUnsigned, NearTime, ClampRange;
    ScaledIsNear(Decode(t.current), 1000.0);
    UnsignedIsNear(Decode(l.velocity), 1000.0);
    UnsignedIsNear(Decode(l.accel), 1000.0);
    TimeIsNear(Decode(t.time));
  }

  /** The nearest millisecond, up to 4.0e6 s; beyond that the largest number there is. */
  ghost predicate NearTime(n: Number, r: int) {
    match n
    case PlusInf => r == 0xFFFF_FFFF
    case MinusInf => r == 0
    case NaN => r == 0
    case Fin(x) =>
      if x <= 0.0 then r == 0 else if x > 4000000.0 then r == 0xFFFF_FFFF
      else x * 1000.0 - 0.5 < r as real <= x * 1000.0 + 0.5
  }

  lemma TimeIsNear(n: Number)
    ensures NearTime(n, TimeMs(n))
  {
    hide Truncate;
    if n.Fin? && n.x > 0.0 { TruncateNear(n.x * 1000.0 + 0.5); }
  }

  // ----- Limits read back -----

  /** A zero in a position limit of the motor restricts nothing: with both adopted every target
      stays as it is, and with one only the other limits it. */
  lemma ZeroLimitsRestrictNothing(x: Number, v: f32, w: f32)
    requires !x.NaN?
    ensures var lo, hi := Decode(Proxy.Adopted(Proxy.POS_LIMIT_LO, v)), Decode(Proxy.Adopted(Proxy.POS_LIMIT_HI, w));
      && (IsZero(v) && IsZero(w) ==> ClampRange(x, lo, hi) == x)
      && (IsZero(v) && !IsZero(w) && !Less(Decode(w), x) ==> ClampRange(x, lo, hi) == x)
      && (IsZero(w) && !IsZero(v) && !Less(x, Decode(v)) ==> ClampRange(x, lo, hi) == x)
      && (!IsZero(v) && !IsZero(w) ==> lo == Decode(v) && hi == Decode(w))
  {
    InfinitiesDecode();
    hide Decode;
  }

  lemma InfinitiesDecode()
    ensures Decode(PLUS_INFINITY) == PlusInf && Decode(MINUS_INFINITY) == MinusInf
  {
  }

  // ----- The streamed velocity -----

  /** The velocity asked for before the limit. */
  function Wanted(mode: nat, stick: Number, target: Number): Number {
    if mode == JOYSTICK then stick else if mode == PROFILE_VELOCITY then target else Fin(0.0)
  }

  /** The streamed velocity is the one asked for, or the limit in its direction. */
  lemma DemandMeans(mode: nat, stick: Number, target: Number, limit: f32)
    requires !Wanted(mode, stick, target).NaN? && !Decode(limit).NaN?
    ensures var v, top, d := Wanted(mode, stick, target), Abs(Decode(limit)), VelocityDemand(mode, stick, target, limit);
      && Near(d, 1000.0, ToScaledI32(d, 1000.0))
      && (!Less(top, Abs(v)) ==> d == v)
      && (Less(top, v) ==> d == top)
      && (Less(v, Negate(top)) ==> d == Negate(top))
  {
    hide Decode, ToScaledI32, Near;
    ScaledIsNear(VelocityDemand(mode, stick, target, limit), 1000.0);
  }

  /** Full deflection asks for the velocity limit, half of it or 15 percent, by the profile. */
  lemma ProfileScales(limit: f32)
    requires Decode(limit).Fin?
    ensures var v := Decode(limit).x;
      && MaxVelocity(limit, NORMAL) == Fin(v) && MaxVelocity(limit, MEDIUM) == Fin(v * 0.5) && MaxVelocity(limit, FINE) == Fin(v * 0.15)
  {
    hide Decode;
  }

  /** Between deadband and full deflection the stick is linear, on both sides, and it reaches
      one at the calibrated ends. */
  lemma JoystickLinear(raw: int, c: Calibration)
    requires c.deadband < 0x8000_0000
    ensures var db, up, down := c.deadband as int, c.fullPos - c.center - c.deadband, c.center - c.fullNeg - c.deadband;
      var d := raw - c.center;
      && (db < d <= db + up ==> JoystickValue(raw, c) * (up as real) == (d - db) as real)
      && (db < -d <= db + down ==> JoystickValue(raw, c) * (down as real) == -((-d - db) as real))
      && (d > db && d >= db + up > db ==> JoystickValue(raw, c) == 1.0)
      && (-d > db && -d >= db + down > db ==> JoystickValue(raw, c) == -1.0)
  {
    hide Ratio;
    var db, up, down := c.deadband as int, c.fullPos - c.center - c.deadband, c.center - c.fullNeg - c.deadband;
    var d := raw - c.center;
    if d > db && up > 0 { RatioMeans(d - db, up); }
    if -d > db && down > 0 { RatioMeans(-d - db, down); }
  }

  lemma RatioMeans(n: int, span: int)
    requires n > 0 && span > 0
    ensures Ratio(n, span) * (span as real) == n as real
    ensures 0.0 < Ratio(n, span) && (n <= span ==> Ratio(n, span) <= 1.0) && (n >= span ==> Ratio(n, span) >= 1.0)
  {
    QuotientMeans(n as real, span as real);
  }

  lemma QuotientMeans(x: real, s: real)
    requires x > 0.0 && s > 0.0
    ensures x / s * s == x && 0.0 < x / s
    ensures x <= s <==> x / s <= 1.0
    ensures x >= s <==> x / s >= 1.0
  {
    assert x / s * s == x;
    assert (x / s - 1.0) * s == x - s;
  }
}
