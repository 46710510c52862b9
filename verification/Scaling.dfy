/**
 * The arithmetic of app/axis_manager: joystick calibration, limits and the scaled setup
 * values. Floats are stored as their IEEE 754 bit patterns; arithmetic is done on the
 * (extended) real numbers they denote, without rounding.
 */
module Scaling {

  type f32 = bv32

  const PLUS_INFINITY: f32 := 0x7F80_0000
  const MINUS_INFINITY: f32 := 0xFF80_0000

  predicate IsFinite(v: f32) { v & 0x7F80_0000 != 0x7F80_0000 }
  predicate IsNan(v: f32) { v & 0x7F80_0000 == 0x7F80_0000 && v & 0x007F_FFFF != 0 }
  predicate IsZero(v: f32) { v & 0x7FFF_FFFF == 0 }

  /** v < 0.0f. */
  predicate IsNegative(v: f32) { v & 0x8000_0000 != 0 && !IsZero(v) && !IsNan(v) }

  function FiniteOrZero(v: f32): f32 { if IsFinite(v) then v else 0 }

  datatype Number = MinusInf | Fin(x: real) | PlusInf | NaN

  function Pow2(e: int): (p: real)
    ensures p > 0.0
    decreases if e < 0 then -e else e
  {
    if e == 0 then 1.0 else if e > 0 then 2.0 * Pow2(e - 1) else Pow2(e + 1) / 2.0
  }

  /** The magnitude of a number by its exponent and fraction fields. */
  function MagnitudeOf(e: nat, m: nat): real {
    if e == 0 then m as real * Pow2(-149) else (m + 0x0080_0000) as real * Pow2(e - 150)
  }

  lemma MagnitudePositive(e: nat, m: nat)
    ensures MagnitudeOf(e, m) >= 0.0 && (MagnitudeOf(e, m) == 0.0 <==> e == 0 && m == 0)
  {
  }

  /** The number a bit pattern denotes. */
  function Decode(v: f32): Number {
    if IsNan(v) then NaN
    else if !IsFinite(v) then if IsNegative(v) then MinusInf else PlusInf
    else
      var x := MagnitudeOf(((v >> 23) & 0xFF) as nat, (v & 0x007F_FFFF) as nat);
      Fin(if IsNegative(v) then -x else x)
  }

  /** How far the numbers of one exponent are apart: the same below the smallest normal number
      and above it, and then twice as far with every exponent. */
  function Gap(e: nat): (g: real)
    ensures g > 0.0
  {
    if e <= 1 then Pow2(-149) else 2.0 * Gap(e - 1)
  }

  /** The numbers follow each other in the order of their fields, from zero on, with 1.0 at
      exponent 127, which fixes every one of them. */
  lemma MagnitudesFollow(e: nat, m: nat)
    ensures MagnitudeOf(0, 0) == 0.0 && MagnitudeOf(127, 0) == 1.0
    ensures MagnitudeOf(e, m + 1) == MagnitudeOf(e, m) + Gap(e)
    ensures MagnitudeOf(e + 1, 0) == MagnitudeOf(e, 0x7F_FFFF) + Gap(e)
  {
    hide Pow2, Gap;
    GapIsPower(e);
    SmallPowers();
    PowerDoubles(e - 150);
    NextMultiple(m, if e == 0 then Pow2(-149) else Pow2(e - 150));
    NextMultiple(m + 0x0080_0000, if e == 0 then Pow2(-149) else Pow2(e - 150));
  }

  lemma NextMultiple(n: nat, p: real)
    ensures (n + 1) as real * p == n as real * p + p
  {
    assert (n + 1) as real == n as real + 1.0;
  }

  lemma {:induction false} GapIsPower(e: nat)
    ensures e == 0 ==> Gap(e) == Pow2(-149)
    ensures e > 0 ==> Gap(e) == Pow2(e - 150)
  {
    if e > 1 {
      GapIsPower(e - 1);
      PowerDoubles(e - 151);
    }
  }

  lemma PowerDoubles(e: int)
    ensures Pow2(e + 1) == 2.0 * Pow2(e)
  {
  }

  lemma {:induction false} PowersAdd(a: int, b: int)
    requires a >= 0 && b >= 0
    ensures Pow2(-(a + b)) * Pow2(a) == Pow2(-b)
    decreases a
  {
    if a > 0 {
      PowersAdd(a - 1, b);
      PowerDoubles(-(a + b));
      PowerDoubles(a - 1);
      assert -(a + b) + 1 == -((a - 1) + b);
      Regroup(Pow2(-(a + b)), Pow2(a - 1));
    }
  }

  lemma Regroup(x: real, y: real)
    ensures x * (2.0 * y) == (2.0 * x) * y
  {
  }

  lemma SmallPowers()
    ensures Pow2(23) == 8388608.0 && 8388608.0 * Pow2(-23) == 1.0
  {
    assert Pow2(8) == 256.0;
    assert Pow2(16) == 65536.0;
    assert Pow2(23) == 8388608.0;
    PowersAdd(23, 0);
  }

  predicate Less(a: Number, b: Number) {
    match (a, b)
    case (Fin(x), Fin(y)) => x < y
    case (MinusInf, Fin(_)) => true
    case (MinusInf, PlusInf) => true
    case (Fin(_), PlusInf) => true
    case _ => false
  }

  function Negate(a: Number): Number {
    match a
    case MinusInf => PlusInf
    case PlusInf => MinusInf
    case Fin(x) => Fin(-x)
    case NaN => NaN
  }

  /** A product; zero times infinity is no number. */
  function Times(a: Number, b: Number): Number {
    match (a, b)
    case (Fin(x), Fin(y)) => Fin(x * y)
    case (NaN, _) => NaN
    case (_, NaN) => NaN
    case _ =>
      if a == Fin(0.0) || b == Fin(0.0) then NaN
      else if Less(a, Fin(0.0)) == Less(b, Fin(0.0)) then PlusInf
      else MinusInf
  }

  /** A C conversion to an integer type drops the fraction. */
  function Truncate(x: real): int {
    if x >= 0.0 then x.Floor else -((-x).Floor)
  }

  // ----- Scaling helpers -----

  function ClampAbs(x: Number, limit: Number): Number {
    var l := if Less(limit, Fin(0.0)) then Negate(limit) else limit;
    if Less(l, x) then l else if Less(x, Negate(l)) then Negate(l) else x
  }

  function ClampRange(x: Number, lo: Number, hi: Number): Number {
    if Less(x, lo) then lo else if Less(hi, x) then hi else x
  }

  const I32_SATURATED := 2147483520
  const U32_SATURATED := 4294967040

  /** Saturate and round half away from zero. */
  function Saturate(raw: real): (r: int)
    ensures -I32_SATURATED <= r <= I32_SATURATED
  {
    if raw > I32_SATURATED as real then I32_SATURATED
    else if raw < -I32_SATURATED as real then -I32_SATURATED
    else
      var t := raw + if raw >= 0.0 then 0.5 else -0.5;
      TruncateBound(t, I32_SATURATED);
      Truncate(t)
  }

  lemma TruncateBound(t: real, n: int)
    requires n >= 0 && -(n as real) - 0.5 <= t <= n as real + 0.5
    ensures -n <= Truncate(t) <= n
  {
    TruncateNear(t);
    var r := Truncate(t);
    assert -((n + 1) as real) < r as real < (n + 1) as real;
  }

  /** Truncation goes towards zero, by less than one. */
  lemma TruncateNear(t: real)
    ensures var r := Truncate(t) as real; if t >= 0.0 then 0.0 <= r <= t < r + 1.0 else r - 1.0 < t <= r <= 0.0
  {
    if t < 0.0 {
      var u := -t;
      assert Truncate(t) == -(u.Floor);
    }
  }

  /** to_scaled_i32, with the scale given as LSBs per unit. NaN, whose conversion C leaves
      open, becomes 0. */
  function ToScaledI32(si: Number, perUnit: real): (r: int)
    requires perUnit > 0.0
    ensures -I32_SATURATED <= r <= I32_SATURATED
  {
    match si
    case PlusInf => I32_SATURATED
    case MinusInf => -I32_SATURATED
    case NaN => 0
    case Fin(x) => Saturate(Product(x, perUnit))
  }

  function Product(x: real, y: real): real { x * y }

  /** What the conversion gives: infinities and numbers beyond the range saturate, and every
      other number becomes the nearest multiple of the scale, a half away from zero. */
  lemma ScaledIsNearest(si: Number, perUnit: real)
    requires perUnit > 0.0
    ensures si == PlusInf ==> ToScaledI32(si, perUnit) == I32_SATURATED
    ensures si == MinusInf ==> ToScaledI32(si, perUnit) == -I32_SATURATED
    ensures si.Fin? ==> Nearest(Product(si.x, perUnit), ToScaledI32(si, perUnit))
  {
    hide Saturate, Nearest, Product;
    if si.Fin? { SaturateIsNearest(Product(si.x, perUnit)); }
  }

  ghost predicate Nearest(raw: real, r: int) {
    var top := I32_SATURATED as real;
    if raw > top then r == I32_SATURATED
    else if raw < -top then r == -I32_SATURATED
    else if raw >= 0.0 then raw - 0.5 < r as real <= raw + 0.5
    else raw - 0.5 <= r as real < raw + 0.5
  }

  lemma SaturateIsNearest(raw: real)
    ensures Nearest(raw, Saturate(raw))
  {
    hide Truncate;
    TruncateNear(if raw >= 0.0 then raw + 0.5 else raw - 0.5);
  }

  function SaturateUnsigned(raw: real): (r: int)
    requires raw > 0.0
    ensures 0 <= r <= U32_SATURATED
  {
    if raw > U32_SATURATED as real then U32_SATURATED
    else
      TruncateBound(raw + 0.5, U32_SATURATED);
      Truncate(raw + 0.5)
  }

  lemma ProductPositive(x: real, y: real)
    requires x > 0.0 && y > 0.0
    ensures Product(x, y) > 0.0
  {
  }

  /** to_scaled_u32. */
  function ToScaledU32(si: Number, perUnit: real): (r: int)
    requires perUnit > 0.0
    ensures 0 <= r <= U32_SATURATED
  {
    match si
    case PlusInf => U32_SATURATED
    case MinusInf => 0
    case NaN => 0
    case Fin(x) =>
      if x <= 0.0 then 0
      else
        ProductPositive(x, perUnit);
        SaturateUnsigned(Product(x, perUnit))
  }

  /** target_time in ms, saturating. */
  function TimeMs(t: Number): (r: int)
    ensures 0 <= r <= 0xFFFF_FFFF
  {
    match t
    case MinusInf => 0
    case NaN => 0
    case PlusInf => 0xFFFF_FFFF
    case Fin(x) =>
      if x <= 0.0 then 0
      else if x * 1000.0 > 4000000000.0 then 0xFFFF_FFFF
      else Truncate(x * 1000.0 + 0.5)
  }

  // ----- Setup parameters -----

  const OFF := 0
  const JOYSTICK := 1
  const PROFILE_VELOCITY := 2
  const PROFILE_POSITION := 3
  const HOLD := 4
  const TORQUE := 5

  /** axis_mode_to_cia402. */
  function ModeToCia402(mode: nat): (m: int)
    ensures m in {0, 1, 3, 4}
  {
    if mode == JOYSTICK || mode == PROFILE_VELOCITY || mode == HOLD then 3
    else if mode == PROFILE_POSITION then 1
    else if mode == TORQUE then 4
    else 0
  }

  /** What compute_desired reads. */
  datatype Targets = Targets(mode: nat, position: f32, time: f32, current: f32)
  datatype Limits = Limits(velocity: f32, accel: f32, lo: f32, hi: f32)

  /** The seven parameters of a setup_snapshot_t by number. */
  const MODE := 1
  const POSITION := 2
  const TIME := 3
  const CURRENT := 4
  const VELOCITY := 5
  const ACCELERATION := 6
  const DECELERATION := 7

  type Setup = s: seq<int> | |s| == 8 witness [0, 0, 0, 0, 0, 0, 0, 0]

  /** compute_desired; entry 0 is unused. */
  function ComputeDesired(t: Targets, l: Limits): Setup {
    hide Decode, ToScaledI32, ToScaledU32, ClampRange, TimeMs;
    var p := ClampRange(Decode(t.position), Decode(l.lo), Decode(l.hi));
    [0,
     ModeToCia402(t.mode),
     ToScaledI32(p, 100000.0),
     TimeMs(Decode(t.time)),
     ToScaledI32(Decode(t.current), 1000.0),
     ToScaledU32(Decode(l.velocity), 1000.0),
     ToScaledU32(Decode(l.accel), 1000.0),
     ToScaledU32(Decode(l.accel), 1000.0)]
  }

  /** The values of s_applied at boot, which no motor ever confirmed. */
  function Sentinels(): Setup {
    [0, 0x7F, -0x8000_0000, 0xFFFF_FFFF, -0x8000_0000, 0xFFFF_FFFF, 0xFFFF_FFFF, 0xFFFF_FFFF]
  }

  /** No desired value is a boot sentinel, so every parameter is written at least once, with
      one exception: a target time above 4.0e6 s saturates to the sentinel of its field. */
  lemma DesiredIsSentinel(t: Targets, l: Limits, k: nat)
    requires 1 <= k <= 7
    ensures ComputeDesired(t, l)[k] == Sentinels()[k] <==> k == TIME && Less(Fin(4000000.0), Decode(t.time))
  {
    hide Decode, ToScaledI32, ToScaledU32, ClampRange;
    var n := Decode(t.time);
    if n.Fin? {
      assert n.x * 1000.0 > 4000000000.0 <==> n.x > 4000000.0;
      if 0.0 < n.x <= 4000000.0 { TruncateBelow(n.x * 1000.0 + 0.5, 4000000001.0); }
    }
  }

  lemma TruncateBelow(x: real, b: real)
    requires x < b
    ensures Truncate(x) as real < b + 1.0
  {
  }

  // ----- Joystick -----

  function AsInt32(u: nat): int
    requires u < 0x1_0000_0000
  {
    if u < 0x8000_0000 then u else u - 0x1_0000_0000
  }

  datatype Calibration = Calibration(center: int, fullPos: int, fullNeg: int, deadband: nat)

  function Clip(v: real): (r: real)
    ensures -1.0 <= r <= 1.0 && (-1.0 <= v <= 1.0 ==> r == v)
  {
    if v > 1.0 then 1.0 else if v < -1.0 then -1.0 else v
  }

  /** recompute_joystick_value_from_raw, on values whose differences do not overflow. */
  function JoystickValue(raw: int, c: Calibration): (v: real)
    requires c.deadband < 0x1_0000_0000
    ensures -1.0 <= v <= 1.0
  {
    var db := AsInt32(c.deadband);
    var delta := raw - c.center;
    Clip(if delta > db then Ratio(delta - db, (c.fullPos - c.center) - db)
         else if delta < -db then -Ratio(-delta - db, (c.center - c.fullNeg) - db)
         else 0.0)
  }

  /** Deflection over span, or zero when the calibration leaves no span. */
  function Ratio(n: int, span: int): real {
    if span > 0 then n as real / span as real else 0.0
  }

  lemma RatioMonotone(a: int, b: int, span: int)
    requires a <= b
    ensures Ratio(a, span) <= Ratio(b, span)
  {
    if span > 0 {
      var x, y, d := a as real, b as real, span as real;
      assert x / d * d == x && y / d * d == y;
      if x / d > y / d { assert x / d * d > y / d * d; }
    }
  }

  /** More deflection never gives less output, for every deadband; and inside a deadband that
      is not negative as a signed integer there is none. */
  lemma JoystickMonotone(raw1: int, raw2: int, c: Calibration)
    requires c.deadband < 0x1_0000_0000 && raw1 <= raw2
    ensures JoystickValue(raw1, c) <= JoystickValue(raw2, c)
    ensures -AsInt32(c.deadband) <= raw1 - c.center <= AsInt32(c.deadband) ==> JoystickValue(raw1, c) == 0.0
  {
    hide Ratio, AsInt32;
    var db := AsInt32(c.deadband);
    var d1, d2 := raw1 - c.center, raw2 - c.center;
    var up, down := (c.fullPos - c.center) - db, (c.center - c.fullNeg) - db;
    RatioOfZero(up);
    RatioOfZero(down);
    if d2 > db { RatioMonotone(if d1 > db then d1 - db else 0, d2 - db, up); }
    if d1 < -db {
      RatioMonotone(if d2 < -db then -d2 - db else 0, -d1 - db, down);
      RatioMonotone(0, -d1 - db, down);
    }
  }

  lemma RatioOfZero(span: int)
    ensures Ratio(0, span) == 0.0
  {
  }

  /** A centred stick reads zero exactly when the deadband, cast to a signed integer, is not
      negative or leaves no span. */
  lemma RestIsZero(c: Calibration)
    requires c.deadband < 0x1_0000_0000
    ensures JoystickValue(c.center, c) == 0.0 <==>
      c.deadband < 0x8000_0000 || c.fullPos - c.center <= AsInt32(c.deadband)
  {
    var db := AsInt32(c.deadband);
    var span := (c.fullPos - c.center) - db;
    if db < 0 && span > 0 { Positive(-db, span); }
  }

  lemma Positive(a: int, s: int)
    requires a > 0 && s > 0
    ensures a as real / s as real > 0.0
  {
  }

  const NORMAL := 0
  const MEDIUM := 1
  const FINE := 2

  function ProfileScale(profile: nat): (s: real)
    ensures 0.0 < s <= 1.0
  {
    if profile == MEDIUM then 0.5 else if profile == FINE then 0.15 else 1.0
  }

  /** recompute_joystick_max_velocity. */
  function MaxVelocity(limit: f32, profile: nat): Number {
    Times(Decode(limit), Fin(ProfileScale(profile)))
  }

  /** current_velocity_demand_rad_s; stick is joystick_value times joystick_max_velocity. */
  function VelocityDemand(mode: nat, stick: Number, target: Number, limit: f32): Number {
    if mode == JOYSTICK then ClampAbs(stick, Decode(limit))
    else if mode == PROFILE_VELOCITY then ClampAbs(target, Decode(limit))
    else Fin(0.0)
  }

  function Abs(a: Number): Number { if Less(a, Fin(0.0)) then Negate(a) else a }

  lemma TruncateMonotone(x: real, y: real)
    requires x <= y
    ensures Truncate(x) <= Truncate(y)
  {
  }

  lemma SaturateMonotone(x: real, y: real)
    requires 0.0 <= x <= y
    ensures 0 <= Saturate(x) <= Saturate(y)
  {
    var top := I32_SATURATED as real;
    assert Truncate(top + 0.5) == I32_SATURATED;
    if x <= top { TruncateMonotone(x + 0.5, if y > top then top + 0.5 else y + 0.5); }
  }

  lemma ScaledMonotone(x: real, y: real)
    requires 0.0 <= x <= y
    ensures 0 <= ToScaledI32(Fin(x), 1000.0) <= ToScaledI32(Fin(y), 1000.0)
  {
    hide Saturate;
    SaturateMonotone(Product(x, 1000.0), Product(y, 1000.0));
  }

  lemma SaturateOdd(raw: real)
    ensures Saturate(-raw) == -Saturate(raw)
  {
    hide Truncate;
    if raw > 0.0 { TruncateOdd(raw + 0.5); }
    if raw < 0.0 { TruncateOdd(raw - 0.5); }
    if raw == 0.0 { HalfIsZero(); }
  }

  lemma TruncateOdd(x: real)
    requires x != 0.0
    ensures Truncate(-x) == -Truncate(x)
  {
    var y := -x;
    assert -y == x;
    assert Truncate(y) == if y >= 0.0 then y.Floor else -((-y).Floor);
  }

  lemma HalfIsZero()
    ensures Truncate(0.0 + 0.5) == 0
  {
  }

  lemma ScaledOdd(a: Number, perUnit: real)
    requires perUnit > 0.0
    ensures ToScaledI32(Negate(a), perUnit) == -ToScaledI32(a, perUnit)
  {
    hide Saturate, Product;
    if a.Fin? {
      NegatedProduct(a.x, perUnit);
      SaturateOdd(Product(a.x, perUnit));
    }
  }

  lemma NegatedProduct(x: real, y: real)
    ensures Product(-x, y) == -Product(x, y)
  {
  }

  /** The streamed setpoint is never larger in magnitude than the scaled, rounded limit,
      whatever the stick, the target and the profile ask for. */
  lemma SetpointWithinLimit(mode: nat, stick: Number, target: Number, limit: f32)
    requires !stick.NaN? && !target.NaN? && !Decode(limit).NaN?
    ensures var bound := ToScaledI32(Abs(Decode(limit)), 1000.0);
      -bound <= ToScaledI32(VelocityDemand(mode, stick, target, limit), 1000.0) <= bound
  {
    hide Decode, ToScaledI32;
    var l := Abs(Decode(limit));
    var v := VelocityDemand(mode, stick, target, limit);
    assert !Less(l, v) && !Less(v, Negate(l)) && !Less(l, Fin(0.0)) && !v.NaN?;
    WithinScaled(v, l);
  }

  /** Without a velocity limit every deflection asks for the largest setpoint. */
  lemma InfiniteLimitSaturates(stick: real, profile: nat, target: Number)
    ensures ToScaledI32(VelocityDemand(JOYSTICK, Times(Fin(stick), MaxVelocity(PLUS_INFINITY, profile)), target, PLUS_INFINITY), 1000.0)
         == if stick > 0.0 then I32_SATURATED else if stick < 0.0 then -I32_SATURATED else 0
  {
    hide ProfileScale;
    assert Decode(PLUS_INFINITY) == PlusInf;
  }

  lemma ScaledOfInfinity()
    ensures ToScaledI32(PlusInf, 1000.0) == I32_SATURATED
  {
  }

  lemma WithinScaled(v: Number, l: Number)
    requires !v.NaN? && !l.NaN? && !Less(l, v) && !Less(v, Negate(l)) && !Less(l, Fin(0.0))
    ensures -ToScaledI32(l, 1000.0) <= ToScaledI32(v, 1000.0) <= ToScaledI32(l, 1000.0)
  {
    hide ToScaledI32;
    ScaledOdd(v, 1000.0);
    ScaledOfInfinity();
    if v.Fin? && l.Fin? {
      if v.x >= 0.0 { ScaledMonotone(v.x, l.x); } else { ScaledMonotone(-v.x, l.x); }
    }
  }
}
