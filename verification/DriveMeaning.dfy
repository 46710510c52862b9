/**
 * What the axis does with commands, buttons and statuses, in terms of their meaning: which
 * drives are told to run, how fast, and when a fault clears itself.
 */
module DriveMeaning {
  import opened AxisManager
  import opened Bytes
  import opened MotorEnd
  import opened Scaling
  import opened Pipeline
  import opened Setpoints
  import opened System
  import opened Time
  import opened Homing
  import Proxy = ProxyCache
  import Seq = Sequencers
  import Sequencer = SetupSequencer
  import Trigger

  // ----- The composed word -----

  /** A drive runs if it was enabled in a mode other than OFF and is neither stopped nor faulted. */
  predicate Runs(d: Drive) { d.enable && d.targets.mode != 0 && !d.quickStop && !d.faulted }

  /**
   * The word that a compose hands to the link. ENABLE is up exactly for a drive that runs; the
   * quick-stop bit is down for the one cycle of a stop; HALT is up in HOLD and during a
   * requested halt, NEW_SETPOINT from the trigger on, and both only without stop and fault. The
   * velocity is that of stick or target, to the nearest unit and no more than the limit, for an
   * enabled drive, and zero for every other.
   */
  lemma WordMeans(s: Sys)
    requires s.Valid()
    ensures var d, w := s.drive, Next(s, ComposeTick).word;
      var limit := s.proxy.slots[Proxy.VEL_LIMIT].mirror;
      var demand := VelocityDemand(d.targets.mode, Times(d.stick, d.maxVelocity), Decode(d.targetVelocity), limit);
      && (w.enable <==> Runs(d))
      && (w.notQuickStop <==> !d.quickStop)
      && (w.faultReset <==> d.clearFault || d.faultReset > 0)
      && (w.halt <==> !d.quickStop && !d.faulted && ((d.enable && d.targets.mode == 4) || d.halt > 0))
      && (w.newSetpoint <==> !d.quickStop && !d.faulted && (Trigger.Fires(s) || d.newSetpoint > 0))
      && (if d.enable && !d.quickStop && !d.faulted then Near(demand, 1000.0, w.velocity) else w.velocity == 0)
  {
    hide ComputeDesired, Sequencer.Busy, VelocityDemand, Near, ToScaledI32;
    var d := s.drive;
    ScaledIsNear(VelocityDemand(d.targets.mode, Times(d.stick, d.maxVelocity), Decode(d.targetVelocity),
                                s.proxy.slots[Proxy.VEL_LIMIT].mirror), 1000.0);
  }

  /**
   * Once the drive is off, by a command or a quick stop, it comes on again without a command if
   * and only if a motor save was in progress that had found it on, and has ended: the save gives
   * back what it found. Until then no word has ENABLE or a velocity.
   */
  lemma OffUnlessSaved(s: Sys, run: seq<Step>)
    requires s.Valid() && ValidRun(run) && !s.drive.enable && !EverSwitches(s, run)
    ensures var m, w := After(s, run), Next(After(s, run), ComposeTick).word;
      var comesOn := s.save.state != Seq.SaveIdle && s.save.wasEnabled && m.save.state == Seq.SaveIdle;
      (m.drive.enable <==> comesOn) && (w.enable || w.velocity != 0 ==> comesOn)
  {
    hide Next, Switches;
    SaveKeepsWord(s, run, s.save.state != Seq.SaveIdle && s.save.wasEnabled);
    WordMeans(After(s, run));
  }

  lemma {:induction false} SaveKeepsWord(s: Sys, run: seq<Step>, on: bool)
    requires s.Valid() && ValidRun(run) && GivesBack(s, on) && !EverSwitches(s, run)
    ensures GivesBack(After(s, run), on)
    decreases |run|
  {
    hide Next, Switches, GivesBack;
    if run != [] {
      SaveKeepsWord(s, run[..|run| - 1], on);
      SaveHolds(After(s, run[..|run| - 1]), run[|run| - 1], on);
    }
  }

  /** So a quick stop during a save does not last: the save's end enables the drive again. */
  lemma QuickStopUndone(s: Sys, now: nat)
    requires s.Valid() && s.drive.quickStop && !s.drive.faulted && s.drive.targets.mode != OFF
    requires s.save.state == Seq.Reenable && s.save.wasEnabled && Elapsed(now, s.save.phaseMs) >= 50
    ensures var stopped := Next(s, ComposeTick);
      var resumed := Next(stopped, SaveTick(now));
      && !stopped.word.enable && !stopped.word.notQuickStop && !stopped.drive.enable
      && resumed.drive.enable && Next(resumed, ComposeTick).word.enable
  {
    hide Next;
    var stopped := Next(s, ComposeTick);
    WordMeans(s);
    StopTaken(s);
    SaveEnds(stopped, now);
    WordMeans(Next(stopped, SaveTick(now)));
  }

  lemma StopTaken(s: Sys)
    requires s.Valid() && s.drive.quickStop
    ensures var t := Next(s, ComposeTick);
      && !t.drive.enable && !t.drive.quickStop && t.save == s.save
      && t.drive.faulted == s.drive.faulted && t.drive.targets == s.drive.targets
  {
    hide ComputeDesired, Sequencer.Busy, Demand;
  }

  lemma SaveEnds(s: Sys, now: nat)
    requires s.Valid() && s.save.state == Seq.Reenable && s.save.wasEnabled && Elapsed(now, s.save.phaseMs) >= 50
    ensures Next(s, SaveTick(now)).drive == s.drive.(enable := true)
  {
    hide Elapsed;
  }

  /** The limits and targets behind the setup: velocity and acceleration limit are the mirrors of
      cache slots 3 and 4, the position limits those of slots 5 and 6. */
  lemma SetupOfAxis(s: Sys)
    ensures var d, x := s.Desired(), s.proxy.slots;
      var p, lo, hi := Decode(s.drive.targets.position), Decode(x[5].mirror), Decode(x[6].mirror);
      && NearUnsigned(Decode(x[3].mirror), 1000.0, d[VELOCITY])
      && NearUnsigned(Decode(x[4].mirror), 1000.0, d[ACCELERATION]) && NearUnsigned(Decode(x[4].mirror), 1000.0, d[DECELERATION])
      && (Within(p, lo, hi) ==> Near(p, 100000.0, d[POSITION]))
      && (Less(p, lo) ==> Near(lo, 100000.0, d[POSITION]))
      && (!Less(p, lo) && Less(hi, p) ==> Near(hi, 100000.0, d[POSITION]))
      && NearTime(Decode(s.drive.targets.time), d[TIME]) && Near(Decode(s.drive.targets.current), 1000.0, d[CURRENT])
  {
    hide ComputeDesired, Decode, Near, NearUnsigned, NearTime, Less;
    DesiredPosition(s.drive.targets, LimitsOf(s.proxy));
    DesiredMeans(s.drive.targets, LimitsOf(s.proxy));
  }

  // ----- Commands -----

  /** A command changes its own field of the drive and no other: a mode if there is one of that
      number, a target unless it is no number (or a negative time), the stick's value if it is
      within -1 and 1 or no number. */
  lemma SteerMeans(s: Sys, r: DriveRequest)
    requires s.Valid() && (r.JoystickRaw? ==> r.calibration.deadband < TWO_32)
    ensures ValidStep(SteerStep(s.drive, r))
    ensures var d, t := s.drive, Next(s, SteerStep(s.drive, r));
      t == s.(drive := t.drive) &&
      match r
      case OpMode(m) => t.drive == if m <= 5 then d.(targets := d.targets.(mode := m)) else d
      case TargetPosition(v) => t.drive == if Decode(v).NaN? then d else d.(targets := d.targets.(position := v))
      case TargetTime(v) =>
        t.drive == if Decode(v).NaN? || Less(Decode(v), Fin(0.0)) then d else d.(targets := d.targets.(time := v))
      case TargetCurrent(v) => t.drive == if Decode(v).NaN? then d else d.(targets := d.targets.(current := v))
      case TargetVelocity(v) => t.drive == if Decode(v).NaN? then d else d.(targetVelocity := v)
      case JoystickRaw(raw, c) => t.drive == d.(stick := Fin(JoystickValue(raw, c)))
      case StickValue(v) =>
        t.drive == if Less(Decode(v), Fin(-1.0)) || Less(Fin(1.0), Decode(v)) then d else d.(stick := Decode(v))
      case EnableAxis(on) => t.drive == d.(enable := on)
      case QuickStop => t.drive == d.(quickStop := true)
      case ClearFault => t.drive == d.(clearFault := true)
      case StartMove => t.drive == d.(startMove := true)
      case HaltAxis => t.drive == d.(halt := 3)
  {
    hide Decode, IsNan, IsNegative, JoystickValue, Next;
    SteersDrive(s.drive, r);
    DriveSteps(s, SteerStep(s.drive, r));
    if r.TargetPosition? || r.TargetTime? || r.TargetCurrent? || r.TargetVelocity? { Proxy.SignOfNumber(r.v); }
  }

  // ----- Buttons -----

  /**
   * What one poll of the buttons does. Held, they drive the stick: full up, full down, or rest
   * for both; the first press also enables the drive and takes it to JOYSTICK. Released, they
   * hold the stick at rest as long as the motor moves, and then give back the mode and the
   * stick; without a press before, nothing happens.
   */
  lemma ButtonsMean(s: Sys, p: Panel, up: bool, down: bool)
    requires s.Valid() && p.calibration.deadband < TWO_32
    ensures var d, t, q := s.drive, After(s, ButtonSteps(p, s.drive.targets, up, down)), PanelAfter(p, s.drive.targets, up, down);
      t == s.(drive := t.drive) &&
      if up || down then
        var held := d.(stick := Fin(if up && down then 0.0 else if up then 1.0 else -1.0));
        && t.drive == (if p.own then held else held.(enable := true, targets := d.targets.(mode := 1)))
        && q.own && q.prev == (if p.own then p.prev else d.targets.mode)
      else if !p.own then t.drive == d && q == p
      else if p.moving then t.drive == d.(stick := Fin(0.0)) && q.own && q.prev == p.prev
      else
        && !q.own
        && t.drive == d.(targets := if p.prev <= 5 then d.targets.(mode := p.prev) else d.targets, stick := Fin(JoystickValue(p.raw, p.calibration)))
  {
    hide JoystickValue, ButtonSteps, After;
    ButtonsAreSteps(s, p, up, down);
  }

  // ----- Statuses -----

  /** FAULT is bit 0x0008 of the statusword, MOVING bit 0x0001 of the movement status, each in
      the low byte of its field. */
  lemma StatusBits(header: seq<byte>)
    requires |header| == 18
    ensures header[0] & SW_FAULT != 0 <==> Has(Rd16(header[0..2]), 0x0008)
    ensures header[MOVEMENT_STATUS] & MOVE_MOVING != 0 <==> Has(Rd16(header[16..18]), 0x0001)
  {
    LowBits(header[0]);
    LowBits(header[16]);
    var s, m := header[0..2], header[16..18];
    assert s[0] == header[0] && m[0] == header[16];
    LowByte(Value(s[0]), Value(s[1]));
    LowByte(Value(m[0]), Value(m[1]));
  }

  lemma LowBits(b: byte)
    ensures b & 8 != 0 <==> Value(b) / 8 % 2 == 1
    ensures b & 1 != 0 <==> Value(b) / 1 % 2 == 1
  {
    hide Value;
    FourthBit(b);
    FirstBit(b);
  }

  lemma FourthBit(b: byte)
    ensures b & 8 != 0 <==> Value(b) / 8 % 2 == 1
  {
    assert b & 8 != 0 <==> (b >> 3) & 1 == 1;
  }

  lemma FirstBit(b: byte)
    ensures b & 1 != 0 <==> Value(b) / 1 % 2 == 1
  {
  }

  lemma LowByte(lo: nat, hi: nat)
    ensures (lo + 256 * hi) / 8 % 2 == lo / 8 % 2 && (lo + 256 * hi) / 1 % 2 == lo / 1 % 2
  {
    var q, r := lo / 8, lo % 8;
    EighthOf(q + 32 * hi, r);
    ParityOf(q, 16 * hi);
    ParityOf(lo, 128 * hi);
  }

  lemma EighthOf(q: nat, r: nat)
    requires r < 8
    ensures (8 * q + r) / 8 == q
  {
  }

  /** The dwell timer after ticks that all found a fault, the first of them entering it. */
  function Dwelt(ticks: seq<nat>): nat {
    if ticks == [] then 0 else DwellStart(Dwelt(ticks[..|ticks| - 1]), true, ticks[|ticks| - 1])
  }

  /** Without a fault nothing is cleared, and the next fault starts the count anew. */
  lemma NoFaultResets(since: nat, now: nat)
    ensures DwellStart(since, false, now) == 0 && !AutoClears(since, false, now) && !AutoClears(0, true, now)
  {
  }

  /** A fault that lasts is cleared at the first tick five seconds after it began, and not before. */
  lemma LastingFaultClears(ticks: seq<nat>, now: nat)
    requires ticks != [] && Clock(ticks[0]) != 0
    requires forall i :: 0 <= i < |ticks| ==> ticks[0] <= ticks[i] < ticks[0] + 5000
    requires ticks[0] <= now < ticks[0] + TWO_32
    ensures AutoClears(Dwelt(ticks), true, now) <==> now >= ticks[0] + 5000
  {
    hide Elapsed, Clock;
    StillDwells(ticks);
    ElapsedIsReal(ticks[0], now);
  }

  lemma {:induction false} StillDwells(ticks: seq<nat>)
    requires ticks != [] && Clock(ticks[0]) != 0
    requires forall i :: 0 <= i < |ticks| ==> ticks[0] <= ticks[i] < ticks[0] + 5000
    ensures Dwelt(ticks) == Clock(ticks[0])
  {
    hide Elapsed, Clock;
    var n := |ticks| - 1;
    if n == 0 {
      assert ticks[..0] == [];
    } else {
      assert ticks[..n][0] == ticks[0];
      StillDwells(ticks[..n]);
      ElapsedIsReal(ticks[0], ticks[n]);
    }
  }

  // ----- The tick -----

  /** The order in which one tick of the axis runs its clients, and the status bits it reads. */
  lemma TickOrder(a: AxisManager, now: nat, up: bool, down: bool)
    requires a.Valid()
    ensures a.Steps(now, up, down) ==
      [ReadStatus(a.Faulted())] + (if a.ClearDue(now) then [RequestClearFault] else [])
      + [LoadTick, BootTick(now), ProxyTick, SaveTick(now), HomeTick(now)]
      + ButtonSteps(a.Seen(), a.drive.targets, up, down) + [SetupTick, ComposeTick]
    ensures a.cia.status.ever ==>
      var h := a.cia.status.header;
      && a.Faulted() == Has(Rd16(h[0..2]), 0x0008) && a.Seen().moving == Has(Rd16(h[16..18]), 0x0001)
      && (a.ClearDue(now) <==> AutoClears(a.faultSinceMs, a.Faulted(), now))
    ensures !a.cia.status.ever ==> a.Faulted() == a.drive.faulted && a.Seen() == a.panel && !a.ClearDue(now)
  {
    hide AutoClears, ButtonSteps, Rd16, MaxVelocity;
    if a.cia.status.ever { StatusBits(a.cia.status.header); }
  }

  // ----- Load factor -----

  /** A load factor is kept if it is between 0.3 and 2.0, and goes to the motor at once if no
      earlier one is on its way and the slot is free; otherwise it is only kept. */
  lemma LoadMeans(s: Sys, v: f32)
    requires s.Valid()
    ensures var t, n := Next(s, SetLoad(v)), Decode(v);
      if n.NaN? || Less(n, Fin(0.3)) || Less(Fin(2.0), n) then t == s
      else
        && t.load.factor == v && t == s.(pipe := t.pipe, load := t.load)
        && (if !s.load.pending && s.pipe.slot.phase == Idle then
              t.load.pending && t.load.handle == t.pipe.slot.handle && t.pipe.slot.phase == Pending && t.pipe.slot.req == Seq.LoadWrite(v)
            else t.pipe == s.pipe && t.load == s.load.(factor := v))
  {
    hide Decode, Split32, IsNan;
    Proxy.SignOfNumber(v);
  }
}
