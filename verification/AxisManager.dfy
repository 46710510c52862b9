/**
 * app/axis_manager as its static variables and the functions that run on them, each proved
 * to be the corresponding step of the system model. Every clock reading within one call is
 * the same.
 */
module AxisManager {
  import opened Bytes
  import opened Pipeline
  import opened Scaling
  import opened System
  import opened Time
  import Link = Cia402
  import Q = SetupSequencer
  import Proxy = ProxyCache
  import Seq = Sequencers
  import Bridge
  import opened Wire

  // MC_IF_SW_*
  const SW_FAULT: byte := 0x08
  // MC_IF_MOVE_MOVING, in the low byte of the status header's last field
  const MOVE_MOVING: byte := 0x01
  const MOVEMENT_STATUS := 16
  const AUTO_FAULT_CLEAR_DELAY_MS := 5000

  const ONE: f32 := 0x3F80_0000

  /** The on-board buttons: whether they own the mode, the mode to restore and whether they wait
      for the motor to stop; the motor's moving bit; the stick's raw value and calibration. */
  datatype Panel = Panel(own: bool, prev: nat, releasing: bool, moving: bool, raw: int, calibration: Calibration)

  const FACTORY_STICK := Calibration(0, 127, -127, 0)

  /** The setters and requests that change one field of s_axis. */
  datatype DriveRequest =
    | OpMode(mode: nat)
    | TargetPosition(v: f32)
    | TargetTime(v: f32)
    | TargetCurrent(v: f32)
    | TargetVelocity(v: f32)
    | JoystickRaw(raw: int, calibration: Calibration)
    | StickValue(v: f32)
    | EnableAxis(on: bool)
    | QuickStop
    | ClearFault
    | StartMove
    | HaltAxis

  /** The range test of axis_manager_set_joystick_value, which a NaN passes. */
  predicate InUnit(v: f32) { !Less(Decode(v), Fin(-1.0)) && !Less(Fin(1.0), Decode(v)) }

  predicate IsTarget(r: DriveRequest) { r.OpMode? || r.TargetPosition? || r.TargetTime? || r.TargetCurrent? }

  /** All requests the other modules make. */
  datatype AxisRequest =
    | Steer(request: DriveRequest)
    | LoadFactor(v: f32)
    | Proxied(slot: nat, v: f32)
    | JoyProfile(profile: nat)
    | MotorSave
    | Home
    | Resync

  ghost predicate ValidRequest(r: AxisRequest) {
    (r.Proxied? ==> r.slot < Proxy.SLOT_COUNT) &&
    (r.Steer? && r.request.JoystickRaw? ==> r.request.calibration.deadband < TWO_32)
  }

  /** A rejected value makes a step that changes nothing. */
  ghost function SteerStep(d: Drive, r: DriveRequest): Step
    requires r.JoystickRaw? ==> r.calibration.deadband < TWO_32
  {
    match r
    case OpMode(m) => SetTargets(if m <= TORQUE then d.targets.(mode := m) else d.targets)
    case TargetPosition(v) => SetTargets(if IsNan(v) then d.targets else d.targets.(position := v))
    case TargetTime(v) => SetTargets(if IsNegative(v) || IsNan(v) then d.targets else d.targets.(time := v))
    case TargetCurrent(v) => SetTargets(if IsNan(v) then d.targets else d.targets.(current := v))
    case TargetVelocity(v) => SetTargetVelocity(if IsNan(v) then d.targetVelocity else v)
    case JoystickRaw(raw, c) => SetStick(Fin(JoystickValue(raw, c)))
    case StickValue(v) => SetStick(if InUnit(v) then Decode(v) else d.stick)
    case EnableAxis(on) => Enable(on)
    case QuickStop => RequestQuickStop
    case ClearFault => RequestClearFault
    case StartMove => RequestStartMove
    case HaltAxis => RequestHalt
  }

  ghost predicate IsDriveStep(e: Step) {
    e.SetTargets? || e.SetTargetVelocity? || e.SetStick? || e.Enable? || e.RequestQuickStop? || e.RequestClearFault? ||
    e.RequestStartMove? || e.RequestHalt?
  }

  /** What such a step does to the drive. */
  ghost function DriveAfter(d: Drive, e: Step): Drive {
    match e
    case SetTargets(t) => d.(targets := t)
    case SetTargetVelocity(v) => d.(targetVelocity := v)
    case SetStick(v) => d.(stick := v)
    case Enable(on) => d.(enable := on)
    case RequestQuickStop => d.(quickStop := true)
    case RequestClearFault => d.(clearFault := true)
    case RequestStartMove => d.(startMove := true)
    case RequestHalt => d.(halt := PULSE_CYCLES)
    case _ => d
  }

  ghost function StepOf(d: Drive, r: AxisRequest, now: nat): (e: Step)
    requires ValidRequest(r)
    ensures ValidStep(e)
  {
    match r
    case Steer(q) => SteerStep(d, q)
    case LoadFactor(v) => SetLoad(v)
    case Proxied(k, v) => SetSlot(k, v)
    case JoyProfile(p) => SetProfile(p)
    case MotorSave => RequestSave(now)
    case Home => RequestHome(now)
    case Resync => RequestResync(now)
  }

  class AxisManager {
    const cia: Link.Cia402
    // s_proxy_slots, each with the field of s_axis that mirrors it
    const slots: array<Proxy.Entry>
    // s_seq_step, s_seq_handle and s_applied
    var setup: Q.Sequencer
    // load_factor, s_load_factor_handle and s_load_factor_pending
    var load: Seq.Load
    var proxyHandle: int
    var proxyPending: bool
    var proxyInflight: nat
    // the statics of tick_proxy_bootsync, tick_motor_save and tick_home_sequencer
    var boot: Proxy.Boot
    var save: Seq.Save
    var home: Seq.Home
    var faultSinceMs: nat
    var panel: Panel
    // the rest of s_axis and the pulse counters
    var drive: Drive
    var word: Word

    /** axis_manager_init; `limits` are the persisted ones, or the defaults. */
    constructor (cia: Link.Cia402, limits: Limits)
      requires cia.Valid() && cia.pipe == EmptyPipe()
      ensures Valid() && this.cia == cia && fresh(slots) && word == QUIET_WORD
      ensures !drive.enable && drive.targets == Targets(OFF, 0, 0, 0) && drive.profile == NORMAL && load.factor == 0x3F80_0000
      ensures panel == Panel(false, OFF, false, false, 0, Calibration(0, 127, -127, 0)) && faultSinceMs == 0
      ensures forall bridge: Bridge.Queue, store :: !bridge.inFlight ==> Initial(View(0, bridge, Motor(store, false, 0, 0)))
    {
      hide MaxVelocity;
      this.cia := cia;
      slots := new Proxy.Entry[Proxy.SLOT_COUNT](k => Proxy.Entry(0, false,
        if k == Proxy.VEL_LIMIT then limits.velocity else if k == Proxy.ACCEL_LIMIT then limits.accel
        else if k == Proxy.POS_LIMIT_LO then limits.lo else if k == Proxy.POS_LIMIT_HI then limits.hi else 0));
      setup := Q.Sequencer(Q.IDLE_STEP, NO_HANDLE, Sentinels());
      load := Seq.Load(ONE, NO_HANDLE, false);
      proxyHandle, proxyPending, proxyInflight := NO_HANDLE, false, 0;
      boot := Proxy.Boot(Proxy.BootIdle, NO_HANDLE, 0, 0, 0, 0);
      save := Seq.Save(Seq.SaveIdle, 0, 0, false, NO_HANDLE);
      home := Seq.Home(Seq.HomeIdle, NO_HANDLE, 0, 0, 0, false, false, false);
      faultSinceMs := 0;
      panel := Panel(false, OFF, false, false, 0, FACTORY_STICK);
      drive := Drive(false, false, false, false, false, 0, 0, 0, Targets(OFF, 0, 0, 0), Fin(0.0), 0, NORMAL,
                     MaxVelocity(limits.velocity, NORMAL));
      word := QUIET_WORD;
    }

    ghost function ProxyPart(): Proxy.Proxy
      requires slots.Length == Proxy.SLOT_COUNT
      reads this, slots
    {
      Proxy.Proxy(slots[..], proxyHandle, proxyPending, proxyInflight)
    }

    ghost predicate Valid()
      reads this, slots, cia, cia.txData
    {
      && cia.Valid() && cia.status.Valid() && slots.Length == Proxy.SLOT_COUNT
      && setup.Valid() && ProxyPart().Valid() && boot.Valid()
      && panel.calibration.deadband < TWO_32
      && drive.maxVelocity == MaxVelocity(slots[Proxy.VEL_LIMIT].mirror, drive.profile)
    }

    /** The system as seen from here: its other parts are parameters. */
    ghost function View(frames: nat, bridge: Bridge.Queue, motor: Motor): (s: Sys)
      requires Valid()
      reads this, slots, cia, cia.txData
      ensures s.Valid()
    {
      Sys(cia.pipe, frames, setup, load, ProxyPart(), boot, save, home, bridge, drive, word, motor)
    }

    // ----- Setup sequencer -----

    /** compute_desired. */
    function Desired(): Setup
      requires slots.Length == Proxy.SLOT_COUNT
      reads this, slots
    {
      ComputeDesired(drive.targets, Limits(slots[Proxy.VEL_LIMIT].mirror, slots[Proxy.ACCEL_LIMIT].mirror,
                                           slots[Proxy.POS_LIMIT_LO].mirror, slots[Proxy.POS_LIMIT_HI].mirror))
    }

    /** apply_completed_step. */
    method ApplyCompletedStep(result: nat, desired: Setup)
      requires 1 <= setup.step <= Q.LAST_STEP
      modifies `setup
      ensures setup == old(setup).(applied := if result == OD_OK then old(setup).applied[old(setup).step := desired[old(setup).step]] else old(setup).applied)
    {
      if result != OD_OK { return; }
      setup := setup.(applied := setup.applied[setup.step := desired[setup.step]]);
    }

    /** start_sdo_write: the new step, idle if the slot is taken. */
    method StartSdoWrite(k: nat, desired: Setup) returns (step: nat)
      requires Valid() && 1 <= k <= Q.LAST_STEP && setup.step == Q.IDLE_STEP
      modifies `setup, cia`pipe, cia.txData
      ensures cia.Valid()
      ensures var begun := Begin(old(cia.pipe), Q.WriteOf(k, desired));
        && cia.pipe == begun.0
        && (begun.1 == NO_HANDLE ==> step == Q.IDLE_STEP && setup == old(setup))
        && (begun.1 != NO_HANDLE ==> step == k && setup == old(setup).(handle := begun.1))
    {
      hide Q.Encode;
      var h := cia.OdWriteBegin(Q.SetupIndex(k), 0, Q.SetupType(k), Q.Encode(k, desired[k]));
      if h == NO_HANDLE { return Q.IDLE_STEP; }
      setup := setup.(handle := h);
      return k;
    }

    /** Stage 1 of setup_sequencer_tick. */
    method CollectStep() returns (waiting: bool)
      requires Valid()
      modifies `setup, cia`pipe
      ensures Valid() && (cia.pipe, setup) == Q.Drain(old(cia.pipe), old(setup), old(Desired()))
      ensures waiting <==> setup.step != Q.IDLE_STEP
    {
      hide ComputeDesired;
      if setup.step != Q.IDLE_STEP {
        var r := cia.OdPoll(setup.handle);
        if r.NotYet? { return true; }
        ApplyCompletedStep(r.result, Desired());
        setup := setup.(step := Q.IDLE_STEP, handle := NO_HANDLE);
      }
      return false;
    }

    /** The chain of comparisons of stage 2: the first parameter that differs. */
    method FirstDifference(desired: Setup) returns (k: nat)
      ensures k == Q.FirstDiff(desired, setup.applied)
    {
      if desired[MODE] != setup.applied[MODE] {
        k := MODE;
      } else if desired[POSITION] != setup.applied[POSITION] {
        k := POSITION;
      } else if desired[TIME] != setup.applied[TIME] {
        k := TIME;
      } else if desired[CURRENT] != setup.applied[CURRENT] {
        k := CURRENT;
      } else if desired[VELOCITY] != setup.applied[VELOCITY] {
        k := VELOCITY;
      } else if desired[ACCELERATION] != setup.applied[ACCELERATION] {
        k := ACCELERATION;
      } else if desired[DECELERATION] != setup.applied[DECELERATION] {
        k := DECELERATION;
      } else {
        k := 0;
      }
    }

    /** setup_sequencer_tick. */
    method SetupSequencerTick()
      requires Valid()
      modifies `setup, cia`pipe, cia.txData
      ensures Valid() && (cia.pipe, setup) == Q.Tick(old(cia.pipe), old(setup), old(Desired()))
    {
      hide ComputeDesired, Q.WriteOf, Q.Drain, Q.FirstDiff;
      var waiting := CollectStep();
      if waiting { return; }
      var desired := Desired();
      var k := FirstDifference(desired);
      if k != 0 {
        var step := StartSdoWrite(k, desired);
        setup := setup.(step := step);
      }
    }

    // ----- Load factor -----

    /** axis_manager_set_load_factor. */
    method SetLoadFactor(v: f32) returns (accepted: bool)
      requires Valid()
      modifies `load, cia`pipe, cia.txData
      ensures Valid() && (cia.pipe, load) == Seq.SetLoad(old(cia.pipe), old(load), v)
      ensures accepted == Seq.LoadInRange(v)
    {
      hide Seq.LoadInRange, Split32;
      if !Seq.LoadInRange(v) { return false; }
      load := load.(factor := v);
      if load.pending { return true; }
      var h := cia.OdWriteBegin(0x2300, 5, Q.T_F32, Split32(v));
      if h == NO_HANDLE { return true; }
      load := load.(handle := h, pending := true);
      return true;
    }

    /** poll_load_factor_sdo. */
    method PollLoadFactorSdo()
      requires Valid()
      modifies `load, cia`pipe
      ensures Valid() && (cia.pipe, load) == Seq.LoadTick(old(cia.pipe), old(load))
    {
      if !load.pending { return; }
      var r := cia.OdPoll(load.handle);
      if r.NotYet? { return; }
      load := load.(handle := NO_HANDLE, pending := false);
    }

    // ----- Proxy -----

    /** recompute_joystick_max_velocity. */
    method RecomputeJoystickMaxVelocity()
      requires slots.Length == Proxy.SLOT_COUNT
      modifies `drive
      ensures drive == Recap(old(drive), ProxyPart())
    {
      hide MaxVelocity;
      drive := drive.(maxVelocity := MaxVelocity(slots[Proxy.VEL_LIMIT].mirror, drive.profile));
    }

    /** The setters of the proxied values. */
    method SetProxied(k: nat, v: f32) returns (accepted: bool)
      requires Valid() && k < Proxy.SLOT_COUNT
      modifies slots, `drive
      ensures Valid() && ProxyPart() == Proxy.Set(old(ProxyPart()), k, v) && accepted == Proxy.Settable(k, v)
      ensures drive == if k == Proxy.VEL_LIMIT && accepted then Recap(old(drive), ProxyPart()) else old(drive)
    {
      hide Proxy.Settable, Proxy.Forwarded, MaxVelocity;
      if !Proxy.Settable(k, v) { return false; }
      slots[k] := Proxy.Entry(Proxy.Forwarded(k, v), true, v);
      if k == Proxy.VEL_LIMIT { RecomputeJoystickMaxVelocity(); }
      return true;
    }

    /** Step 1 of poll_motor_proxy_sdo. */
    method CollectProxyWrite() returns (waiting: bool)
      requires Valid()
      modifies `proxyHandle, `proxyPending, cia`pipe
      ensures Valid() && (cia.pipe, ProxyPart()) == Proxy.Drain(old(cia.pipe), old(ProxyPart()))
      ensures waiting == proxyPending
    {
      if proxyPending {
        var r := cia.OdPoll(proxyHandle);
        if r.NotYet? { return true; }
        proxyHandle := NO_HANDLE;
        proxyPending := false;
      }
      return false;
    }

    /** The scan of step 2: the first dirty slot after the last one written. */
    method FindDirty() returns (k: nat)
      requires Valid()
      ensures k == Proxy.NextDirty(ProxyPart(), 0)
    {
      var i := 0;
      while i < Proxy.SLOT_COUNT
        invariant 0 <= i <= Proxy.SLOT_COUNT && Proxy.NextDirty(ProxyPart(), 0) == Proxy.NextDirty(ProxyPart(), i)
      {
        k := Proxy.RoundRobin(proxyInflight, i);
        if slots[k].dirty { return; }
        i := i + 1;
      }
      k := Proxy.SLOT_COUNT;
    }

    /** Step 2 of poll_motor_proxy_sdo for the slot found. */
    method StartProxyWrite(k: nat)
      requires Valid() && k < Proxy.SLOT_COUNT && slots[k].dirty && !proxyPending
      modifies slots, `proxyHandle, `proxyPending, `proxyInflight, cia`pipe, cia.txData
      ensures Valid()
      ensures var begun := Begin(old(cia.pipe), Proxy.WriteOf(k, old(slots[k]).value));
        && cia.pipe == begun.0
        && ProxyPart() == if begun.1 == NO_HANDLE then old(ProxyPart())
                          else Proxy.Proxy(old(slots[..])[k := old(slots[k]).(dirty := false)], begun.1, true, k)
    {
      hide Split32;
      var h := cia.OdWriteBegin(Proxy.SlotIndex(k), Proxy.SlotSub(k), Q.T_F32, Split32(slots[k].value));
      if h == NO_HANDLE { return; }
      slots[k] := slots[k].(dirty := false);
      proxyHandle := h;
      proxyPending := true;
      proxyInflight := k;
    }

    /** poll_motor_proxy_sdo. */
    method PollMotorProxySdo()
      requires Valid()
      modifies slots, `proxyHandle, `proxyPending, `proxyInflight, cia`pipe, cia.txData
      ensures Valid() && (cia.pipe, ProxyPart()) == Proxy.Tick(old(cia.pipe), old(ProxyPart()))
    {
      hide Proxy.WriteOf, Proxy.Drain, Proxy.NextDirty;
      var waiting := CollectProxyWrite();
      if waiting { return; }
      var k := FindDirty();
      if k < Proxy.SLOT_COUNT { StartProxyWrite(k); }
    }

    /** axis_manager_set_joy_profile. */
    method SetJoyProfile(profile: nat) returns (accepted: bool)
      requires Valid()
      modifies `drive
      ensures Valid() && accepted == (profile in {NORMAL, MEDIUM, FINE})
      ensures drive == if accepted then Recap(old(drive).(profile := profile), ProxyPart()) else old(drive)
    {
      hide MaxVelocity;
      if profile != NORMAL && profile != MEDIUM && profile != FINE { return false; }
      drive := drive.(profile := profile);
      RecomputeJoystickMaxVelocity();
      return true;
    }

    // ----- Resync -----

    /** axis_manager_request_motor_resync. */
    method RequestMotorResync(now: nat)
      requires Valid()
      modifies `boot
      ensures Valid() && boot == Proxy.RequestResync(old(boot), now)
    {
      if boot.state != Proxy.BootDone { return; }
      boot := boot.(state := Proxy.BootIdle, next := 0, startMs := (Clock(now) - Proxy.KICKOFF_DELAY_MS) % TWO_32);
    }

    /** The waits at the head of tick_proxy_bootsync. */
    method AwaitResync(now: nat) returns (due: bool)
      requires Valid()
      modifies `boot
      ensures Valid() && (boot, due) == Proxy.Wake(old(boot), now)
    {
      hide Elapsed;
      if boot.state == Proxy.BootDone {
        if Elapsed(now, boot.lastDoneMs) < Proxy.RESYNC_PERIOD_MS { return false; }
        RequestMotorResync(now);
      }
      if boot.state == Proxy.BootIdle {
        if boot.startMs == 0 { boot := boot.(startMs := Clock(now)); }
        if Elapsed(now, boot.startMs) < Proxy.KICKOFF_DELAY_MS { return false; }
      }
      return true;
    }

    /** A completed read: the slot takes the motor's value unless it is dirty. */
    method AdoptRead(r: Polled)
      requires Valid()
      modifies slots, `drive
      ensures Valid() && ProxyPart() == Proxy.Adopt(old(ProxyPart()), boot.inflight, r)
      ensures drive == Recap(old(drive), ProxyPart())
    {
      hide Join32, Proxy.Adopted, MaxVelocity;
      if Proxy.Usable(r) {
        var v := Join32(r.data);
        if !slots[boot.inflight].dirty {
          slots[boot.inflight] := Proxy.Entry(v, false, Proxy.Adopted(boot.inflight, v));
          if boot.inflight == Proxy.VEL_LIMIT { RecomputeJoystickMaxVelocity(); }
        }
      }
    }

    method CollectRead() returns (waiting: bool)
      requires Valid()
      modifies slots, `drive, `boot, cia`pipe
      ensures Valid() && (cia.pipe, boot, ProxyPart()) == Proxy.BootDrain(old(cia.pipe), old(boot), old(ProxyPart()))
      ensures drive == Recap(old(drive), ProxyPart()) && (waiting <==> boot.state == Proxy.BootBusy)
    {
      hide Proxy.Adopt, MaxVelocity;
      if boot.state == Proxy.BootBusy {
        var r := cia.OdPoll(boot.handle);
        if r.NotYet? { return true; }
        AdoptRead(r);
        boot := boot.(handle := NO_HANDLE, state := Proxy.BootIdle);
      }
      return false;
    }

    method IssueRead(now: nat)
      requires Valid() && boot.state != Proxy.BootBusy
      modifies `boot, cia`pipe
      ensures Valid() && (cia.pipe, boot) == Proxy.BootStart(old(cia.pipe), old(boot), now)
    {
      hide MaxVelocity;
      if boot.next >= Proxy.SLOT_COUNT {
        boot := boot.(state := Proxy.BootDone, lastDoneMs := Clock(now));
        return;
      }
      var h := cia.OdReadBegin(Proxy.SlotIndex(boot.next), Proxy.SlotSub(boot.next), Q.T_F32);
      if h == NO_HANDLE { return; }
      boot := boot.(handle := h, inflight := boot.next, state := Proxy.BootBusy, next := boot.next + 1);
    }

    /** tick_proxy_bootsync. */
    method TickProxyBootsync(now: nat)
      requires Valid()
      modifies slots, `drive, `boot, cia`pipe
      ensures Valid()
      ensures (cia.pipe, boot, ProxyPart()) == Proxy.BootTick(old(cia.pipe), old(boot), old(ProxyPart()), now)
      ensures drive == Recap(old(drive), ProxyPart())
    {
      hide MaxVelocity, Proxy.Wake, Proxy.BootDrain, Proxy.BootStart;
      var due := AwaitResync(now);
      if !due { return; }
      var waiting := CollectRead();
      if !waiting { IssueRead(now); } else { BusyStarts(cia.pipe, boot, now); }
    }

    // ----- Motor save -----

    /** axis_manager_request_motor_save. */
    method RequestMotorSave(now: nat) returns (accepted: bool)
      requires Valid()
      modifies `save, `drive
      ensures Valid() && (save, drive.enable) == Seq.RequestSave(old(save), old(drive).enable, now)
      ensures drive == old(drive).(enable := drive.enable) && accepted == (old(save).state == Seq.SaveIdle)
    {
      hide MaxVelocity;
      if save.state != Seq.SaveIdle { return false; }
      save := save.(wasEnabled := drive.enable, startMs := Clock(now), phaseMs := Clock(now));
      drive := drive.(enable := false);
      save := save.(state := Seq.Disabling);
      return true;
    }

    method StartSaveWrite(now: nat)
      requires Valid() && save.state == Seq.Disabling && !Seq.SaveTimedOut(save, now)
      modifies `save, cia`pipe, cia.txData
      ensures Valid() && (cia.pipe, save, drive.enable) == Seq.SaveTick(old(cia.pipe), old(save), drive.enable, now)
    {
      hide MaxVelocity, Elapsed, Seq.SaveTimedOut, Wr16;
      if Elapsed(now, save.phaseMs) < Seq.MOTOR_SAVE_DISABLE_MS { return; }
      var h := cia.OdWriteBegin(0x2800, 1, Q.T_U16, Wr16(Seq.SAVE_MAGIC));
      if h == NO_HANDLE { return; }
      save := save.(handle := h, state := Seq.WritingSdo, phaseMs := Clock(now));
    }

    method CollectSaveWrite(now: nat)
      requires Valid() && save.state == Seq.WritingSdo && !Seq.SaveTimedOut(save, now)
      modifies `save, cia`pipe
      ensures Valid() && (cia.pipe, save, drive.enable) == Seq.SaveTick(old(cia.pipe), old(save), drive.enable, now)
    {
      hide MaxVelocity, Elapsed, Seq.SaveTimedOut;
      var r := cia.OdPoll(save.handle);
      if r.NotYet? { return; }
      save := save.(handle := NO_HANDLE, state := Seq.Reenable, phaseMs := Clock(now));
    }

    method FinishSave(now: nat)
      requires Valid() && save.state == Seq.Reenable && !Seq.SaveTimedOut(save, now)
      modifies `save, `drive
      ensures Valid() && (cia.pipe, save, drive.enable) == Seq.SaveTick(cia.pipe, old(save), old(drive).enable, now)
      ensures drive == old(drive).(enable := drive.enable)
    {
      hide MaxVelocity, Elapsed, Seq.SaveTimedOut;
      if Elapsed(now, save.phaseMs) < Seq.MOTOR_SAVE_REENABLE_MS { return; }
      if save.wasEnabled { drive := drive.(enable := true); }
      save := save.(state := Seq.SaveIdle);
    }

    /** tick_motor_save. */
    method TickMotorSave(now: nat)
      requires Valid()
      modifies `save, `drive, cia`pipe, cia.txData
      ensures Valid()
      ensures (cia.pipe, save, drive.enable) == Seq.SaveTick(old(cia.pipe), old(save), old(drive).enable, now)
      ensures drive == old(drive).(enable := drive.enable)
    {
      hide MaxVelocity, Elapsed;
      if save.state == Seq.SaveIdle { return; }
      if Elapsed(now, save.startMs) > Seq.MOTOR_SAVE_OVERALL_TIMEOUT_MS {
        drive := drive.(enable := save.wasEnabled);
        save := save.(state := Seq.SaveIdle, handle := NO_HANDLE);
        return;
      }
      match save.state {
        case Disabling => StartSaveWrite(now);
        case WritingSdo => CollectSaveWrite(now);
        case Reenable => FinishSave(now);
      }
    }

    // ----- Homing -----

    /** axis_manager_request_home. */
    method RequestHome(now: nat) returns (accepted: bool)
      requires Valid()
      modifies `home
      ensures Valid() && home == Seq.RequestHome(old(home), now) && accepted == (old(home).state == Seq.HomeIdle)
    {
      if home.state != Seq.HomeIdle { return false; }
      home := home.(state := Seq.WritingCmd, startMs := Clock(now), lastPollMs := 0);
      return true;
    }

    /** The one-shot read of the fault flags. */
    method KickFaultRead()
      requires Valid()
      modifies `home, cia`pipe
      ensures Valid() && (cia.pipe, home) == Seq.Kick(old(cia.pipe), old(home))
    {
      hide MaxVelocity;
      if !home.kicked {
        var h := cia.OdReadBegin(0x2600, 1, Q.T_U32);
        if h != NO_HANDLE {
          home := home.(handle := h, kicked := true);
          if home.state == Seq.HomeIdle { home := home.(state := Seq.ReadingFault); }
        }
      }
    }

    /** The request of the current state. */
    method BeginHomeRequest() returns (h: int)
      requires Valid() && home.state in {Seq.WritingCmd, Seq.PollingStatus, Seq.ReadingFault}
      modifies cia`pipe, cia.txData
      ensures Valid() && (cia.pipe, h) == Begin(old(cia.pipe), Seq.HomeRequest(home.state))
    {
      hide MaxVelocity;
      if home.state == Seq.WritingCmd {
        h := cia.OdWriteBegin(0x2700, 8, Q.T_U8, [1]);
      } else if home.state == Seq.PollingStatus {
        h := cia.OdReadBegin(0x2700, 9, Q.T_U8);
      } else {
        h := cia.OdReadBegin(0x2600, 1, Q.T_U32);
      }
    }

    /** Issue the request of the current state unless one is waiting. */
    method IssueHomeRequest(now: nat)
      requires Valid() && home.state in {Seq.WritingCmd, Seq.PollingStatus, Seq.ReadingFault}
      modifies `home, cia`pipe, cia.txData
      ensures Valid() && (cia.pipe, home) == Seq.Issue(old(cia.pipe), old(home), now)
    {
      hide MaxVelocity, Elapsed, Seq.HomeRequest;
      if home.handle != NO_HANDLE { return; }
      if home.state == Seq.PollingStatus && Elapsed(now, home.lastPollMs) < Seq.HOME_POLL_PERIOD_MS &&
         Elapsed(now, home.startMs) > 100
      {
        return;
      }
      var h := BeginHomeRequest();
      home := home.(handle := h);
      if h != NO_HANDLE && home.state == Seq.PollingStatus { home := home.(lastPollMs := Clock(now)); }
    }

    /** The three states' treatment of a completed request. */
    method HandleHomeReply(result: nat, data: seq<byte>, now: nat)
      requires home.state in {Seq.WritingCmd, Seq.PollingStatus, Seq.ReadingFault}
      modifies `home
      ensures home == Seq.HomeReply(old(home), result, data, now)
    {
      hide Join32, Value;
      if home.state == Seq.WritingCmd {
        if result != OD_OK {
          home := home.(state := Seq.TerminalFailed, motorStatus := Seq.HOME_FAILED);
          return;
        }
        home := home.(state := Seq.PollingStatus, lastPollMs := Clock(now));
      } else if home.state == Seq.PollingStatus {
        if result != OD_OK || |data| == 0 { return; }
        home := home.(motorStatus := Value(data[0]));
        if home.motorStatus == Seq.HOME_DONE || home.motorStatus == Seq.HOME_FAILED { home := home.(state := Seq.ReadingFault); }
      } else if result == OD_OK && |data| >= 4 {
        home := home.(isHomed := Join32(data[..4]) & Seq.FAULT_NOT_HOMED == 0, isHomedKnown := true,
                      state := if home.motorStatus == Seq.HOME_DONE then Seq.TerminalDone
                               else if home.motorStatus == Seq.HOME_FAILED then Seq.TerminalFailed else Seq.HomeIdle);
      } else {
        home := home.(state := Seq.HomeIdle);
      }
    }

    /** tick_home_sequencer after the boot read. */
    method AdvanceHome(now: nat)
      requires Valid()
      modifies `home, cia`pipe, cia.txData
      ensures Valid() && (cia.pipe, home) == Seq.Advance(old(cia.pipe), old(home), now)
    {
      hide MaxVelocity, Elapsed, Seq.Issue, Seq.HomeReply;
      if home.state == Seq.HomeIdle { return; }
      if home.state != Seq.ReadingFault && Elapsed(now, home.startMs) > Seq.HOME_OVERALL_TIMEOUT_MS {
        home := home.(state := Seq.TerminalFailed, motorStatus := Seq.HOME_FAILED);
        return;
      }
      if home.state in {Seq.WritingCmd, Seq.PollingStatus, Seq.ReadingFault} {
        IssueHomeRequest(now);
        var r := cia.OdPoll(home.handle);
        if r.NotYet? { return; }
        home := home.(handle := NO_HANDLE);
        HandleHomeReply(r.result, r.data, now);
      } else {
        home := home.(state := Seq.HomeIdle);
      }
    }

    /** tick_home_sequencer. */
    method TickHomeSequencer(now: nat)
      requires Valid()
      modifies `home, cia`pipe, cia.txData
      ensures Valid() && (cia.pipe, home) == Seq.HomeTick(old(cia.pipe), old(home), now)
    {
      hide MaxVelocity, Seq.Kick, Seq.Advance;
      KickFaultRead();
      AdvanceHome(now);
    }

    // ----- Cyclic command -----

    /** setup_sequencer_busy. */
    method SetupSequencerBusy() returns (busy: bool)
      requires Valid()
      ensures busy == Q.Busy(setup, Desired())
    {
      hide ComputeDesired;
      if setup.step != Q.IDLE_STEP { return true; }
      var k := FirstDifference(Desired());
      return k != 0;
    }

    // The three pulses of compose_cyclic_cmd: is the bit set in this cycle?

    method TakeFaultReset() returns (bit: bool)
      requires Valid()
      modifies `drive
      ensures Valid() && bit == ResetBit(old(drive)) && drive == ResetPulse(old(drive)) && Desired() == old(Desired())
    {
      hide MaxVelocity, ComputeDesired;
      bit := false;
      if drive.clearFault { drive := drive.(faultReset := PULSE_CYCLES, clearFault := false); }
      if drive.faultReset > 0 {
        bit := true;
        drive := drive.(faultReset := drive.faultReset - 1);
      }
    }

    method TakeHalt() returns (bit: bool)
      requires Valid()
      modifies `drive
      ensures Valid() && bit == (old(drive).halt > 0) && Desired() == old(Desired())
      ensures drive == old(drive).(halt := if bit then old(drive).halt - 1 else 0)
    {
      hide MaxVelocity, ComputeDesired;
      bit := false;
      if drive.halt > 0 {
        bit := true;
        drive := drive.(halt := drive.halt - 1);
      }
    }

    method TakeNewSetpoint() returns (bit: bool)
      requires Valid()
      modifies `drive
      ensures Valid()
      ensures var d, busy := old(drive), Q.Busy(setup, old(Desired()));
        var n := if d.startMove && !busy then PULSE_CYCLES else d.newSetpoint;
        bit == (n > 0) && drive == d.(startMove := d.startMove && busy, newSetpoint := if n > 0 then n - 1 else 0)
    {
      hide MaxVelocity, ComputeDesired, Q.Busy;
      ghost var d := drive;
      bit := false;
      if drive.startMove {
        var busy := SetupSequencerBusy();
        if !busy { drive := drive.(newSetpoint := PULSE_CYCLES, startMove := false); }
      }
      ghost var e := drive;
      if drive.newSetpoint > 0 {
        bit := true;
        drive := drive.(newSetpoint := drive.newSetpoint - 1);
      }
      SetpointTaken(d, e, drive, Q.Busy(setup, old(Desired())));
    }

    /** Enable, hold and the velocity setpoint. */
    method SteadyWord(reset: bool) returns (w: Word)
      requires Valid()
      ensures var on := drive.enable && drive.targets.mode != OFF;
        w == Word(on, true, false, reset, on && drive.targets.mode == HOLD,
                  if drive.enable then Demand(drive, slots[Proxy.VEL_LIMIT].mirror) else 0)
    {
      hide MaxVelocity, Demand;
      w := QUIET_WORD.(faultReset := reset, notQuickStop := true);
      if drive.enable && drive.targets.mode != OFF {
        w := w.(enable := true);
        if drive.targets.mode == HOLD { w := w.(halt := true); }
      }
      if drive.enable { w := w.(velocity := Demand(drive, slots[Proxy.VEL_LIMIT].mirror)); }
    }

    /** compose_cyclic_cmd for a drive that is neither stopped nor faulted. */
    method ComposeMotion(reset: bool)
      requires Valid()
      modifies `drive, `word
      ensures Valid()
      ensures (drive, word) == Motion(old(drive), reset, Q.Busy(setup, old(Desired())), slots[Proxy.VEL_LIMIT].mirror)
    {
      hide MaxVelocity, ComputeDesired, Q.Busy, Demand, Motion;
      var w := SteadyWord(reset);
      var halted := TakeHalt();
      ghost var d := drive;
      var triggered := TakeNewSetpoint();
      word := w.(halt := w.halt || halted, newSetpoint := triggered);
      MotionIs(old(drive), d, drive, w, word, reset, Q.Busy(setup, old(Desired())), slots[Proxy.VEL_LIMIT].mirror);
    }

    /** compose_cyclic_cmd. */
    method ComposeCyclicCmd() returns (cmd: Link.Command)
      requires Valid()
      modifies `drive, `word
      ensures Valid() && cmd == CommandOf(word)
      ensures (drive, word) == Compose(old(drive), Q.Busy(setup, old(Desired())), slots[Proxy.VEL_LIMIT].mirror)
    {
      hide MaxVelocity, ComputeDesired, Q.Busy, Motion;
      var reset := TakeFaultReset();
      if drive.quickStop {
        drive := drive.(enable := false, quickStop := false, newSetpoint := 0, halt := 0, faultReset := 0);
        word := QUIET_WORD.(faultReset := reset);
      } else if drive.faulted {
        word := QUIET_WORD.(faultReset := reset, notQuickStop := true);
      } else {
        ComposeMotion(reset);
      }
      cmd := CommandOf(word);
    }

    // ----- Requests -----

    /** The setters of the move's targets, each with its own test of the value. */
    method ChangeTarget(r: DriveRequest)
      requires IsTarget(r)
      modifies `drive
      ensures drive == DriveAfter(old(drive), SteerStep(old(drive), r))
    {
      hide IsNan, IsNegative;
      var t := drive.targets;
      match r {
        case OpMode(m) => if m <= TORQUE { t := t.(mode := m); }
        case TargetPosition(v) => if !IsNan(v) { t := t.(position := v); }
        case TargetTime(v) => if !(IsNegative(v) || IsNan(v)) { t := t.(time := v); }
        case TargetCurrent(v) => if !IsNan(v) { t := t.(current := v); }
      }
      drive := drive.(targets := t);
    }

    /** The other setters and requests of one field. */
    method Change(r: DriveRequest)
      requires !IsTarget(r) && (r.JoystickRaw? ==> r.calibration.deadband < TWO_32)
      modifies `drive, `panel
      ensures drive == DriveAfter(old(drive), SteerStep(old(drive), r))
      ensures panel == if r.JoystickRaw? then old(panel).(raw := r.raw, calibration := r.calibration) else old(panel)
    {
      hide JoystickValue, IsNan, InUnit, Decode;
      match r {
        case TargetVelocity(v) => if !IsNan(v) { drive := drive.(targetVelocity := v); }
        case JoystickRaw(raw, c) =>
          panel := panel.(raw := raw, calibration := c);
          drive := drive.(stick := Fin(JoystickValue(raw, c)));
        case StickValue(v) => if InUnit(v) { drive := drive.(stick := Decode(v)); }
        case EnableAxis(on) => drive := drive.(enable := on);
        case QuickStop => drive := drive.(quickStop := true);
        case ClearFault => drive := drive.(clearFault := true);
        case StartMove => drive := drive.(startMove := true);
        case HaltAxis => drive := drive.(halt := PULSE_CYCLES);
      }
    }

    method Obeys(r: DriveRequest)
      requires Valid() && (r.JoystickRaw? ==> r.calibration.deadband < TWO_32)
      modifies `drive, `panel
      ensures Valid() && drive == DriveAfter(old(drive), SteerStep(old(drive), r))
    {
      hide MaxVelocity, DriveAfter, SteerStep;
      CapKept(drive, SteerStep(drive, r));
      if IsTarget(r) { ChangeTarget(r); } else { Change(r); }
    }

    method ObeySetter(r: AxisRequest, ghost frames: nat, ghost bridge: Bridge.Queue, ghost motor: Motor)
      requires Valid() && ValidRequest(r) && (r.LoadFactor? || r.Proxied? || r.JoyProfile?)
      modifies `load, `drive, slots, cia`pipe, cia.txData
      ensures Valid() && Obeyed(old(View(frames, bridge, motor)), View(frames, bridge, motor), r, 0)
    {
      hide MaxVelocity, Recap, Seq.SetLoad, Proxy.Set, SteerStep, DriveAfter;
      var accepted;
      match r {
        case LoadFactor(v) => accepted := SetLoadFactor(v);
        case Proxied(k, v) => accepted := SetProxied(k, v);
        case JoyProfile(p) => accepted := SetJoyProfile(p);
      }
    }

    method ObeySequencers(r: AxisRequest, now: nat, ghost frames: nat, ghost bridge: Bridge.Queue, ghost motor: Motor)
      requires Valid() && (r.MotorSave? || r.Home? || r.Resync?)
      modifies `boot, `save, `home, `drive
      ensures Valid() && Obeyed(old(View(frames, bridge, motor)), View(frames, bridge, motor), r, now)
    {
      hide MaxVelocity, Recap, Proxy.Set, Proxy.RequestResync, Seq.RequestSave, Seq.RequestHome, SteerStep, DriveAfter;
      var accepted;
      match r {
        case MotorSave => accepted := RequestMotorSave(now);
        case Home => accepted := RequestHome(now);
        case Resync => RequestMotorResync(now);
      }
    }

    /** Any request, as a step of the system. */
    method Obey(r: AxisRequest, now: nat, ghost frames: nat, ghost bridge: Bridge.Queue, ghost motor: Motor)
      requires Valid() && ValidRequest(r)
      modifies `load, `boot, `save, `home, `drive, `panel, slots, cia`pipe, cia.txData
      ensures Valid()
      ensures View(frames, bridge, motor) == Next(old(View(frames, bridge, motor)), StepOf(old(drive), r, now))
    {
      hide MaxVelocity, Next, StepOf, SteerStep, DriveAfter, Obeyed;
      ghost var s := View(frames, bridge, motor);
      if r.Steer? {
        Obeys(r.request);
        SteerObeyed(s, View(frames, bridge, motor), r, now);
      } else if r.LoadFactor? || r.Proxied? || r.JoyProfile? {
        ObeySetter(r, frames, bridge, motor);
        SetterAnyTime(s, View(frames, bridge, motor), r, now);
      } else {
        ObeySequencers(r, now, frames, bridge, motor);
      }
      RequestIsStep(s, View(frames, bridge, motor), r, now);
    }

    // ----- Tick -----

    /** The head of axis_manager_tick: the drive's state from the last status, and a reset of
        a fault that has lasted five seconds. */
    method UpdateState(now: nat)
      requires Valid()
      modifies `drive, `faultSinceMs
      ensures Valid()
      ensures drive == old(drive).(faulted := old(Faulted()), clearFault := old(drive).clearFault || old(ClearDue(now)))
      ensures faultSinceMs == if cia.status.ever then DwellStart(old(faultSinceMs), old(Faulted()), now) else old(faultSinceMs)
    {
      hide MaxVelocity;
      if cia.status.ever {
        drive := drive.(faulted := cia.status.header[0] & SW_FAULT != 0);
        if drive.faulted {
          if faultSinceMs == 0 {
            faultSinceMs := Clock(now);
          } else if Elapsed(now, faultSinceMs) >= AUTO_FAULT_CLEAR_DELAY_MS {
            drive := drive.(clearFault := true);
            faultSinceMs := Clock(now);
          }
        } else if faultSinceMs != 0 {
          faultSinceMs := 0;
        }
      }
    }

    /** The motor's movement status, for the buttons. */
    method SeeMovement()
      requires Valid()
      modifies `panel
      ensures Valid() && panel == old(Seen())
    {
      hide MaxVelocity;
      if cia.status.ever { panel := panel.(moving := cia.status.header[MOVEMENT_STATUS] & MOVE_MOVING != 0); }
    }

    /** Load factor, resync and proxy, in the order of axis_manager_tick. The rest of the
        system is the parameters'. */
    method TickProxies(now: nat, ghost frames: nat, ghost bridge: Bridge.Queue, ghost motor: Motor)
      requires Valid()
      modifies `load, `proxyHandle, `proxyPending, `proxyInflight, `boot, `drive, slots, cia`pipe, cia.txData
      ensures Valid()
      ensures View(frames, bridge, motor) == After(old(View(frames, bridge, motor)), ProxySteps(now))
      ensures drive.targets == old(drive).targets
    {
      hide Link.Cia402.Valid, MaxVelocity, Next, After, Proxy.Tick, Proxy.BootTick, Seq.LoadTick;
      ghost var s0 := View(frames, bridge, motor);
      PollLoadFactorSdo();
      ghost var s1 := View(frames, bridge, motor);
      LoadIsStep(s0, s1);
      TickProxyBootsync(now);
      ghost var s2 := View(frames, bridge, motor);
      BootIsStep(s1, s2, now);
      PollMotorProxySdo();
      ProxyIsStep(s2, View(frames, bridge, motor));
      ThreeSteps(s0, LoadTick, BootTick(now), ProxyTick);
    }

    /** Motor save and homing, in the order of axis_manager_tick. */
    method TickSaveAndHome(now: nat, ghost frames: nat, ghost bridge: Bridge.Queue, ghost motor: Motor)
      requires Valid()
      modifies `save, `home, `drive, cia`pipe, cia.txData
      ensures Valid()
      ensures View(frames, bridge, motor) == After(old(View(frames, bridge, motor)), SaveAndHomeSteps(now))
      ensures drive.targets == old(drive).targets
    {
      hide MaxVelocity, Next, After, Seq.SaveTick, Seq.HomeTick;
      ghost var s0 := View(frames, bridge, motor);
      TickMotorSave(now);
      ghost var s1 := View(frames, bridge, motor);
      SaveIsStep(s0, s1, now);
      TickHomeSequencer(now);
      HomeIsStep(s1, View(frames, bridge, motor), now);
      TwoSteps(s0, SaveTick(now), HomeTick(now));
    }

    /** poll_joystick_buttons. */
    method PollJoystickButtons(up: bool, down: bool)
      requires panel.calibration.deadband < TWO_32
      modifies `panel, `drive
      ensures panel == PanelAfter(old(panel), old(drive).targets, up, down)
      ensures drive == ButtonDrive(old(panel), old(drive), up, down)
    {
      hide JoystickValue;
      if up || down {
        panel := panel.(releasing := false);
        if !panel.own {
          panel := panel.(prev := drive.targets.mode, own := true);
          drive := drive.(enable := true, targets := drive.targets.(mode := JOYSTICK));
        }
        drive := drive.(stick := Fin(Deflection(up, down)));
      } else if panel.own {
        panel := panel.(releasing := true);
        drive := drive.(stick := Fin(0.0));
        if !panel.moving {
          if panel.prev <= TORQUE { drive := drive.(targets := drive.targets.(mode := panel.prev)); }
          drive := drive.(stick := Fin(JoystickValue(panel.raw, panel.calibration)));
          panel := panel.(own := false, releasing := false);
        }
      }
    }

    /** The slot's clients before the buttons, in the order of axis_manager_tick. */
    method TickWriters(now: nat, ghost frames: nat, ghost bridge: Bridge.Queue, ghost motor: Motor)
      requires Valid()
      modifies `load, `proxyHandle, `proxyPending, `proxyInflight, `boot, `save, `home, `drive, slots, cia`pipe, cia.txData
      ensures Valid() && drive.targets == old(drive).targets
      ensures View(frames, bridge, motor) == After(old(View(frames, bridge, motor)), WriterSteps(now))
    {
      hide MaxVelocity, Next, After, ProxySteps, SaveAndHomeSteps;
      ghost var s0 := View(frames, bridge, motor);
      TickProxies(now, frames, bridge, motor);
      TickSaveAndHome(now, frames, bridge, motor);
      AfterAppended(s0, ProxySteps(now), SaveAndHomeSteps(now));
    }

    /** The buttons and then the setup sequencer. */
    method TickButtonsAndSetup(up: bool, down: bool, ghost frames: nat, ghost bridge: Bridge.Queue, ghost motor: Motor)
      requires Valid()
      modifies `setup, `panel, `drive, cia`pipe, cia.txData
      ensures Valid() && panel == PanelAfter(old(panel), old(drive).targets, up, down)
      ensures View(frames, bridge, motor) ==
        After(old(View(frames, bridge, motor)), ButtonSteps(old(panel), old(drive).targets, up, down) + [SetupTick])
    {
      hide MaxVelocity, ComputeDesired, Next, After, Q.Tick, ButtonSteps, ButtonDrive, PanelAfter;
      ghost var s0 := View(frames, bridge, motor);
      ghost var run := ButtonSteps(panel, drive.targets, up, down);
      ButtonsAreSteps(s0, panel, up, down);
      ButtonsKeepCap(panel, drive, up, down);
      PollJoystickButtons(up, down);
      ghost var s1 := View(frames, bridge, motor);
      SetupSequencerTick();
      SetupIsStep(s1, View(frames, bridge, motor));
      LastStep(s0, run, SetupTick);
    }

    /** The slot's clients and the buttons in the order of axis_manager_tick. */
    method TickClients(now: nat, up: bool, down: bool, ghost frames: nat, ghost bridge: Bridge.Queue, ghost motor: Motor)
      requires Valid()
      modifies `setup, `load, `proxyHandle, `proxyPending, `proxyInflight, `boot, `save, `home, `panel, `drive, slots, cia`pipe, cia.txData
      ensures Valid() && panel == PanelAfter(old(panel), old(drive).targets, up, down)
      ensures View(frames, bridge, motor) ==
        After(old(View(frames, bridge, motor)), ClientSteps(now, old(panel), old(drive).targets, up, down))
    {
      hide MaxVelocity, Next, After, WriterSteps, ButtonSteps, PanelAfter;
      ghost var s0 := View(frames, bridge, motor);
      ghost var buttons := ButtonSteps(panel, drive.targets, up, down);
      TickWriters(now, frames, bridge, motor);
      TickButtonsAndSetup(up, down, frames, bridge, motor);
      AfterAppended(s0, WriterSteps(now), buttons + [SetupTick]);
    }

    /** Does the last status say that the drive is faulted, and is the fault to be cleared? */
    ghost function Faulted(): bool
      requires Valid()
      reads this, slots, cia, cia.txData
    {
      if cia.status.ever then cia.status.header[0] & SW_FAULT != 0 else drive.faulted
    }

    ghost predicate ClearDue(now: nat)
      requires Valid()
      reads this, slots, cia, cia.txData
    {
      cia.status.ever && AutoClears(faultSinceMs, Faulted(), now)
    }

    /** What the buttons know once the last status is in. */
    ghost function Seen(): (p: Panel)
      requires Valid()
      reads this, slots, cia, cia.txData
      ensures p.calibration.deadband < TWO_32
    {
      if cia.status.ever then panel.(moving := cia.status.header[MOVEMENT_STATUS] & MOVE_MOVING != 0) else panel
    }

    ghost function StateSteps(now: nat, up: bool, down: bool): (run: seq<Step>)
      requires Valid()
      reads this, slots, cia, cia.txData
      ensures ValidRun(run)
    {
      StatusSteps(Faulted(), ClearDue(now)) + ClientSteps(now, Seen(), drive.targets, up, down)
    }

    /** The steps of one tick from here. */
    ghost function Steps(now: nat, up: bool, down: bool): (run: seq<Step>)
      requires Valid()
      reads this, slots, cia, cia.txData
      ensures ValidRun(run)
    {
      StateSteps(now, up, down) + [ComposeTick]
    }

    /** UpdateState and the clients. */
    method TickState(now: nat, up: bool, down: bool, ghost frames: nat, ghost bridge: Bridge.Queue, ghost motor: Motor)
      requires Valid()
      modifies `setup, `load, `proxyHandle, `proxyPending, `proxyInflight, `boot, `save, `home, `drive, `faultSinceMs, `panel, slots, cia`pipe, cia.txData
      ensures Valid() && panel == PanelAfter(old(Seen()), old(drive).targets, up, down)
      ensures View(frames, bridge, motor) == After(old(View(frames, bridge, motor)), old(StateSteps(now, up, down)))
    {
      hide MaxVelocity, Next, After, ClientSteps, StatusSteps, AutoClears, PanelAfter;
      ghost var s0 := View(frames, bridge, motor);
      ghost var f, auto := Faulted(), ClearDue(now);
      ghost var seen, targets := Seen(), drive.targets;
      SeeMovement();
      UpdateState(now);
      StatusIsStep(s0, View(frames, bridge, motor), f, auto);
      TickClients(now, up, down, frames, bridge, motor);
      AfterAppended(s0, StatusSteps(f, auto), ClientSteps(now, seen, targets, up, down));
    }

    /** axis_manager_tick. */
    method Tick(now: nat, up: bool, down: bool, ghost frames: nat, ghost bridge: Bridge.Queue, ghost motor: Motor)
      requires Valid()
      modifies this, slots, cia`pipe, cia`cmd, cia.txData
      ensures Valid() && cia.cmd == CommandOf(word)
      ensures panel == PanelAfter(old(Seen()), old(drive).targets, up, down)
      ensures View(frames, bridge, motor) == After(old(View(frames, bridge, motor)), old(Steps(now, up, down)))
    {
      hide MaxVelocity, ComputeDesired, Next, After, Compose, Q.Busy, StateSteps, Seen, PanelAfter;
      ghost var s0 := View(frames, bridge, motor);
      ghost var run := StateSteps(now, up, down);
      TickState(now, up, down, frames, bridge, motor);
      ghost var s1 := View(frames, bridge, motor);
      var cmd := ComposeCyclicCmd();
      cia.SetCyclicCmd(cmd);
      ComposeIsStep(s1, View(frames, bridge, motor));
      LastStep(s0, run, ComposeTick);
    }
  }

  // ----- Buttons -----

  function Deflection(up: bool, down: bool): real {
    if up && down then 0.0 else if up then 1.0 else -1.0
  }

  /** What the buttons do to their own record and to the drive. */
  function PanelAfter(p: Panel, t: Targets, up: bool, down: bool): Panel {
    if up || down then p.(own := true, prev := if p.own then p.prev else t.mode, releasing := false)
    else if p.own then if p.moving then p.(releasing := true) else p.(own := false, releasing := false)
    else p
  }

  function Restored(p: Panel, t: Targets): Targets { if p.prev <= TORQUE then t.(mode := p.prev) else t }

  function ButtonDrive(p: Panel, d: Drive, up: bool, down: bool): Drive
    requires p.calibration.deadband < TWO_32
  {
    if up || down then
      if p.own then d.(stick := Fin(Deflection(up, down)))
      else d.(enable := true, targets := d.targets.(mode := JOYSTICK), stick := Fin(Deflection(up, down)))
    else if p.own then
      if p.moving then d.(stick := Fin(0.0))
      else d.(targets := Restored(p, d.targets), stick := Fin(JoystickValue(p.raw, p.calibration)))
    else d
  }

  /** The same as steps of the system. */
  function ButtonSteps(p: Panel, t: Targets, up: bool, down: bool): (run: seq<Step>)
    requires p.calibration.deadband < TWO_32
    ensures ValidRun(run)
  {
    if up || down then
      if p.own then [SetStick(Fin(Deflection(up, down)))]
      else [Enable(true), SetTargets(t.(mode := JOYSTICK)), SetStick(Fin(Deflection(up, down)))]
    else if p.own then
      if p.moving then [SetStick(Fin(0.0))]
      else [SetStick(Fin(0.0)), SetTargets(Restored(p, t)), SetStick(Fin(JoystickValue(p.raw, p.calibration)))]
    else []
  }

  lemma ButtonsKeepCap(p: Panel, d: Drive, up: bool, down: bool)
    requires p.calibration.deadband < TWO_32
    ensures var e := ButtonDrive(p, d, up, down); e.maxVelocity == d.maxVelocity && e.profile == d.profile
    ensures PanelAfter(p, d.targets, up, down).calibration == p.calibration
  {
    hide JoystickValue;
  }

  lemma OneDriveStep(s: Sys, a: Step)
    requires s.Valid() && ValidStep(a) && IsDriveStep(a)
    ensures After(s, [a]) == s.(drive := DriveAfter(s.drive, a))
  {
    hide Next, After, DriveAfter;
    NoSteps(s);
    LastStep(s, [], a);
    assert [] + [a] == [a];
    DriveSteps(s, a);
  }

  lemma ThreeDriveSteps(s: Sys, a: Step, b: Step, c: Step)
    requires s.Valid() && ValidStep(a) && ValidStep(b) && ValidStep(c) && IsDriveStep(a) && IsDriveStep(b) && IsDriveStep(c)
    ensures After(s, [a, b, c]) == s.(drive := DriveAfter(DriveAfter(DriveAfter(s.drive, a), b), c))
  {
    hide Next, After, DriveAfter, IsDriveStep;
    ThreeSteps(s, a, b, c);
    DriveSteps(s, a);
    DriveSteps(Next(s, a), b);
    DriveSteps(Next(Next(s, a), b), c);
  }

  lemma PressDrive(d: Drive, t: Targets, v: Number)
    ensures DriveAfter(DriveAfter(DriveAfter(d, Enable(true)), SetTargets(t)), SetStick(v)) == d.(enable := true, targets := t, stick := v)
    ensures DriveAfter(d, SetStick(v)) == d.(stick := v)
  {
    hide DriveAfter;
    var a, b := d.(enable := true), d.(enable := true, targets := t);
    EnableDrive(d);
    TargetsDrive(a, t);
    StickDrive(b, v);
    StickDrive(d, v);
  }

  lemma ReleaseDrive(d: Drive, t: Targets, u: Number, v: Number)
    ensures DriveAfter(DriveAfter(DriveAfter(d, SetStick(u)), SetTargets(t)), SetStick(v)) == d.(targets := t, stick := v)
  {
    hide DriveAfter;
    var a, b := d.(stick := u), d.(stick := u, targets := t);
    StickDrive(d, u);
    TargetsDrive(a, t);
    StickDrive(b, v);
  }

  lemma EnableDrive(d: Drive)
    ensures DriveAfter(d, Enable(true)) == d.(enable := true)
  {
  }

  lemma TargetsDrive(d: Drive, t: Targets)
    ensures DriveAfter(d, SetTargets(t)) == d.(targets := t)
  {
  }

  lemma StickDrive(d: Drive, v: Number)
    ensures DriveAfter(d, SetStick(v)) == d.(stick := v)
  {
  }

  lemma ButtonsAreSteps(s: Sys, p: Panel, up: bool, down: bool)
    requires s.Valid() && p.calibration.deadband < TWO_32
    ensures After(s, ButtonSteps(p, s.drive.targets, up, down)) == s.(drive := ButtonDrive(p, s.drive, up, down))
  {
    hide Next, After, JoystickValue, DriveAfter, Restored;
    var v, t := Fin(Deflection(up, down)), s.drive.targets.(mode := JOYSTICK);
    var rest, back := Fin(JoystickValue(p.raw, p.calibration)), Restored(p, s.drive.targets);
    PressDrive(s.drive, t, v);
    PressDrive(s.drive, t, Fin(0.0));
    ReleaseDrive(s.drive, back, Fin(0.0), rest);
    NoSteps(s);
    OneDriveStep(s, SetStick(v));
    OneDriveStep(s, SetStick(Fin(0.0)));
    ThreeDriveSteps(s, Enable(true), SetTargets(t), SetStick(v));
    ThreeDriveSteps(s, SetStick(Fin(0.0)), SetTargets(back), SetStick(rest));
  }

  /** One poll of the buttons: what is held, whether the motor moves, and the targets then. */
  datatype Press = Press(up: bool, down: bool, moving: bool, targets: Targets)

  function Pressed(p: Panel, presses: seq<Press>): Panel {
    if presses == [] then p
    else
      var last := presses[|presses| - 1];
      PanelAfter(Pressed(p, presses[..|presses| - 1]).(moving := last.moving), last.targets, last.up, last.down)
  }

  /** The buttons own the mode until the poll that restores it. */
  ghost predicate Held(p: Panel, presses: seq<Press>) {
    presses == [] || (Held(p, presses[..|presses| - 1]) && Pressed(p, presses).own)
  }

  /** However often buttons are pressed and released before the motor has come to rest, and
      whatever mode others command meanwhile, what is restored is the mode of the first press. */
  lemma {:induction false} ModeOfFirstPress(p: Panel, presses: seq<Press>)
    requires !p.own && presses != [] && Held(p, presses)
    ensures Pressed(p, presses).prev == presses[0].targets.mode
    decreases |presses|
  {
    var before := presses[..|presses| - 1];
    if before != [] { ModeOfFirstPress(p, before); }
  }

  /** The auto-clear timer: when it started, and whether it fires. */
  function DwellStart(since: nat, faulted: bool, now: nat): nat {
    if !faulted then 0 else if since == 0 || AutoClears(since, faulted, now) then Clock(now) else since
  }

  predicate AutoClears(since: nat, faulted: bool, now: nat) {
    faulted && since != 0 && Elapsed(now, since) >= AUTO_FAULT_CLEAR_DELAY_MS
  }

  lemma CapKept(d: Drive, e: Step)
    ensures var f := DriveAfter(d, e); f.maxVelocity == d.maxVelocity && f.profile == d.profile
  {
  }

  /** What each request does to the system. */
  ghost predicate Obeyed(s: Sys, t: Sys, r: AxisRequest, now: nat)
    requires s.Valid() && ValidRequest(r)
  {
    match r
    case Steer(q) => t == s.(drive := DriveAfter(s.drive, SteerStep(s.drive, q)))
    case LoadFactor(v) => t == s.(pipe := t.pipe, load := t.load) && (t.pipe, t.load) == Seq.SetLoad(s.pipe, s.load, v)
    case Proxied(k, v) =>
      t == s.(proxy := Proxy.Set(s.proxy, k, v),
              drive := if k == Proxy.VEL_LIMIT && Proxy.Settable(k, v) then Recap(s.drive, t.proxy) else s.drive)
    case JoyProfile(p) => t == s.(drive := if p <= FINE then Recap(s.drive.(profile := p), s.proxy) else s.drive)
    case MotorSave =>
      t == s.(save := t.save, drive := s.drive.(enable := t.drive.enable)) &&
      (t.save, t.drive.enable) == Seq.RequestSave(s.save, s.drive.enable, now)
    case Home => t == s.(home := Seq.RequestHome(s.home, now))
    case Resync => t == s.(boot := Proxy.RequestResync(s.boot, now))
  }

  lemma SteerObeyed(s: Sys, t: Sys, r: AxisRequest, now: nat)
    requires s.Valid() && ValidRequest(r) && r.Steer? && t == s.(drive := DriveAfter(s.drive, SteerStep(s.drive, r.request)))
    ensures Obeyed(s, t, r, now)
  {
    hide DriveAfter, SteerStep;
  }

  lemma SetterAnyTime(s: Sys, t: Sys, r: AxisRequest, now: nat)
    requires s.Valid() && ValidRequest(r) && (r.LoadFactor? || r.Proxied? || r.JoyProfile?) && Obeyed(s, t, r, 0)
    ensures Obeyed(s, t, r, now)
  {
    hide DriveAfter, SteerStep, Seq.SetLoad, Proxy.Set, Proxy.Settable, Recap;
  }

  lemma RequestIsStep(s: Sys, t: Sys, r: AxisRequest, now: nat)
    requires s.Valid() && ValidRequest(r) && Obeyed(s, t, r, now)
    ensures t == Next(s, StepOf(s.drive, r, now))
  {
    hide Next, Obeyed, StepOf;
    if r.Steer? {
      SteerIsStep(s, t, r, now);
    } else if r.LoadFactor? || r.Proxied? || r.JoyProfile? {
      SetterIsStep(s, t, r, now);
    } else {
      SequencerRequestIsStep(s, t, r, now);
    }
  }

  lemma SteerIsStep(s: Sys, t: Sys, r: AxisRequest, now: nat)
    requires s.Valid() && ValidRequest(r) && Obeyed(s, t, r, now) && r.Steer?
    ensures t == Next(s, StepOf(s.drive, r, now))
  {
    hide Next, DriveAfter, SteerStep, IsDriveStep;
    SteersDrive(s.drive, r.request);
    DriveSteps(s, SteerStep(s.drive, r.request));
  }

  lemma SetterIsStep(s: Sys, t: Sys, r: AxisRequest, now: nat)
    requires s.Valid() && ValidRequest(r) && Obeyed(s, t, r, now) && (r.LoadFactor? || r.Proxied? || r.JoyProfile?)
    ensures t == Next(s, StepOf(s.drive, r, now))
  {
    hide Recap, Seq.SetLoad, Proxy.Set, Proxy.Settable, SteerStep, DriveAfter;
  }

  lemma SequencerRequestIsStep(s: Sys, t: Sys, r: AxisRequest, now: nat)
    requires s.Valid() && ValidRequest(r) && Obeyed(s, t, r, now) && (r.MotorSave? || r.Home? || r.Resync?)
    ensures t == Next(s, StepOf(s.drive, r, now))
  {
    hide Proxy.RequestResync, Seq.RequestSave, Seq.RequestHome, SteerStep, DriveAfter, Recap, Proxy.Set, Proxy.Settable;
  }

  lemma SteersDrive(d: Drive, r: DriveRequest)
    requires r.JoystickRaw? ==> r.calibration.deadband < TWO_32
    ensures IsDriveStep(SteerStep(d, r)) && ValidStep(SteerStep(d, r))
  {
    hide JoystickValue, IsNan, IsNegative;
  }

  /** The steps that only assign to the drive. */
  lemma DriveSteps(s: Sys, e: Step)
    requires s.Valid() && ValidStep(e) && IsDriveStep(e)
    ensures Next(s, e) == s.(drive := DriveAfter(s.drive, e))
  {
    hide ComputeDesired, Recap, Compose, Proxy.Set, Proxy.RequestResync, Seq.RequestSave, Seq.RequestHome, Exchange, MotorAfter;
    hide Q.Tick, Proxy.Tick, Proxy.BootTick, Seq.LoadTick, Seq.SetLoad, Seq.SaveTick, Seq.HomeTick, Bridge.Receive, Bridge.Service;
  }

  // The steps of the model that make up one axis_manager_tick.

  function StatusSteps(faulted: bool, auto: bool): (run: seq<Step>)
    ensures ValidRun(run)
  {
    if auto then [ReadStatus(faulted), RequestClearFault] else [ReadStatus(faulted)]
  }

  function ProxySteps(now: nat): (run: seq<Step>)
    ensures ValidRun(run)
  {
    [LoadTick, BootTick(now), ProxyTick]
  }

  function SaveAndHomeSteps(now: nat): (run: seq<Step>)
    ensures ValidRun(run)
  {
    [SaveTick(now), HomeTick(now)]
  }

  function WriterSteps(now: nat): (run: seq<Step>)
    ensures ValidRun(run)
  {
    ProxySteps(now) + SaveAndHomeSteps(now)
  }

  function ClientSteps(now: nat, p: Panel, t: Targets, up: bool, down: bool): (run: seq<Step>)
    requires p.calibration.deadband < TWO_32
    ensures ValidRun(run)
  {
    WriterSteps(now) + (ButtonSteps(p, t, up, down) + [SetupTick])
  }

  lemma {:induction false} AfterAppended(s: Sys, a: seq<Step>, b: seq<Step>)
    requires s.Valid() && ValidRun(a) && ValidRun(b)
    ensures ValidRun(a + b) && After(s, a + b) == After(After(s, a), b)
    decreases |b|
  {
    hide Next;
    if b == [] {
      assert a + b == a;
    } else {
      var c := b[..|b| - 1];
      AfterAppended(s, a, c);
      assert (a + b)[..|a + b| - 1] == a + c;
    }
  }

  lemma LastStep(s: Sys, run: seq<Step>, e: Step)
    requires s.Valid() && ValidRun(run) && ValidStep(e)
    ensures ValidRun(run + [e]) && After(s, run + [e]) == Next(After(s, run), e)
  {
    hide Next;
    assert (run + [e])[..|run|] == run;
  }

  lemma TwoSteps(s: Sys, a: Step, b: Step)
    requires s.Valid() && ValidStep(a) && ValidStep(b)
    ensures After(s, [a, b]) == Next(Next(s, a), b)
  {
    hide Next;
    assert [a, b][..1] == [a] && [a][..0] == [];
    assert After(s, [a]) == Next(s, a);
  }

  lemma ThreeSteps(s: Sys, a: Step, b: Step, c: Step)
    requires s.Valid() && ValidStep(a) && ValidStep(b) && ValidStep(c)
    ensures After(s, [a, b, c]) == Next(Next(Next(s, a), b), c)
  {
    hide Next;
    assert [a, b, c][..2] == [a, b] && [a, b][..1] == [a] && [a][..0] == [];
    assert After(s, [a]) == Next(s, a);
    assert After(s, [a, b]) == Next(Next(s, a), b);
  }

  lemma LoadIsStep(s: Sys, t: Sys)
    requires s.Valid()
    ensures t == s.(pipe := t.pipe, load := t.load) && (t.pipe, t.load) == Seq.LoadTick(s.pipe, s.load) ==> t == Next(s, LoadTick)
  {
  }

  lemma BootIsStep(s: Sys, t: Sys, now: nat)
    requires s.Valid() && s.drive.maxVelocity == MaxVelocity(s.proxy.slots[Proxy.VEL_LIMIT].mirror, s.drive.profile)
    requires t == s.(pipe := t.pipe, boot := t.boot, proxy := t.proxy, drive := Recap(s.drive, t.proxy)) &&
      (t.pipe, t.boot, t.proxy) == Proxy.BootTick(s.pipe, s.boot, s.proxy, now)
    ensures t == Next(s, BootTick(now))
  {
    hide MaxVelocity, Proxy.BootTick;
  }

  lemma ProxyIsStep(s: Sys, t: Sys)
    requires s.Valid()
    ensures t == s.(pipe := t.pipe, proxy := t.proxy) && (t.pipe, t.proxy) == Proxy.Tick(s.pipe, s.proxy) ==> t == Next(s, ProxyTick)
  {
    hide Proxy.Tick;
  }

  lemma SaveIsStep(s: Sys, t: Sys, now: nat)
    requires s.Valid()
    requires t == s.(pipe := t.pipe, save := t.save, drive := s.drive.(enable := t.drive.enable)) &&
      (t.pipe, t.save, t.drive.enable) == Seq.SaveTick(s.pipe, s.save, s.drive.enable, now)
    ensures t == Next(s, SaveTick(now))
  {
    hide Seq.SaveTick;
  }

  lemma HomeIsStep(s: Sys, t: Sys, now: nat)
    requires s.Valid()
    ensures t == s.(pipe := t.pipe, home := t.home) && (t.pipe, t.home) == Seq.HomeTick(s.pipe, s.home, now) ==> t == Next(s, HomeTick(now))
  {
    hide Seq.HomeTick;
  }

  lemma SetupIsStep(s: Sys, t: Sys)
    requires s.Valid()
    ensures t == s.(pipe := t.pipe, setup := t.setup) && (t.pipe, t.setup) == Q.Tick(s.pipe, s.setup, s.Desired()) ==> t == Next(s, SetupTick)
  {
    hide Q.Tick, ComputeDesired;
  }

  lemma ComposeIsStep(s: Sys, t: Sys)
    requires s.Valid()
    requires t == s.(drive := t.drive, word := t.word) &&
      (t.drive, t.word) == Compose(s.drive, Q.Busy(s.setup, s.Desired()), s.proxy.slots[Proxy.VEL_LIMIT].mirror)
    ensures t == Next(s, ComposeTick)
  {
    hide Compose, ComputeDesired, Q.Busy;
  }

  lemma StatusParts(s: Sys, faulted: bool)
    requires s.Valid()
    ensures Next(s, ReadStatus(faulted)) == s.(drive := s.drive.(faulted := faulted))
    ensures Next(s, RequestClearFault) == s.(drive := s.drive.(clearFault := true))
  {
    hide ComputeDesired, MaxVelocity, Compose;
  }

  lemma StatusIsStep(s: Sys, t: Sys, faulted: bool, auto: bool)
    requires s.Valid() && t == s.(drive := s.drive.(faulted := faulted, clearFault := s.drive.clearFault || auto))
    ensures t == After(s, StatusSteps(faulted, auto))
  {
    hide Next, After;
    var r := ReadStatus(faulted);
    StatusParts(s, faulted);
    assert After(s, []) == s by { NoSteps(s); }
    LastStep(s, [], r);
    assert [] + [r] == [r];
    if auto {
      StatusParts(Next(s, r), faulted);
      LastStep(s, [r], RequestClearFault);
      assert [r] + [RequestClearFault] == [r, RequestClearFault];
    }
  }

  lemma NoSteps(s: Sys)
    requires s.Valid()
    ensures After(s, []) == s
  {
  }

  lemma SetpointTaken(d: Drive, e: Drive, f: Drive, busy: bool)
    requires e == if d.startMove && !busy then d.(newSetpoint := PULSE_CYCLES, startMove := false) else d
    requires f == if e.newSetpoint > 0 then e.(newSetpoint := e.newSetpoint - 1) else e
    ensures var n := if d.startMove && !busy then PULSE_CYCLES else d.newSetpoint;
      f == d.(startMove := d.startMove && busy, newSetpoint := if n > 0 then n - 1 else 0)
    ensures f.maxVelocity == d.maxVelocity && f.profile == d.profile && f.targets == d.targets
  {
  }

  lemma MotionIs(d: Drive, halted: Drive, triggered: Drive, w: Word, v: Word, reset: bool, busy: bool, limit: f32)
    requires halted == d.(halt := if d.halt > 0 then d.halt - 1 else 0)
    requires var n := if d.startMove && !busy then PULSE_CYCLES else d.newSetpoint;
      && triggered == halted.(startMove := d.startMove && busy, newSetpoint := if n > 0 then n - 1 else 0)
      && v == w.(halt := w.halt || d.halt > 0, newSetpoint := n > 0)
    requires var on := d.enable && d.targets.mode != OFF;
      w == Word(on, true, false, reset, on && d.targets.mode == HOLD, if d.enable then Demand(d, limit) else 0)
    ensures (triggered, v) == Motion(d, reset, busy, limit)
  {
    hide Demand;
  }

  lemma BusyStarts(p: Pipe, b: Proxy.Boot, now: nat)
    requires p.Valid() && b.Valid() && b.state == Proxy.BootBusy
    ensures Proxy.BootStart(p, b, now) == (p, b)
  {
  }
}
