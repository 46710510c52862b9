/**
 * The whole of the motor side as one state machine: the SDO slot of app/cia402, its seven
 * independent clients (setup sequencer, load-factor writer, proxy writer, resync reader,
 * motor save, homing, UDP bridge) and the motor behind the link. A run is any sequence of
 * calls, in any order and with any interleaving; the main loop's order is one of them.
 */
module System {
  import opened Bytes
  import opened Pipeline
  import opened Scaling
  import Sequencer = SetupSequencer
  import Proxy = ProxyCache
  import Seq = Sequencers
  import Bridge

  // ----- The cyclic command -----

  const PULSE_CYCLES := 3

  type i32 = v: int | -0x8000_0000 <= v < 0x8000_0000

  /** The bits of the controlword, and the streamed setpoint. */
  datatype Word = Word(enable: bool, notQuickStop: bool, newSetpoint: bool, faultReset: bool, halt: bool, velocity: i32)

  const QUIET_WORD := Word(false, false, false, false, false, 0)

  /** What compose_cyclic_cmd reads and writes beside the sequencer. */
  datatype Drive = Drive(
    faulted: bool, enable: bool, quickStop: bool, clearFault: bool, startMove: bool,
    newSetpoint: nat, halt: nat, faultReset: nat,
    targets: Targets, stick: Number, targetVelocity: f32, profile: nat, maxVelocity: Number)

  /** The limits compute_desired reads are the mirrors of four proxy slots. */
  function LimitsOf(x: Proxy.Proxy): Limits {
    Limits(x.slots[Proxy.VEL_LIMIT].mirror, x.slots[Proxy.ACCEL_LIMIT].mirror,
           x.slots[Proxy.POS_LIMIT_LO].mirror, x.slots[Proxy.POS_LIMIT_HI].mirror)
  }

  function Demand(d: Drive, limit: f32): (v: int)
    ensures -I32_SATURATED <= v <= I32_SATURATED
  {
    ToScaledI32(VelocityDemand(d.targets.mode, Times(d.stick, d.maxVelocity), Decode(d.targetVelocity), limit), 1000.0)
  }

  /** FAULT_RESET: latch the request into its pulse counter and count one cycle. */
  function ResetPulse(d: Drive): Drive {
    var n := if d.clearFault then PULSE_CYCLES else d.faultReset;
    d.(clearFault := false, faultReset := if n > 0 then n - 1 else 0)
  }

  predicate ResetBit(d: Drive) { d.clearFault || d.faultReset > 0 }

  /** NEW_SETPOINT rises in this cycle. */
  predicate Rises(d: Drive, busy: bool) { !d.quickStop && !d.faulted && d.startMove && !busy }

  /** The part of compose_cyclic_cmd for a drive that is neither stopped nor faulted. */
  function Motion(d: Drive, reset: bool, busy: bool, limit: f32): (Drive, Word) {
    var on := d.enable && d.targets.mode != OFF;
    var n := if d.startMove && !busy then PULSE_CYCLES else d.newSetpoint;
    (d.(halt := if d.halt > 0 then d.halt - 1 else 0, startMove := d.startMove && busy,
        newSetpoint := if n > 0 then n - 1 else 0),
     Word(on, true, n > 0, reset, (on && d.targets.mode == HOLD) || d.halt > 0,
          if d.enable then Demand(d, limit) else 0))
  }

  /** compose_cyclic_cmd. */
  function Compose(d: Drive, busy: bool, limit: f32): (Drive, Word) {
    var e := ResetPulse(d);
    if d.quickStop then
      (e.(enable := false, quickStop := false, newSetpoint := 0, halt := 0, faultReset := 0),
       QUIET_WORD.(faultReset := ResetBit(d)))
    else if d.faulted then (e, QUIET_WORD.(faultReset := ResetBit(d), notQuickStop := true))
    else Motion(e, ResetBit(d), busy, limit)
  }

  // ----- The motor -----

  type Object = (nat, nat)

  /** What the motor stores; and of the last request sent: whether the motor took the write,
      the number of the frame that carried it and the time it was built. */
  datatype Motor = Motor(store: map<Object, seq<byte>>, took: bool, reqFrame: nat, reqTime: nat)

  function ObjectOf(r: Request): Object { (r.index, r.sub) }

  // ----- The system -----

  datatype Sys = Sys(
    pipe: Pipe, frames: nat,
    setup: Sequencer.Sequencer, load: Seq.Load, proxy: Proxy.Proxy, boot: Proxy.Boot, save: Seq.Save, home: Seq.Home,
    bridge: Bridge.Queue, drive: Drive, word: Word, motor: Motor)
  {
    ghost predicate Valid() { pipe.Valid() && setup.Valid() && proxy.Valid() && boot.Valid() }

    function Desired(): Setup { ComputeDesired(drive.targets, LimitsOf(proxy)) }
  }

  /** One main-loop pass of cia402_tick: whether it transmits, its clock readings, whether
      the motor takes a write sent in this frame, and the answer received, if any, with the
      number of the frame whose request it answers. */
  datatype TickEvent = TickEvent(transmits: bool, sendTime: nat, endTime: nat, taken: bool, answer: Answer, answers: nat)

  datatype Step =
    | LinkTick(t: TickEvent)
    | LoadTick
    | BootTick(now: nat)
    | ProxyTick
    | SaveTick(now: nat)
    | HomeTick(now: nat)
    | SetupTick
    | ComposeTick
    | ReadStatus(faulted: bool)
    | SetLoad(value: f32)
    | SetSlot(slot: nat, value: f32)
    | SetTargets(targets: Targets)
    | SetStick(stick: Number)
    | SetTargetVelocity(velocity: f32)
    | SetProfile(profile: nat)
    | Enable(on: bool)
    | RequestQuickStop
    | RequestClearFault
    | RequestStartMove
    | RequestHalt
    | RequestSave(now: nat)
    | RequestHome(now: nat)
    | RequestResync(now: nat)
    | Receive(peer: Bridge.Peer, sequence: nat, message: Bridge.Incoming, local: Bridge.LocalResult)
    | Service

  /** The call can be made: slot and profile numbers are those the callers use. */
  ghost predicate ValidStep(e: Step) {
    match e
    case SetSlot(k, _) => k < Proxy.SLOT_COUNT
    case LinkTick(t) => t.answer.Answer? ==> |t.answer.data| <= DATA_MAX
    case _ => true
  }

  function MotorAfter(s: Sys, t: TickEvent): Motor {
    var r := s.pipe.slot.req;
    if s.pipe.slot.phase != Pending then s.motor
    else
      var takes := t.taken && !r.isRead;
      Motor(if takes then s.motor.store[ObjectOf(r) := r.data] else s.motor.store, takes, s.frames + 1, t.sendTime)
  }

  function LinkTicked(s: Sys, t: TickEvent): Sys {
    if !t.transmits then s
    else s.(pipe := s.pipe.(slot := Exchange(s.pipe.slot, (s.frames + 1) % TWO_16, t.sendTime, t.endTime, t.answer)),
            frames := s.frames + 1, motor := MotorAfter(s, t))
  }

  /** A change of the velocity limit's mirror or of the profile recomputes the cap. */
  function Recap(d: Drive, x: Proxy.Proxy): Drive {
    d.(maxVelocity := MaxVelocity(x.slots[Proxy.VEL_LIMIT].mirror, d.profile))
  }

  function Next(s: Sys, e: Step): (t: Sys)
    requires s.Valid() && ValidStep(e)
    ensures t.Valid()
  {
    match e
    case LinkTick(t) =>
      ExchangeValid(s.pipe, (s.frames + 1) % TWO_16, t.sendTime, t.endTime, t.answer);
      LinkTicked(s, t)
    case LoadTick =>
      var r := Seq.LoadTick(s.pipe, s.load);
      s.(pipe := r.0, load := r.1)
    case BootTick(now) =>
      var r := Proxy.BootTick(s.pipe, s.boot, s.proxy, now);
      s.(pipe := r.0, boot := r.1, proxy := r.2,
         drive := if r.2.slots[Proxy.VEL_LIMIT] != s.proxy.slots[Proxy.VEL_LIMIT] then Recap(s.drive, r.2) else s.drive)
    case ProxyTick =>
      var r := Proxy.Tick(s.pipe, s.proxy);
      s.(pipe := r.0, proxy := r.1)
    case SaveTick(now) =>
      var r := Seq.SaveTick(s.pipe, s.save, s.drive.enable, now);
      s.(pipe := r.0, save := r.1, drive := s.drive.(enable := r.2))
    case HomeTick(now) =>
      var r := Seq.HomeTick(s.pipe, s.home, now);
      s.(pipe := r.0, home := r.1)
    case SetupTick =>
      var r := Sequencer.Tick(s.pipe, s.setup, s.Desired());
      s.(pipe := r.0, setup := r.1)
    case ComposeTick =>
      var r := Compose(s.drive, Sequencer.Busy(s.setup, s.Desired()), s.proxy.slots[Proxy.VEL_LIMIT].mirror);
      s.(drive := r.0, word := r.1)
    case ReadStatus(faulted) => s.(drive := s.drive.(faulted := faulted))
    case SetLoad(v) =>
      var r := Seq.SetLoad(s.pipe, s.load, v);
      s.(pipe := r.0, load := r.1)
    case SetSlot(k, v) =>
      var x := Proxy.Set(s.proxy, k, v);
      s.(proxy := x, drive := if k == Proxy.VEL_LIMIT && Proxy.Settable(k, v) then Recap(s.drive, x) else s.drive)
    case SetTargets(t) => s.(drive := s.drive.(targets := t))
    case SetStick(v) => s.(drive := s.drive.(stick := v))
    case SetTargetVelocity(v) => s.(drive := s.drive.(targetVelocity := v))
    case SetProfile(p) =>
      if p > FINE then s else s.(drive := Recap(s.drive.(profile := p), s.proxy))
    case Enable(on) => s.(drive := s.drive.(enable := on))
    case RequestQuickStop => s.(drive := s.drive.(quickStop := true))
    case RequestClearFault => s.(drive := s.drive.(clearFault := true))
    case RequestStartMove => s.(drive := s.drive.(startMove := true))
    case RequestHalt => s.(drive := s.drive.(halt := PULSE_CYCLES))
    case RequestSave(now) =>
      var r := Seq.RequestSave(s.save, s.drive.enable, now);
      s.(save := r.0, drive := s.drive.(enable := r.1))
    case RequestHome(now) => s.(home := Seq.RequestHome(s.home, now))
    case RequestResync(now) => s.(boot := Proxy.RequestResync(s.boot, now))
    case Receive(peer, sq, m, l) =>
      var r := Bridge.Receive(s.pipe, s.bridge, peer, sq, m, l);
      s.(pipe := r.0, bridge := r.1)
    case Service =>
      var r := Bridge.Service(s.pipe, s.bridge);
      s.(pipe := r.0, bridge := r.1)
  }

  /** The calls that leave s_axis alone: the link and those clients that only use the slot. */
  ghost predicate SparesDrive(e: Step) {
    e.LinkTick? || e.LoadTick? || e.ProxyTick? || e.HomeTick? || e.SetupTick? || e.SetLoad? || e.RequestHome? ||
    e.RequestResync? || e.Receive? || e.Service?
  }

  lemma DriveSpared(s: Sys, e: Step)
    requires s.Valid() && ValidStep(e) && SparesDrive(e)
    ensures var t := Next(s, e); t.drive == s.drive && t.word == s.word && (!e.ProxyTick? ==> t.proxy == s.proxy)
  {
    hide Next;
    if e.LinkTick? || e.ProxyTick? || e.SetupTick? || e.Receive? || e.Service? {
      SlotUsersSpareDrive(s, e);
    } else {
      SequencersSpareDrive(s, e);
    }
  }

  lemma SlotUsersSpareDrive(s: Sys, e: Step)
    requires s.Valid() && ValidStep(e) && (e.LinkTick? || e.ProxyTick? || e.SetupTick? || e.Receive? || e.Service?)
    ensures var t := Next(s, e); t.drive == s.drive && t.word == s.word && (!e.ProxyTick? ==> t.proxy == s.proxy)
  {
    hide Scaling.ComputeDesired, Exchange, MotorAfter, Sequencer.Tick, Proxy.Tick, Bridge.Receive, Bridge.Service;
  }

  lemma SequencersSpareDrive(s: Sys, e: Step)
    requires s.Valid() && ValidStep(e)
    requires e.LoadTick? || e.HomeTick? || e.SetLoad? || e.RequestHome? || e.RequestResync?
    ensures var t := Next(s, e); t.drive == s.drive && t.word == s.word && t.proxy == s.proxy
  {
    hide Proxy.RequestResync, Seq.RequestHome, Seq.LoadTick, Seq.SetLoad, Seq.HomeTick;
  }

  ghost predicate ValidRun(run: seq<Step>) { forall i :: 0 <= i < |run| ==> ValidStep(run[i]) }

  function After(s: Sys, run: seq<Step>): (t: Sys)
    requires s.Valid() && ValidRun(run)
    ensures t.Valid()
  {
    if run == [] then s else Next(After(s, run[..|run| - 1]), run[|run| - 1])
  }

  /** The state after boot: nothing in flight, nothing acknowledged. */
  ghost predicate Initial(s: Sys) {
    && s.Valid() && s.pipe == EmptyPipe() && s.frames == 0 && s.motor.reqFrame == 0 && !s.motor.took
    && s.setup == Sequencer.Sequencer(Sequencer.IDLE_STEP, NO_HANDLE, Sentinels())
    && !s.load.pending && !s.proxy.pending && (forall k :: 0 <= k < Proxy.SLOT_COUNT ==> !s.proxy.slots[k].dirty)
    && s.boot.state == Proxy.BootIdle && s.boot.next == 0
    && s.save.state == Seq.SaveIdle && s.home == Seq.Home(Seq.HomeIdle, NO_HANDLE, 0, 0, 0, false, false, false)
    && !s.bridge.inFlight && s.drive.newSetpoint == 0 && s.drive.halt == 0 && s.drive.faultReset == 0
    && s.drive.maxVelocity == MaxVelocity(s.proxy.slots[Proxy.VEL_LIMIT].mirror, s.drive.profile)
  }
}
