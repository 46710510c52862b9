/**
 * The other users of the SDO slot inside app/axis_manager: the load-factor writer, the
 * motor-save sequencer and the homing sequencer.
 */
module Sequencers {
  import opened Bytes
  import opened Pipeline
  import opened Scaling
  import opened SetupSequencer
  import opened Time

  const SAVE_MAGIC := 0x7376
  const MOTOR_SAVE_DISABLE_MS := 250
  const MOTOR_SAVE_REENABLE_MS := 50
  const MOTOR_SAVE_OVERALL_TIMEOUT_MS := 5000
  const HOME_POLL_PERIOD_MS := 200
  const HOME_OVERALL_TIMEOUT_MS := 30000
  const HOME_DONE := 2
  const HOME_FAILED := 3
  const FAULT_NOT_HOMED: bv32 := 2

  // ----- Load factor -----

  datatype Load = Load(factor: f32, handle: int, pending: bool) {
    function Hold(): int { if pending then handle else NO_HANDLE }
  }

  function LoadWrite(v: f32): Request { Request(false, 0x2300, 5, T_F32, Split32(v)) }

  /** axis_manager_set_load_factor accepts v: 0.3 to 2.0. */
  predicate LoadInRange(v: f32) {
    !IsNan(v) && !Less(Decode(v), Fin(0.3)) && !Less(Fin(2.0), Decode(v))
  }

  /** axis_manager_set_load_factor: cached always, written only if the slot is free. */
  function SetLoad(p: Pipe, l: Load, v: f32): (r: (Pipe, Load))
    requires p.Valid()
    ensures r.0.Valid()
  {
    if !LoadInRange(v) then (p, l)
    else if l.pending then (p, l.(factor := v))
    else
      var begun := Begin(p, LoadWrite(v));
      if begun.1 == NO_HANDLE then (p, l.(factor := v)) else (begun.0, Load(v, begun.1, true))
  }

  /** poll_load_factor_sdo. */
  function LoadTick(p: Pipe, l: Load): (r: (Pipe, Load))
    requires p.Valid()
    ensures r.0.Valid()
  {
    if !l.pending then (p, l)
    else
      var polled := Poll(p, l.handle);
      if polled.1.NotYet? then (p, l) else (polled.0, l.(handle := NO_HANDLE, pending := false))
  }

  // ----- Motor save -----

  datatype SaveState = SaveIdle | Disabling | WritingSdo | Reenable

  datatype Save = Save(state: SaveState, startMs: nat, phaseMs: nat, wasEnabled: bool, handle: int) {
    function Hold(): int { if state == WritingSdo then handle else NO_HANDLE }
  }

  function SaveWrite(): Request { Request(false, 0x2800, 1, T_U16, Wr16(SAVE_MAGIC)) }

  /** axis_manager_request_motor_save: the save state and the enable latch. */
  function RequestSave(m: Save, enabled: bool, now: nat): (Save, bool) {
    if m.state != SaveIdle then (m, enabled)
    else (Save(Disabling, Clock(now), Clock(now), enabled, m.handle), false)
  }

  predicate SaveTimedOut(m: Save, now: nat) {
    m.state != SaveIdle && Elapsed(now, m.startMs) > MOTOR_SAVE_OVERALL_TIMEOUT_MS
  }

  /** tick_motor_save: the slot, the save state and the enable latch. */
  function SaveTick(p: Pipe, m: Save, enabled: bool, now: nat): (r: (Pipe, Save, bool))
    requires p.Valid()
    ensures r.0.Valid()
  {
    if SaveTimedOut(m, now) then (p, m.(state := SaveIdle, handle := NO_HANDLE), m.wasEnabled)
    else
      match m.state
      case SaveIdle => (p, m, enabled)
      case Disabling =>
        if Elapsed(now, m.phaseMs) < MOTOR_SAVE_DISABLE_MS then (p, m, enabled)
        else
          var begun := Begin(p, SaveWrite());
          if begun.1 == NO_HANDLE then (p, m, enabled)
          else (begun.0, m.(handle := begun.1, state := WritingSdo, phaseMs := Clock(now)), enabled)
      case WritingSdo =>
        var polled := Poll(p, m.handle);
        if polled.1.NotYet? then (p, m, enabled)
        else (polled.0, m.(handle := NO_HANDLE, state := Reenable, phaseMs := Clock(now)), enabled)
      case Reenable =>
        if Elapsed(now, m.phaseMs) < MOTOR_SAVE_REENABLE_MS then (p, m, enabled)
        else (p, m.(state := SaveIdle), enabled || m.wasEnabled)
  }

  // ----- Homing -----

  datatype HomeState = HomeIdle | WritingCmd | PollingStatus | ReadingFault | TerminalDone | TerminalFailed

  /** The sequencer's variables; kicked is s_boot_fault_read_kicked. */
  datatype Home = Home(
    state: HomeState, handle: int, startMs: nat, lastPollMs: nat, motorStatus: nat,
    isHomed: bool, isHomedKnown: bool, kicked: bool)
  {
    function Hold(): int { handle }
  }

  function HomeWrite(): Request { Request(false, 0x2700, 8, T_U8, [1]) }
  function HomeRead(): Request { Request(true, 0x2700, 9, T_U8, []) }
  function FaultRead(): Request { Request(true, 0x2600, 1, T_U32, []) }

  /** axis_manager_request_home. */
  function RequestHome(h: Home, now: nat): Home {
    if h.state != HomeIdle then h else h.(state := WritingCmd, startMs := Clock(now), lastPollMs := 0)
  }

  /** The one-shot fault read at boot. */
  function Kick(p: Pipe, h: Home): (r: (Pipe, Home))
    requires p.Valid()
    ensures r.0.Valid()
  {
    if h.kicked then (p, h)
    else
      var begun := Begin(p, FaultRead());
      if begun.1 == NO_HANDLE then (p, h)
      else (begun.0, h.(handle := begun.1, kicked := true, state := if h.state == HomeIdle then ReadingFault else h.state))
  }

  predicate HomeTimedOut(h: Home, now: nat) {
    h.state != HomeIdle && h.state != ReadingFault && Elapsed(now, h.startMs) > HOME_OVERALL_TIMEOUT_MS
  }

  /** The request each waiting state issues. */
  function HomeRequest(state: HomeState): Request
    requires state in {WritingCmd, PollingStatus, ReadingFault}
  {
    if state == WritingCmd then HomeWrite() else if state == PollingStatus then HomeRead() else FaultRead()
  }

  /** Issue the state's request unless a handle is already held, or polling is not yet due. */
  function Issue(p: Pipe, h: Home, now: nat): (r: (Pipe, Home))
    requires p.Valid() && h.state in {WritingCmd, PollingStatus, ReadingFault}
    ensures r.0.Valid() && r.1 == h.(handle := r.1.handle, lastPollMs := r.1.lastPollMs)
  {
    if h.handle != NO_HANDLE then (p, h)
    else if h.state == PollingStatus && Elapsed(now, h.lastPollMs) < HOME_POLL_PERIOD_MS && Elapsed(now, h.startMs) > 100
    then (p, h)
    else
      var begun := Begin(p, HomeRequest(h.state));
      if begun.1 == NO_HANDLE then (p, h)
      else (begun.0, h.(handle := begun.1, lastPollMs := if h.state == PollingStatus then Clock(now) else h.lastPollMs))
  }

  /** What a completed request does to the sequencer, its handle already dropped. */
  function HomeReply(h: Home, result: nat, data: seq<byte>, now: nat): Home
    requires h.state in {WritingCmd, PollingStatus, ReadingFault}
  {
    if h.state == WritingCmd then
      if result != OD_OK then h.(state := TerminalFailed, motorStatus := HOME_FAILED)
      else h.(state := PollingStatus, lastPollMs := Clock(now))
    else if h.state == PollingStatus then
      if result != OD_OK || |data| == 0 then h
      else
        var status := Value(data[0]);
        h.(motorStatus := status, state := if status == HOME_DONE || status == HOME_FAILED then ReadingFault else h.state)
    else if result == OD_OK && |data| >= 4 then
      h.(isHomed := Join32(data[..4]) & FAULT_NOT_HOMED == 0, isHomedKnown := true,
         state := if h.motorStatus == HOME_DONE then TerminalDone
                  else if h.motorStatus == HOME_FAILED then TerminalFailed else HomeIdle)
    else h.(state := HomeIdle)
  }

  /** The body of tick_home_sequencer after the boot read. */
  function Advance(p: Pipe, h: Home, now: nat): (r: (Pipe, Home))
    requires p.Valid()
    ensures r.0.Valid()
  {
    if HomeTimedOut(h, now) then (p, h.(state := TerminalFailed, motorStatus := HOME_FAILED))
    else if h.state in {WritingCmd, PollingStatus, ReadingFault} then
      var issued := Issue(p, h, now);
      var polled := Poll(issued.0, issued.1.handle);
      match polled.1
      case NotYet => issued
      case Done(result, data) => (polled.0, HomeReply(issued.1.(handle := NO_HANDLE), result, data, now))
    else if h.state == HomeIdle then (p, h)
    else (p, h.(state := HomeIdle))
  }

  /** tick_home_sequencer. */
  function HomeTick(p: Pipe, h: Home, now: nat): (r: (Pipe, Home))
    requires p.Valid()
    ensures r.0.Valid()
  {
    var kicked := Kick(p, h);
    Advance(kicked.0, kicked.1, now)
  }

  /** Homing requested before the boot read was issued takes that read's answer for the
      answer to its own write, which is never sent. */
  lemma HomeBeforeBootRead(p: Pipe, h: Home, now: nat, later: nat, answer: Answer)
    requires p.Valid() && p.slot.phase == Idle && h.state == HomeIdle && h.handle == NO_HANDLE && !h.kicked
    requires answer.Answer? && answer.result == OD_OK && |answer.data| <= DATA_MAX
    requires Elapsed(later, Clock(now)) <= HOME_OVERALL_TIMEOUT_MS
    ensures var first := HomeTick(p, RequestHome(h, now), now);
      && first.0.slot.req == FaultRead() && first.0.slot.phase == Pending
      && var q := first.0.(slot := Completed(first.0.slot, answer.result, answer.data));
      HomeTick(q, first.1, later).1.state == PollingStatus
  {
  }
}
