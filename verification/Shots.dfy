/**
 * Shot recall and arrival detection of app/cmc_state.
 */
module Shots {
  import opened Time

  const MAX_SHOTS := 100
  const ARRIVAL_GRACE_MS := 100
  const MOVE_ACK_WATCHDOG_MS := 500
  const JOYSTICK_WATCHDOG_MS := 100

  datatype Shot = Shot(valid: bool, position: real, time: real)

  /** The calls cmc_state makes into axis_manager and persist. */
  datatype Effect =
    | GoTo(position: real, time: real)     // PROFILE_POSITION, targets, start_move
    | Halt
    | EnterJoystick
    | StickRaw(raw: int)
    | SaveShots

  /** What the modules above and below cmc_state do to it, with the inputs each call reads. */
  datatype Event =
    | StoreShot(shotNo: nat, position: real)
    | StoreNext(position: real)
    | SetTime(tenths: nat)
    | MoveTo(shotNo: nat, isCut: bool, homed: bool)
    | Stop
    | Movement(pan: int, inJoystick: bool)
    | Update(moving: bool, onTarget: bool)

  datatype State = State(
    shots: seq<Shot>, current: nat, next: nat, tenths: nat, moving: bool, onShot: bool,
    started: nat, ackSeen: bool, ackWarned: bool, lastMovement: nat, movementActive: bool)
  {
    ghost predicate Valid() {
      |shots| == MAX_SHOTS && next <= MAX_SHOTS && started < TWO_32 && lastMovement < TWO_32
    }
  }

  predicate ValidShotNo(n: nat) { 1 <= n <= MAX_SHOTS }

  /** cmc_state_move_to_shot goes ahead. */
  predicate Accepted(s: State, shotNo: nat, homed: bool)
    requires s.Valid()
  {
    ValidShotNo(shotNo) && s.shots[shotNo - 1].valid && homed
  }

  /** The duration of a move: operator-set, else stored, and for a fade at least 0.1 s. */
  function Duration(s: State, shotNo: nat, isCut: bool): (t: real)
    requires s.Valid() && ValidShotNo(shotNo)
    ensures isCut ==> t == 0.0
    ensures !isCut ==> t >= 0.1
    ensures !isCut && s.tenths > 0 ==> t == s.tenths as real * 0.1
  {
    var t := if isCut then 0.0
             else if s.tenths > 0 then s.tenths as real * 0.1
             else if s.shots[shotNo - 1].time > 0.0 then s.shots[shotNo - 1].time
             else 0.1;
    if !isCut && t < 0.1 then 0.1 else t
  }

  function RoundTenths(t: real): nat
    requires t >= 0.0
  {
    (t * 10.0 + 0.5).Floor
  }

  function Stored(s: State, shotNo: nat, position: real): State
    requires s.Valid()
  {
    if !ValidShotNo(shotNo) then s
    else s.(shots := s.shots[shotNo - 1 := Shot(true, position, s.tenths as real * 0.1)], current := shotNo)
  }

  function NextSlot(s: State): nat {
    if 0 < s.current < MAX_SHOTS then s.current + 1 else 1
  }

  /** The joystick watchdog at the head of cmc_state_update_from_motor. */
  function Watchdog(s: State, now: nat): State {
    if s.movementActive && Elapsed(now, s.lastMovement) > JOYSTICK_WATCHDOG_MS then s.(movementActive := false) else s
  }

  predicate ShotOpen(s: State)
    requires s.Valid()
  {
    s.next != 0 && s.shots[s.next - 1].valid
  }

  /** An update that ends a shot move. */
  predicate Arrives(s: State, e: Event, now: nat)
    requires s.Valid()
  {
    e.Update? && ShotOpen(s) && e.onTarget && !e.moving && Elapsed(now, s.started) >= ARRIVAL_GRACE_MS
  }

  /** The move-acknowledgement watchdog. */
  function AckWatch(s: State, moving: bool, now: nat): State
    requires s.Valid()
  {
    if !ShotOpen(s) then s
    else
      var seen := s.ackSeen || moving;
      s.(ackSeen := seen,
         ackWarned := s.ackWarned || (!seen && Elapsed(now, s.started) > MOVE_ACK_WATCHDOG_MS))
  }

  /** The rest of cmc_state_update_from_motor: follow the motor, or close the open move. */
  function Settle(s: State, moving: bool, onTarget: bool, now: nat): State
    requires s.Valid()
  {
    if !ShotOpen(s) then s.(moving := moving)
    else if onTarget && !moving && Elapsed(now, s.started) >= ARRIVAL_GRACE_MS then
      s.(moving := false, onShot := true, current := s.next, next := 0, tenths := 0)
    else s.(moving := true, onShot := false)
  }

  function Next(s: State, e: Event, now: nat): (t: State)
    requires s.Valid()
    ensures t.Valid()
  {
    match e
    case StoreShot(n, position) => Stored(s, n, position)
    case StoreNext(position) => Stored(s, NextSlot(s), position)
    case SetTime(tenths) => s.(tenths := tenths)
    case MoveTo(n, isCut, homed) =>
      if !Accepted(s, n, homed) then s
      else s.(next := n, moving := true, onShot := false, tenths := RoundTenths(Duration(s, n, isCut)),
              started := Clock(now), ackSeen := false, ackWarned := false)
    case Stop => s.(moving := false, next := 0)
    case Movement(_, _) =>
      if s.moving then s else s.(lastMovement := Clock(now), movementActive := true)
    case Update(moving, onTarget) =>
      Settle(AckWatch(Watchdog(s, now), moving, now), moving, onTarget, now)
  }

  function Effects(s: State, e: Event, now: nat): seq<Effect>
    requires s.Valid()
  {
    match e
    case StoreShot(n, _) => if ValidShotNo(n) then [SaveShots] else []
    case StoreNext(_) => [SaveShots]
    case SetTime(_) => []
    case MoveTo(n, isCut, homed) =>
      if Accepted(s, n, homed) then [GoTo(s.shots[n - 1].position, Duration(s, n, isCut))] else []
    case Stop => [Halt]
    case Movement(pan, inJoystick) =>
      if s.moving then [] else (if inJoystick then [] else [EnterJoystick]) + [StickRaw(pan)]
    case Update(_, _) =>
      if s.movementActive && Elapsed(now, s.lastMovement) > JOYSTICK_WATCHDOG_MS then [StickRaw(0)] else []
  }

  class CmcState {
    const shots: array<Shot>
    var currentShot: nat
    var nextShot: nat
    var timeToShotTenths: nat
    var moving: bool
    var onShot: bool
    var moveStartedMs: nat
    var moveAckSeen: bool
    var moveAckWarned: bool
    var lastMovementMs: nat
    var movementActive: bool
    // The calls made so far.
    var effects: seq<Effect>

    ghost function Value(): State
      reads this, shots
    {
      State(shots[..], currentShot, nextShot, timeToShotTenths, moving, onShot, moveStartedMs,
            moveAckSeen, moveAckWarned, lastMovementMs, movementActive)
    }

    ghost predicate Valid()
      reads this, shots
    {
      Value().Valid()
    }

    /** cmc_state_init, with the table loaded from flash (all slots empty if that failed). */
    constructor (loaded: seq<Shot>)
      requires |loaded| == MAX_SHOTS
      ensures Valid() && fresh(shots) && effects == [] && Value() == State(loaded, 0, 0, 0, false, false, 0, false, false, 0, false)
    {
      shots := new Shot[MAX_SHOTS](i requires 0 <= i < MAX_SHOTS => loaded[i]);
      currentShot, nextShot, timeToShotTenths, moving, onShot := 0, 0, 0, false, false;
      moveStartedMs, moveAckSeen, moveAckWarned := 0, false, false;
      lastMovementMs, movementActive, effects := 0, false, [];
      new;
      assert shots[..] == loaded;
    }

    /** cmc_state_store_shot. */
    method StoreShot(shotNo: nat, position: real) returns (ok: bool)
      requires Valid()
      modifies this, shots
      ensures Valid() && Value() == Stored(old(Value()), shotNo, position)
      ensures effects == old(effects) + if ok then [SaveShots] else []
      ensures ok == ValidShotNo(shotNo)
    {
      if !ValidShotNo(shotNo) { return false; }
      shots[shotNo - 1] := Shot(true, position, timeToShotTenths as real * 0.1);
      currentShot := shotNo;
      effects := effects + [SaveShots];
      return true;
    }

    /** cmc_state_store_next. */
    method StoreNext(position: real)
      requires Valid()
      modifies this, shots
      ensures Valid() && Value() == Next(old(Value()), Event.StoreNext(position), 0)
      ensures effects == old(effects) + [SaveShots]
    {
      var next := if 0 < currentShot < MAX_SHOTS then currentShot + 1 else 1;
      var _ := StoreShot(next, position);
    }

    /** cmc_state_move_to_shot. */
    method MoveToShot(shotNo: nat, isCut: bool, homed: bool, now: nat) returns (ok: bool)
      requires Valid()
      modifies this
      ensures Valid() && Value() == Next(old(Value()), MoveTo(shotNo, isCut, homed), now)
      ensures effects == old(effects) + Effects(old(Value()), MoveTo(shotNo, isCut, homed), now)
      ensures ok == Accepted(old(Value()), shotNo, homed)
    {
      hide RoundTenths, Clock;
      if !ValidShotNo(shotNo) { return false; }
      if !shots[shotNo - 1].valid { return false; }
      if !homed { return false; }
      var target := shots[shotNo - 1].position;
      var t: real;
      if isCut {
        t := 0.0;
      } else if timeToShotTenths > 0 {
        t := timeToShotTenths as real * 0.1;
      } else if shots[shotNo - 1].time > 0.0 {
        t := shots[shotNo - 1].time;
      } else {
        t := 0.1;
      }
      if !isCut && t < 0.1 { t := 0.1; }
      effects := effects + [GoTo(target, t)];
      nextShot, moving, onShot := shotNo, true, false;
      timeToShotTenths := RoundTenths(t);
      moveStartedMs, moveAckSeen, moveAckWarned := Clock(now), false, false;
      return true;
    }

    /** cmc_state_stop_movement. */
    method StopMovement()
      requires Valid()
      modifies this
      ensures Valid() && Value() == Next(old(Value()), Stop, 0) && effects == old(effects) + [Halt]
    {
      effects := effects + [Halt];
      moving := false;
      nextShot := 0;
    }

    /** cmc_state_handle_movement. */
    method HandleMovement(pan: int, inJoystick: bool, now: nat)
      requires Valid()
      modifies this
      ensures Valid() && Value() == Next(old(Value()), Movement(pan, inJoystick), now)
      ensures effects == old(effects) + Effects(old(Value()), Movement(pan, inJoystick), now)
    {
      if moving { return; }
      lastMovementMs, movementActive := Clock(now), true;
      if !inJoystick { effects := effects + [EnterJoystick]; }
      effects := effects + [StickRaw(pan)];
    }

    /** The joystick watchdog at the head of cmc_state_update_from_motor. */
    method RunWatchdog(now: nat)
      requires Valid()
      modifies `effects, `movementActive
      ensures Valid() && Value() == Watchdog(old(Value()), now)
      ensures effects == old(effects) + Effects(old(Value()), Update(false, false), now)
    {
      if movementActive && Elapsed(now, lastMovementMs) > JOYSTICK_WATCHDOG_MS {
        effects := effects + [StickRaw(0)];
        movementActive := false;
      }
    }

    /** The move-acknowledgement watchdog that follows it. */
    method RunAckWatch(motorMoving: bool, now: nat)
      requires Valid()
      modifies `moveAckSeen, `moveAckWarned
      ensures Valid() && Value() == AckWatch(old(Value()), motorMoving, now)
    {
      hide Elapsed;
      if nextShot != 0 && shots[nextShot - 1].valid {
        if motorMoving { moveAckSeen := true; }
        if !moveAckSeen && !moveAckWarned && Elapsed(now, moveStartedMs) > MOVE_ACK_WATCHDOG_MS {
          moveAckWarned := true;
        }
      }
    }

    /** cmc_state_update_from_motor. */
    method UpdateFromMotor(motorMoving: bool, motorOnTarget: bool, now: nat)
      requires Valid()
      modifies this
      ensures Valid() && Value() == Next(old(Value()), Update(motorMoving, motorOnTarget), now)
      ensures effects == old(effects) + Effects(old(Value()), Update(motorMoving, motorOnTarget), now)
    {
      hide Elapsed, Watchdog, AckWatch, Settle;
      RunWatchdog(now);
      RunAckWatch(motorMoving, now);
      SettleMove(motorMoving, motorOnTarget, now);
    }

    /** The rest of cmc_state_update_from_motor. */
    method SettleMove(motorMoving: bool, motorOnTarget: bool, now: nat)
      requires Valid()
      modifies `moving, `onShot, `currentShot, `nextShot, `timeToShotTenths
      ensures Valid() && Value() == Settle(old(Value()), motorMoving, motorOnTarget, now)
    {
      hide Elapsed;
      if nextShot == 0 || !shots[nextShot - 1].valid {
        moving := motorMoving;
        return;
      }
      var graceActive := Elapsed(now, moveStartedMs) < ARRIVAL_GRACE_MS;
      if motorOnTarget && !motorMoving && !graceActive {
        moving, onShot, currentShot, nextShot, timeToShotTenths := false, true, nextShot, 0, 0;
      } else {
        moving, onShot := true, false;
      }
    }
  }

  // ----- Runs -----

  datatype Call = Call(event: Event, now: nat)

  ghost predicate Ordered(run: seq<Call>) {
    forall i, j :: 0 <= i < j < |run| ==> run[i].now <= run[j].now
  }

  ghost predicate Initial(s: State) {
    s.Valid() && s.next == 0 && !s.moving
  }

  function After(s: State, run: seq<Call>): (t: State)
    requires s.Valid()
    ensures t.Valid()
  {
    if run == [] then s
    else Next(After(s, run[..|run| - 1]), run[|run| - 1].event, run[|run| - 1].now)
  }

  /** The state in which call k of a run is made. */
  function Before(s: State, run: seq<Call>, k: nat): (t: State)
    requires s.Valid() && k <= |run|
    ensures t.Valid()
  {
    After(s, run[..k])
  }

  /** Call k starts a shot move, ends one by arrival, or abandons one. */
  predicate Starts(s: State, run: seq<Call>, k: nat)
    requires s.Valid() && k < |run|
  {
    run[k].event.MoveTo? && Accepted(Before(s, run, k), run[k].event.shotNo, run[k].event.homed)
  }

  predicate Arrival(s: State, run: seq<Call>, k: nat)
    requires s.Valid() && k < |run|
  {
    Arrives(Before(s, run, k), run[k].event, run[k].now)
  }

  predicate Ends(s: State, run: seq<Call>, k: nat)
    requires s.Valid() && k < |run|
  {
    run[k].event.Stop? || Starts(s, run, k) || Arrival(s, run, k)
  }

  /** Call i started the move that is open when call k is made. */
  ghost predicate Opened(s: State, run: seq<Call>, i: nat, k: nat)
    requires s.Valid()
  {
    && i < k <= |run| && Starts(s, run, i)
    && forall j :: i < j < k ==> !Ends(s, run, j)
  }

  /** The open move of a state, if any, has a valid slot and marks the axis as moving. */
  ghost predicate MoveInvariant(s: State) {
    s.Valid() && (s.next != 0 ==> ValidShotNo(s.next) && s.shots[s.next - 1].valid && s.moving)
  }

  lemma {:induction false} EveryRunKeepsMove(s: State, run: seq<Call>)
    requires Initial(s)
    ensures MoveInvariant(After(s, run))
  {
    hide Next;
    if run != [] {
      EveryRunKeepsMove(s, run[..|run| - 1]);
      NextKeepsMove(After(s, run[..|run| - 1]), run[|run| - 1].event, run[|run| - 1].now);
    }
  }

  lemma WatchesKeepMove(s: State, moving: bool, now: nat)
    requires s.Valid()
    ensures var w := AckWatch(Watchdog(s, now), moving, now);
      w.next == s.next && w.shots == s.shots && w.started == s.started && w.current == s.current && w.moving == s.moving
      && w.tenths == s.tenths
  {
    hide Elapsed;
  }

  lemma NextKeepsMove(s: State, e: Event, now: nat)
    requires MoveInvariant(s)
    ensures MoveInvariant(Next(s, e, now))
  {
    hide Elapsed, Clock, Duration, RoundTenths, AckWatch, Watchdog;
    if e.Update? { WatchesKeepMove(s, e.moving, now); }
  }

  /** While a shot move is open, MOVEMENT frames change nothing and reach no one. */
  lemma MovementIgnoredDuringMove(s: State, run: seq<Call>, pan: int, inJoystick: bool, now: nat)
    requires Initial(s) && After(s, run).next != 0
    ensures Next(After(s, run), Movement(pan, inJoystick), now) == After(s, run)
    ensures Effects(After(s, run), Movement(pan, inJoystick), now) == []
  {
    EveryRunKeepsMove(s, run);
  }

  lemma BeforeOfPrefix(s: State, run: seq<Call>, k: nat, n: nat)
    requires s.Valid() && k <= n <= |run|
    ensures Before(s, run[..n], k) == Before(s, run, k)
  {
    assert run[..n][..k] == run[..k];
  }

  /** Which call opened the current move: the link between the counter-free state and the
      history that explains it. */
  lemma {:induction false} OpenMoveExplained(s: State, run: seq<Call>) returns (i: nat)
    requires Initial(s)
    ensures After(s, run).next != 0 ==>
      Opened(s, run, i, |run|) && run[i].event.shotNo == After(s, run).next && After(s, run).started == Clock(run[i].now)
    decreases |run|
  {
    hide Next, Elapsed, Clock, Duration, RoundTenths;
    i := 0;
    if run != [] {
      var n := |run| - 1;
      var before := run[..n];
      EveryRunKeepsMove(s, before);
      i := OpenMoveExplained(s, before);
      assert Before(s, run, n) == After(s, before);
      if Starts(s, run, n) {
        i := n;
      } else if After(s, run).next != 0 {
        NextKeepsOpen(After(s, before), run[n].event, run[n].now);
        assert !Ends(s, run, n);
        forall j | i < j < n ensures !Ends(s, run, j) {
          BeforeOfPrefix(s, run, j, n);
          assert !Ends(s, before, j);
        }
        BeforeOfPrefix(s, run, i, n);
      }
      NextStarts(After(s, before), run[n].event, run[n].now);
    }
  }

  lemma NextStarts(s: State, e: Event, now: nat)
    requires s.Valid()
    ensures e.MoveTo? && Accepted(s, e.shotNo, e.homed) ==>
      Next(s, e, now).next == e.shotNo && Next(s, e, now).started == Clock(now)
  {
    hide Clock, Duration, RoundTenths;
  }

  /** A move stays open through every call that neither starts, stops nor completes one. */
  lemma NextKeepsOpen(s: State, e: Event, now: nat)
    requires MoveInvariant(s) && !(e.MoveTo? && Accepted(s, e.shotNo, e.homed))
    ensures Next(s, e, now).next != 0 ==>
      && Next(s, e, now).next == s.next != 0 && Next(s, e, now).started == s.started
      && !e.Stop? && !Arrives(s, e, now)
  {
    hide Elapsed, Clock, Duration, RoundTenths, AckWatch, Watchdog;
    if e.Update? { WatchesKeepMove(s, e.moving, now); }
  }

  /**
   * Every arrival is the end of one accepted move to that shot, made at least 100 ms
   * earlier, with no STOP, no newer accepted move and no other arrival in between, also
   * across the wrap of the millisecond counter.
   */
  lemma ArrivalMatchesMove(s: State, run: seq<Call>, k: nat) returns (i: nat)
    requires Initial(s) && Ordered(run) && k < |run| && Arrival(s, run, k)
    ensures Opened(s, run, i, k)
    ensures run[i].event.shotNo == Before(s, run, k).next == After(s, run[..k + 1]).current
    ensures run[k].now >= run[i].now + 100
  {
    hide Next, Elapsed, Clock;
    var before := run[..k];
    EveryRunKeepsMove(s, before);
    i := OpenMoveExplained(s, before);
    forall j | i <= j < k ensures Ends(s, run, j) == Ends(s, before, j) && Starts(s, run, j) == Starts(s, before, j) {
      BeforeOfPrefix(s, run, j, k);
    }
    assert run[..k + 1][..k] == before;
    assert run[i].now <= run[k].now;
    ElapsedIsAtMostReal(run[i].now, run[k].now);
    ArrivalCurrent(After(s, before), run[k].event, run[k].now);
  }

  lemma ArrivalCurrent(s: State, e: Event, now: nat)
    requires s.Valid() && Arrives(s, e, now)
    ensures Next(s, e, now).current == s.next && Next(s, e, now).next == 0
  {
    hide Elapsed, Clock, AckWatch, Watchdog;
    WatchesKeepMove(s, e.moving, now);
  }

  /** The other direction: an open move does arrive at the first update that finds the motor
      on target and at rest, once the clock has moved on by the grace time. */
  lemma MoveArrives(s: State, run: seq<Call>, now: nat) returns (i: nat)
    requires Initial(s) && After(s, run).next != 0
    ensures Opened(s, run, i, |run|)
    ensures run[i].now + 100 <= now < run[i].now + TWO_32 ==>
      var t := Next(After(s, run), Update(false, true), now);
      t.next == 0 && t.onShot && !t.moving && t.current == run[i].event.shotNo
  {
    hide Elapsed, Clock, After, Next;
    EveryRunKeepsMove(s, run);
    i := OpenMoveExplained(s, run);
    if run[i].now <= now < run[i].now + TWO_32 { ElapsedIsReal(run[i].now, now); }
    if run[i].now + ARRIVAL_GRACE_MS <= now < run[i].now + TWO_32 { UpdateArrives(After(s, run), now); }
  }

  lemma UpdateArrives(s: State, now: nat)
    requires MoveInvariant(s) && s.next != 0 && Elapsed(now, s.started) >= ARRIVAL_GRACE_MS
    ensures var t := Next(s, Update(false, true), now);
      t.next == 0 && t.onShot && !t.moving && t.current == s.next
  {
    hide Elapsed, Clock, AckWatch, Watchdog;
    WatchesKeepMove(s, false, now);
  }
}
