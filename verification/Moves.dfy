/**
 * A requested move against its trigger: the latch of axis_manager_request_start_move outlives
 * every stop, and an arrival that app/cmc_state reports is the end of a move that was sent to
 * the motor exactly if the latch is down.
 */
module Moves {
  import opened Scaling
  import opened System
  import opened Time
  import Q = SetupSequencer
  import Proxy = ProxyCache
  import Seq = Sequencers
  import Shots
  import Trigger

  // ----- The latch -----

  /** NEW_SETPOINT rises in this step. */
  ghost predicate Raises(s: Sys, e: Step) { e.ComposeTick? && Trigger.Fires(s) }

  lemma ComposeLatch(s: Sys)
    requires s.Valid()
    ensures var t := Next(s, ComposeTick);
      && (t.drive.startMove <==> s.drive.startMove && !Trigger.Fires(s))
      && (Trigger.Fires(s) ==> t.word.newSetpoint && t.drive.newSetpoint == PULSE_CYCLES - 1)
  {
    hide ComputeDesired, Q.Busy, Demand;
  }

  lemma StepLatch(s: Sys, e: Step)
    requires s.Valid() && ValidStep(e)
    ensures Next(s, e).drive.startMove <==> e.RequestStartMove? || (s.drive.startMove && !Raises(s, e))
  {
    if SparesDrive(e) {
      hide Next;
      DriveSpared(s, e);
    } else if e.ComposeTick? {
      hide Next;
      ComposeLatch(s);
    } else {
      hide MaxVelocity, Proxy.Set, Proxy.BootTick, Proxy.Settable, Seq.SaveTick, Seq.RequestSave, Trigger.Fires;
    }
  }

  /** NEW_SETPOINT rises somewhere in the run. */
  ghost predicate Raised(s: Sys, run: seq<Step>)
    requires s.Valid() && ValidRun(run)
  {
    run != [] && (Raised(s, run[..|run| - 1]) || Raises(After(s, run[..|run| - 1]), run[|run| - 1]))
  }

  /** A move is requested somewhere in the run. */
  predicate Asks(run: seq<Step>) { RequestStartMove in run }

  /** Nothing but the trigger itself takes a requested move back. */
  lemma {:induction false} LatchKept(s: Sys, run: seq<Step>)
    requires s.Valid() && ValidRun(run) && !Asks(run)
    ensures After(s, run).drive.startMove <==> s.drive.startMove && !Raised(s, run)
    decreases |run|
  {
    hide Next, Raises;
    if run != [] {
      LatchKept(s, run[..|run| - 1]);
      StepLatch(After(s, run[..|run| - 1]), run[|run| - 1]);
    }
  }

  /** The drive is neither stopped nor faulted, and the setup is applied. */
  ghost predicate Ready(s: Sys) { !s.drive.quickStop && !s.drive.faulted && !Q.Busy(s.setup, s.Desired()) }

  lemma QuickStopped(s: Sys)
    requires s.Valid() && s.drive.quickStop
    ensures var t := Next(s, ComposeTick);
      && t.drive.startMove == s.drive.startMove && !t.drive.enable && !t.drive.quickStop && !t.word.newSetpoint
      && t.drive.newSetpoint == 0 && t.drive.halt == 0 && t.drive.faultReset == 0
  {
    hide ComputeDesired, Q.Busy, Demand;
  }

  /**
   * A quick stop ends every pulse but not a requested move. With no new request after it,
   * NEW_SETPOINT rises again if and only if a move was pending when the drive was stopped, at
   * the first compose that finds the drive neither stopped nor faulted and the setup applied.
   */
  lemma TriggerAfterStop(s: Sys, run: seq<Step>)
    requires s.Valid() && s.drive.quickStop && ValidRun(run) && !Asks(run)
    ensures var t := Next(s, ComposeTick);
      var m := After(t, run);
      && !t.drive.enable && !t.word.newSetpoint && t.drive.newSetpoint == 0
      && (Raised(t, run) ==> s.drive.startMove)
      && (Trigger.Fires(m) <==> s.drive.startMove && !Raised(t, run) && Ready(m))
  {
    hide Next, Raised, After, Q.Busy, ComputeDesired;
    QuickStopped(s);
    LatchKept(Next(s, ComposeTick), run);
    RaisedWasPending(Next(s, ComposeTick), run);
  }

  lemma {:induction false} RaisedWasPending(s: Sys, run: seq<Step>)
    requires s.Valid() && ValidRun(run) && !Asks(run)
    ensures Raised(s, run) ==> s.drive.startMove
    decreases |run|
  {
    hide Next, Q.Busy, ComputeDesired;
    if run != [] {
      RaisedWasPending(s, run[..|run| - 1]);
      LatchKept(s, run[..|run| - 1]);
    }
  }

  // ----- Shots and the axis together -----

  /** cmc_state above the motor side. */
  datatype Joint = Joint(sys: Sys, shots: Shots.State) {
    ghost predicate Valid() { sys.Valid() && shots.Valid() }
  }

  /** A call of the motor side, or one into cmc_state with the float encodings of the position
      and the time it passes on, and the stick value its raw value calibrates to. */
  datatype Turn = Axis(step: Step) | Panel(event: Shots.Event, now: nat, position: f32, time: f32, stick: Number)

  /** The calls cmc_state makes, as steps. */
  function OrderOf(d: Drive, effect: Shots.Effect, position: f32, time: f32, stick: Number): seq<Step> {
    match effect
    case GoTo(_, _) =>
      [SetTargets(d.targets.(mode := PROFILE_POSITION, position := position, time := time)), RequestStartMove]
    case Halt => [RequestHalt]
    case EnterJoystick => [SetTargets(d.targets.(mode := JOYSTICK))]
    case StickRaw(_) => [SetStick(stick)]
    case SaveShots => []
  }

  function Orders(d: Drive, effects: seq<Shots.Effect>, position: f32, time: f32, stick: Number): (run: seq<Step>)
    ensures ValidRun(run)
  {
    if effects == [] then []
    else
      var n := |effects| - 1;
      Orders(d, effects[..n], position, time, stick) + OrderOf(d, effects[n], position, time, stick)
  }

  /** v is x as a float, up to a relative error of 2^-22 from the arithmetic before. */
  predicate Rounded(v: f32, x: real) {
    Decode(v).Fin? && -Magnitude(x) <= (Decode(v).x - x) * 4194304.0 <= Magnitude(x)
  }

  function Magnitude(x: real): real { if x < 0.0 then -x else x }

  /** What a call reads of the motor side is what is there, and what it passes on is the
      position and the time it stored or looked up. */
  ghost predicate ValidTurn(j: Joint, t: Turn)
    requires j.Valid()
  {
    match t
    case Axis(step) => ValidStep(step)
    case Panel(e, now, position, time, _) =>
      && (e.StoreShot? || e.StoreNext? ==> Decode(position) == Fin(e.position))
      && (forall f :: f in Shots.Effects(j.shots, e, now) && f.GoTo? ==> Decode(position) == Fin(f.position) && Rounded(time, f.time))
      && (e.MoveTo? ==> e.homed == (j.sys.home.isHomedKnown && j.sys.home.isHomed))
      && (e.Movement? ==> e.inJoystick == (j.sys.drive.targets.mode == JOYSTICK))
  }

  ghost function Turned(j: Joint, t: Turn): (k: Joint)
    requires j.Valid() && ValidTurn(j, t)
    ensures k.Valid()
  {
    match t
    case Axis(step) => j.(sys := Next(j.sys, step))
    case Panel(e, now, position, time, stick) =>
      Joint(After(j.sys, Orders(j.sys.drive, Shots.Effects(j.shots, e, now), position, time, stick)), Shots.Next(j.shots, e, now))
  }

  /** Every turn of the run is possible where it is made. */
  ghost predicate Possible(j: Joint, run: seq<Turn>)
    requires j.Valid()
    decreases |run|, 0
  {
    run == [] || (Possible(j, run[..|run| - 1]) && ValidTurn(Reached(j, run[..|run| - 1]), run[|run| - 1]))
  }

  ghost function Reached(j: Joint, run: seq<Turn>): (k: Joint)
    requires j.Valid() && Possible(j, run)
    ensures k.Valid()
    decreases |run|, 1
  {
    if run == [] then j else Turned(Reached(j, run[..|run| - 1]), run[|run| - 1])
  }

  /** The turn starts a shot move. */
  predicate Accepts(j: Joint, t: Turn)
    requires j.Valid()
  {
    t.Panel? && t.event.MoveTo? && Shots.Accepted(j.shots, t.event.shotNo, t.event.homed)
  }

  /** The run accepts a shot move; NEW_SETPOINT has risen since the last one; somebody else has
      requested a move since. */
  ghost predicate Moved(j: Joint, run: seq<Turn>)
    requires j.Valid() && Possible(j, run)
  {
    run != [] && (Accepts(Reached(j, run[..|run| - 1]), run[|run| - 1]) || Moved(j, run[..|run| - 1]))
  }

  ghost predicate Sent(j: Joint, run: seq<Turn>)
    requires j.Valid() && Possible(j, run)
  {
    run != [] &&
    var k, t := Reached(j, run[..|run| - 1]), run[|run| - 1];
    !Accepts(k, t) && ((t.Axis? && Raises(k.sys, t.step)) || Sent(j, run[..|run| - 1]))
  }

  ghost predicate Foreign(j: Joint, run: seq<Turn>)
    requires j.Valid() && Possible(j, run)
  {
    run != [] &&
    var k, t := Reached(j, run[..|run| - 1]), run[|run| - 1];
    !Accepts(k, t) && ((t.Axis? && t.step.RequestStartMove?) || Foreign(j, run[..|run| - 1]))
  }

  // ----- Single turns -----

  predicate Orderly(run: seq<Step>) {
    forall i :: 0 <= i < |run| ==> run[i].SetTargets? || run[i].RequestStartMove? || run[i].RequestHalt? || run[i].SetStick?
  }

  lemma FewOrders(d: Drive, f: Shots.Effect, g: Shots.Effect, position: f32, time: f32, stick: Number)
    ensures Orders(d, [f], position, time, stick) == OrderOf(d, f, position, time, stick)
    ensures Orders(d, [f, g], position, time, stick)
         == OrderOf(d, f, position, time, stick) + OrderOf(d, g, position, time, stick)
  {
    hide OrderOf;
    assert [f, g][..1] == [f] && [f][..0] == [];
    assert Orders(d, [f], position, time, stick) == [] + OrderOf(d, f, position, time, stick);
  }

  lemma OrderIsOrderly(d: Drive, f: Shots.Effect, position: f32, time: f32, stick: Number)
    ensures var run := OrderOf(d, f, position, time, stick); Orderly(run) && (Asks(run) <==> f.GoTo?)
  {
  }

  /** cmc_state requests a move exactly when it accepts one. */
  lemma OrdersAsk(j: Joint, t: Turn)
    requires j.Valid() && t.Panel?
    ensures var run := Orders(j.sys.drive, Shots.Effects(j.shots, t.event, t.now), t.position, t.time, t.stick);
      Orderly(run) && (Asks(run) <==> Accepts(j, t))
  {
    hide Orders, OrderOf, Shots.Effects;
    var d, f := j.sys.drive, Shots.Effects(j.shots, t.event, t.now);
    EffectsMove(j.shots, t.event, t.now);
    if f == [] {
      assert Orders(d, f, t.position, t.time, t.stick) == [] by { NoOrders(d, t.position, t.time, t.stick); }
    } else {
      FewOrders(d, f[0], f[|f| - 1], t.position, t.time, t.stick);
      OrderIsOrderly(d, f[0], t.position, t.time, t.stick);
      OrderIsOrderly(d, f[|f| - 1], t.position, t.time, t.stick);
      assert f == if |f| == 1 then [f[0]] else [f[0], f[1]];
    }
  }

  lemma NoOrders(d: Drive, position: f32, time: f32, stick: Number)
    ensures Orders(d, [], position, time, stick) == []
  {
  }

  lemma EffectsMove(s: Shots.State, e: Shots.Event, now: nat)
    requires s.Valid()
    ensures var f := Shots.Effects(s, e, now);
      && |f| <= 2 && (|f| == 2 ==> !f[0].GoTo? && !f[1].GoTo?)
      && (|f| == 1 ==> (f[0].GoTo? <==> e.MoveTo?)) && (e.MoveTo? ==> (|f| == 1 <==> Shots.Accepted(s, e.shotNo, e.homed)) && |f| < 2)
  {
    hide Elapsed, Shots.Duration;
  }

  /** Orders leave the latch up if they ask for a move, and as it was if not. */
  lemma {:induction false} OrdersLatch(s: Sys, run: seq<Step>)
    requires s.Valid() && ValidRun(run) && Orderly(run)
    ensures After(s, run).drive.startMove <==> s.drive.startMove || Asks(run)
    decreases |run|
  {
    hide Next;
    if run != [] {
      var before, e := run[..|run| - 1], run[|run| - 1];
      assert run == before + [e];
      OrdersLatch(s, before);
      StepLatch(After(s, before), e);
    }
  }

  lemma TurnLatch(j: Joint, t: Turn)
    requires j.Valid() && ValidTurn(j, t)
    ensures Turned(j, t).sys.drive.startMove <==>
      Accepts(j, t) || (t.Axis? && t.step.RequestStartMove?) || (j.sys.drive.startMove && !(t.Axis? && Raises(j.sys, t.step)))
  {
    hide Next, After, Shots.Next, Shots.Effects, Orders, Raises;
    if t.Axis? {
      StepLatch(j.sys, t.step);
    } else {
      OrdersAsk(j, t);
      OrdersLatch(j.sys, Orders(j.sys.drive, Shots.Effects(j.shots, t.event, t.now), t.position, t.time, t.stick));
    }
  }

  /** Only an accepted move opens one. */
  lemma TurnOpens(j: Joint, t: Turn)
    requires j.Valid() && ValidTurn(j, t) && Shots.MoveInvariant(j.shots)
    ensures Shots.MoveInvariant(Turned(j, t).shots)
    ensures Turned(j, t).shots.next != 0 ==> Accepts(j, t) || j.shots.next != 0
  {
    hide Next, After, Shots.Effects, Orders, Shots.Next;
    if t.Panel? {
      Shots.NextKeepsMove(j.shots, t.event, t.now);
      if !Accepts(j, t) { Shots.NextKeepsOpen(j.shots, t.event, t.now); }
    }
  }

  // ----- Main results -----

  /** In every run of cmc_state above the whole motor side: if the latch is down, NEW_SETPOINT
      has risen since the last accepted move; and unless somebody else asked for a move, the
      latch is up exactly as long as it has not. */
  lemma {:induction false} EveryRunSent(j: Joint, run: seq<Turn>)
    requires j.Valid() && Shots.Initial(j.shots) && Possible(j, run)
    ensures var k := Reached(j, run);
      && Shots.MoveInvariant(k.shots) && (k.shots.next != 0 ==> Moved(j, run))
      && (Moved(j, run) ==> (!k.sys.drive.startMove ==> Sent(j, run)) && (!Foreign(j, run) ==> (Sent(j, run) <==> !k.sys.drive.startMove)))
    decreases |run|
  {
    hide Turned, Raises;
    if run != [] {
      var before, t := run[..|run| - 1], run[|run| - 1];
      EveryRunSent(j, before);
      TurnLatch(Reached(j, before), t);
      TurnOpens(Reached(j, before), t);
    }
  }

  /**
   * The exact condition for an arrival to be one: a move that is reported as arrived was sent
   * to the motor if and only if the latch of the requested move is down, provided nobody else
   * has requested a move meanwhile; if it is down it was sent in any case.
   */
  lemma ArrivalWasSent(j: Joint, run: seq<Turn>, e: Shots.Event, now: nat)
    requires j.Valid() && Shots.Initial(j.shots) && Possible(j, run) && Shots.Arrives(Reached(j, run).shots, e, now)
    ensures var k := Reached(j, run);
      && Moved(j, run)
      && (!k.sys.drive.startMove ==> Sent(j, run))
      && (!Foreign(j, run) ==> (Sent(j, run) <==> !k.sys.drive.startMove))
  {
    hide Elapsed, Reached, Moved, Sent, Foreign;
    EveryRunSent(j, run);
  }

  /** Motor-side calls between two calls into cmc_state. */
  function AxisTurns(between: seq<Step>): (run: seq<Turn>)
    ensures |run| == |between|
  {
    seq(|between|, i requires 0 <= i < |between| => Axis(between[i]))
  }

  /** A move is accepted and then only the motor side is called. */
  function MoveThen(move: Turn, between: seq<Step>): seq<Turn> { [move] + AxisTurns(between) }

  lemma {:induction false} UnsentRun(j: Joint, move: Turn, between: seq<Step>)
    requires j.Valid() && ValidTurn(j, move) && Accepts(j, move)
    requires ValidRun(between) && !Asks(between) && !Raised(Turned(j, move).sys, between)
    ensures var run := MoveThen(move, between);
      && Possible(j, run) && !Sent(j, run)
      && Reached(j, run) == Turned(j, move).(sys := After(Turned(j, move).sys, between))
    decreases |between|
  {
    hide Next, Turned, Raises;
    var run := MoveThen(move, between);
    if between == [] {
      assert run == [move] && [move][..0] == [];
    } else {
      var n := |between| - 1;
      UnsentRun(j, move, between[..n]);
      assert run[..n + 1] == MoveThen(move, between[..n]);
      AxisTurn(Reached(j, run[..n + 1]), between[n]);
    }
  }

  lemma AxisTurn(j: Joint, e: Step)
    requires j.Valid() && ValidStep(e)
    ensures Turned(j, Axis(e)) == j.(sys := Next(j.sys, e)) && !Accepts(j, Axis(e))
  {
    hide Next;
  }

  /** The failing family: a move is accepted, and until the grace time is over every compose
      finds the setup unapplied, the drive faulted or stopped. An update that still sees the
      motor at rest on its old target reports arrival; the move was never sent, and its trigger
      is still pending. */
  lemma UnsentMoveArrives(j: Joint, move: Turn, between: seq<Step>, later: nat)
    requires j.Valid() && Shots.MoveInvariant(j.shots) && ValidTurn(j, move) && Accepts(j, move)
    requires ValidRun(between) && !Asks(between) && !Raised(Turned(j, move).sys, between)
    requires move.now + Shots.ARRIVAL_GRACE_MS <= later < move.now + TWO_32
    ensures var run := MoveThen(move, between);
      && Possible(j, run) && !Sent(j, run) && Reached(j, run).sys.drive.startMove
      && Shots.Arrives(Reached(j, run).shots, Shots.Update(false, true), later)
  {
    hide Turned, Next, After, Raised, Elapsed, Clock, Reached, Possible, Sent;
    var m := Turned(j, move);
    TurnLatch(j, move);
    LatchKept(m.sys, between);
    UnsentRun(j, move, between);
    AcceptedOpens(j, move);
    ElapsedIsReal(move.now, later);
  }

  lemma AcceptedOpens(j: Joint, move: Turn)
    requires j.Valid() && Shots.MoveInvariant(j.shots) && ValidTurn(j, move) && Accepts(j, move)
    ensures var t := Turned(j, move).shots; Shots.ShotOpen(t) && t.started == Clock(move.now)
  {
    hide Next, After, Shots.Effects, Orders, Shots.Next, Clock;
    Shots.NextKeepsMove(j.shots, move.event, move.now);
    Shots.NextStarts(j.shots, move.event, move.now);
  }

  /** The panel's STOP closes the move but does not take the request back: with no new one,
      the stopped move is sent at the first compose that finds the setup applied. */
  lemma StoppedMoveIsSent(j: Joint, stop: Turn, run: seq<Step>)
    requires j.Valid() && stop.Panel? && stop.event.Stop? && ValidRun(run) && !Asks(run)
    ensures var k := Turned(j, stop);
      var m := After(k.sys, run);
      && k.shots.next == 0 && k.sys.drive.startMove == j.sys.drive.startMove
      && (Trigger.Fires(m) <==> j.sys.drive.startMove && !Raised(k.sys, run) && Ready(m))
  {
    hide Next, After, Raised, Q.Busy, ComputeDesired, Orders, Raises;
    TurnLatch(j, stop);
    LatchKept(Turned(j, stop).sys, run);
  }
}
