/**
 * Progress of the setup sequencer inside the whole system: with a fixed target it needs as
 * many acknowledged writes as parameters differ, at most seven, and then the move fires.
 */
module Convergence {
  import opened Ownership
  import opened Pipeline
  import opened Replies
  import opened Scaling
  import opened System
  import opened Trigger
  import opened Time
  import Q = SetupSequencer

  /** The desired values are d before and after every step of the run. */
  ghost predicate FixedTarget(s: Sys, run: seq<Step>, d: Setup)
    requires s.Valid() && ValidRun(run)
  {
    After(s, run).Desired() == d && (run == [] || FixedTarget(s, run[..|run| - 1], d))
  }

  ghost predicate CollectsOk(s: Sys, e: Step)
    requires s.Valid()
  {
    Collects(s, e) && s.pipe.slot.result == OD_OK
  }

  /** The sequencer starts a write in this step. */
  ghost predicate Starts(s: Sys, e: Step)
    requires s.Valid() && ValidStep(e)
  {
    e.SetupTick? && (s.setup.step == Q.IDLE_STEP || Collects(s, e)) && Next(s, e).setup.step != Q.IDLE_STEP
  }

  ghost function OkCount(s: Sys, run: seq<Step>): nat
    requires s.Valid() && ValidRun(run)
  {
    if run == [] then 0
    else OkCount(s, run[..|run| - 1]) + if CollectsOk(After(s, run[..|run| - 1]), run[|run| - 1]) then 1 else 0
  }

  ghost function CollectCount(s: Sys, run: seq<Step>): nat
    requires s.Valid() && ValidRun(run)
  {
    if run == [] then 0
    else CollectCount(s, run[..|run| - 1]) + if Collects(After(s, run[..|run| - 1]), run[|run| - 1]) then 1 else 0
  }

  ghost function StartCount(s: Sys, run: seq<Step>): nat
    requires s.Valid() && ValidRun(run)
  {
    if run == [] then 0
    else StartCount(s, run[..|run| - 1]) + if Starts(After(s, run[..|run| - 1]), run[|run| - 1]) then 1 else 0
  }

  function InFlight(s: Sys): nat { if s.setup.step == Q.IDLE_STEP then 0 else 1 }

  lemma StepConverges(s: Sys, e: Step)
    requires s.Valid() && ValidStep(e) && Q.WritesDifference(s.setup, s.Desired()) && Next(s, e).Desired() == s.Desired()
    ensures var t, d := Next(s, e), s.Desired();
      && Q.WritesDifference(t.setup, d)
      && Q.Diffs(d, t.setup.applied) + (if CollectsOk(s, e) then 1 else 0) == Q.Diffs(d, s.setup.applied)
  {
    hide ComputeDesired, Q.Diffs, Q.Tick;
    if e.SetupTick? { Q.TickConverges(s.pipe, s.setup, s.Desired()); } else { OtherParts(s, e); }
  }

  lemma StepCounts(s: Sys, e: Step)
    requires s.Valid() && ValidStep(e)
    ensures var t := Next(s, e);
      InFlight(t) + (if Collects(s, e) then 1 else 0) == InFlight(s) + if Starts(s, e) then 1 else 0
  {
    if e.SetupTick? {
      hide ComputeDesired, Q.FirstDiff, Q.WriteOf;
    } else {
      hide Next;
      OtherParts(s, e);
    }
  }

  /** Whatever else happens, and however often writes fail: with a fixed target each OK
      answer removes exactly one difference; so there are at most seven, and if every answer
      is OK there are at most seven writes. */
  lemma {:induction false} FixedTargetConverges(s: Sys, run: seq<Step>, d: Setup)
    requires s.Valid() && ValidRun(run) && FixedTarget(s, run, d) && Q.WritesDifference(s.setup, s.Desired())
    ensures var t := After(s, run);
      && s.Desired() == d && Q.WritesDifference(t.setup, d)
      && Q.Diffs(d, t.setup.applied) + OkCount(s, run) == Q.Diffs(d, s.setup.applied) <= 7
      && InFlight(t) + CollectCount(s, run) == InFlight(s) + StartCount(s, run)
      && (CollectCount(s, run) == OkCount(s, run) ==> StartCount(s, run) <= Q.Diffs(d, s.setup.applied))
    decreases |run|
  {
    hide Next, Q.Diffs, Collects, CollectsOk, Starts, ComputeDesired;
    if run != [] {
      var prefix := run[..|run| - 1];
      FixedTargetConverges(s, prefix, d);
      StepConverges(After(s, prefix), run[|run| - 1]);
      StepCounts(After(s, prefix), run[|run| - 1]);
    }
    FlightIsDifference(After(s, run), d);
  }

  lemma FlightIsDifference(s: Sys, d: Setup)
    requires s.Valid() && Q.WritesDifference(s.setup, d)
    ensures InFlight(s) <= Q.Diffs(d, s.setup.applied)
  {
    hide Q.DiffsFrom;
    Q.NoDiffs(d, s.setup.applied, 1);
  }

  /** Once no difference is left a wanted move fires in the next compose, and only then. */
  lemma FiresWhenApplied(s: Sys)
    requires s.Valid() && Q.WritesDifference(s.setup, s.Desired()) && MoveWanted(s)
    ensures Fires(s) <==> Q.Diffs(s.Desired(), s.setup.applied) == 0
    ensures Fires(s) ==> Next(s, ComposeTick).word.newSetpoint && !Next(s, ComposeTick).drive.startMove
    ensures !Fires(s) ==> Next(s, ComposeTick).drive.startMove
  {
    hide Q.DiffsFrom, ComputeDesired, Demand;
    Q.NoDiffs(s.Desired(), s.setup.applied, 1);
  }

  // ----- A schedule that reaches it -----

  /** A write in flight: the request's frame, its OK answer in the next one, one tick. */
  function Round(s: Sys, sent: TickEvent, answered: TickEvent): (t: Sys)
    requires s.Valid() && ValidStep(LinkTick(sent)) && ValidStep(LinkTick(answered))
    ensures t.Valid()
  {
    Next(Next(Next(s, LinkTick(sent)), LinkTick(answered)), SetupTick)
  }

  /** The two frames of a round, as the motor produces them when nothing goes wrong. */
  ghost predicate GoodRound(s: Sys, sent: TickEvent, answered: TickEvent) {
    && sent.transmits && answered.transmits && sent.answer == NoAnswer
    && sent.sendTime <= sent.endTime <= answered.endTime <= sent.sendTime + OD_RESPONSE_TIMEOUT_MS
    && answered.answer == Answer((s.frames + 1) % TWO_16, OD_OK, [])
  }

  /** The sequencer's write waits in the slot to be sent. */
  ghost predicate WriteWaits(s: Sys)
    requires s.Valid()
  {
    s.setup.step != Q.IDLE_STEP && s.pipe.slot.phase == Pending && s.setup.handle == s.pipe.slot.handle
  }

  lemma RoundConverges(s: Sys, sent: TickEvent, answered: TickEvent)
    requires s.Valid() && WriteWaits(s) && GoodRound(s, sent, answered) && Q.WritesDifference(s.setup, s.Desired())
    ensures var t := Round(s, sent, answered);
      && t.Desired() == s.Desired() && Q.WritesDifference(t.setup, s.Desired())
      && Q.Diffs(s.Desired(), t.setup.applied) + 1 == Q.Diffs(s.Desired(), s.setup.applied)
      && (Q.Diffs(s.Desired(), t.setup.applied) > 0 ==> WriteWaits(t))
  {
    hide ComputeDesired, Q.Diffs, Q.WriteOf, Q.FirstDiff, TimeAfter, Clock;
    var a := Next(s, LinkTick(sent));
    TimeAfterIsLater(sent.endTime, sent.sendTime + OD_RESPONSE_TIMEOUT_MS);
    var b := Next(a, LinkTick(answered));
    assert Q.Acked(b.pipe, b.setup);
    Q.TickConverges(b.pipe, b.setup, b.Desired());
    assert Q.Drain(b.pipe, b.setup, b.Desired()).0.slot.phase == Idle;
  }

  /** As many good rounds as there are differences end them, and then the move fires. */
  lemma {:induction false} RoundsReachTrigger(s: Sys, rounds: seq<(TickEvent, TickEvent)>, states: seq<Sys>)
    requires |states| == |rounds| + 1 && states[0] == s && forall i :: 0 <= i < |states| ==> states[i].Valid()
    requires WriteWaits(s) && Q.WritesDifference(s.setup, s.Desired()) && |rounds| == Q.Diffs(s.Desired(), s.setup.applied)
    requires forall i :: 0 <= i < |rounds| ==>
      && ValidStep(LinkTick(rounds[i].0)) && ValidStep(LinkTick(rounds[i].1))
      && GoodRound(states[i], rounds[i].0, rounds[i].1) && states[i + 1] == Round(states[i], rounds[i].0, rounds[i].1)
    ensures var t := states[|rounds|]; t.Desired() == s.Desired() && (MoveWanted(t) ==> Fires(t))
  {
    hide ComputeDesired, Q.Diffs, Round, GoodRound, WriteWaits, Q.WritesDifference, MoveWanted, Fires;
    var i := 0;
    while i < |rounds|
      invariant 0 <= i <= |rounds| && states[i].Desired() == s.Desired() && Q.WritesDifference(states[i].setup, s.Desired())
      invariant Q.Diffs(s.Desired(), states[i].setup.applied) == |rounds| - i && (i < |rounds| ==> WriteWaits(states[i]))
    {
      RoundConverges(states[i], rounds[i].0, rounds[i].1);
      i := i + 1;
    }
    if MoveWanted(states[i]) { FiresWhenApplied(states[i]); }
  }
}
