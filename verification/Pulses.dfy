/**
 * The three-cycle pulses of the controlword (NEW_SETPOINT, HALT, FAULT_RESET) against the
 * frames: requests take the place of cyclic commands, but never two frames in a row.
 */
module Pulses {
  import opened Pipeline
  import opened Replies
  import opened System
  import opened Scaling
  import opened Time
  import opened Wire
  import MotorEnd
  import Q = SetupSequencer
  import Proxy = ProxyCache
  import Seq = Sequencers
  import Bridge

  datatype Pulse = NewSetpoint | Halt | FaultReset

  predicate Bit(w: Word, p: Pulse) {
    match p
    case NewSetpoint => w.newSetpoint
    case Halt => w.halt
    case FaultReset => w.faultReset
  }

  /** Cycles left of a pulse, the one latched by the next compose included. */
  function Left(s: Sys, p: Pulse): nat {
    match p
    case NewSetpoint =>
      if Rises(s.drive, Q.Busy(s.setup, s.Desired())) then PULSE_CYCLES else s.drive.newSetpoint
    case Halt => s.drive.halt
    case FaultReset => if s.drive.clearFault then PULSE_CYCLES else s.drive.faultReset
  }

  /** A fault suppresses all bits but FAULT_RESET, a quick stop ends every pulse. */
  predicate Uncancelled(s: Sys, p: Pulse) { !s.drive.quickStop && (p == FaultReset || !s.drive.faulted) }

  lemma ComposeSetsBit(s: Sys, p: Pulse)
    requires s.Valid() && Uncancelled(s, p) && Left(s, p) >= 1
    ensures Bit(Next(s, ComposeTick).word, p) && Left(Next(s, ComposeTick), p) >= Left(s, p) - 1
  {
    hide ComputeDesired, Q.Busy, Demand;
  }

  /** The cycles left without a new trigger. */
  function Counted(s: Sys, p: Pulse): nat {
    match p
    case NewSetpoint => s.drive.newSetpoint
    case Halt => s.drive.halt
    case FaultReset => if s.drive.clearFault then PULSE_CYCLES else s.drive.faultReset
  }

  lemma StepKeepsPulse(s: Sys, e: Step, p: Pulse)
    requires s.Valid() && ValidStep(e) && !e.ComposeTick?
    ensures Next(s, e).word == s.word
    ensures Counted(s, p) <= PULSE_CYCLES ==> Counted(s, p) <= Counted(Next(s, e), p) <= PULSE_CYCLES
  {
    if SparesDrive(e) {
      hide Next;
      DriveSpared(s, e);
    } else {
      hide MaxVelocity, Proxy.Set, Proxy.BootTick, Proxy.Settable, Seq.SaveTick, Seq.RequestSave;
    }
  }

  lemma ComposeCounts(s: Sys, p: Pulse)
    requires s.Valid() && Uncancelled(s, p) && 1 <= Left(s, p) && Counted(s, p) <= PULSE_CYCLES
    ensures Left(s, p) - 1 <= Counted(Next(s, ComposeTick), p) <= PULSE_CYCLES
  {
    hide ComputeDesired, Q.Busy, Demand;
  }

  lemma CountedIsLeft(s: Sys, p: Pulse)
    ensures Counted(s, p) <= PULSE_CYCLES ==> Counted(s, p) <= Left(s, p)
  {
  }

  lemma ComposeBounded(s: Sys, p: Pulse)
    requires s.Valid() && Counted(s, p) <= PULSE_CYCLES
    ensures Counted(Next(s, ComposeTick), p) <= PULSE_CYCLES
  {
    hide ComputeDesired, Q.Busy, Demand;
  }

  /** A pulse never lasts longer than its three cycles. */
  lemma {:induction false} EveryRunBounded(s: Sys, run: seq<Step>, p: Pulse)
    requires s.Valid() && Initial(s) && ValidRun(run)
    ensures Counted(After(s, run), p) <= 3 && Left(After(s, run), p) <= 3
    decreases |run|
  {
    hide Next, Q.Busy, ComputeDesired;
    if run != [] {
      var before, e := After(s, run[..|run| - 1]), run[|run| - 1];
      EveryRunBounded(s, run[..|run| - 1], p);
      if e.ComposeTick? { ComposeBounded(before, p); } else { StepKeepsPulse(before, e, p); }
    }
  }

  // ----- Any schedule -----

  /** The motor reads the pulse's bit in a command. */
  predicate HeardBit(h: MotorEnd.Heard, p: Pulse) {
    h.Command? &&
    match p
    case NewSetpoint => h.newSetpoint
    case Halt => h.halt
    case FaultReset => h.faultReset
  }

  /** The motor reads the pulse's bit in the next cyclic frame. */
  ghost predicate IsHeard(s: Sys, counter: nat, p: Pulse)
    requires counter < TWO_32
  {
    HeardBit(MotorEnd.Hear(CommandFrame(s.word, (s.frames + 1) % TWO_16, counter)), p)
  }

  /** The frame sent by this tick is a cyclic command, and the motor reads the pulse's bit in it,
      whatever the command counter. */
  ghost predicate Carries(s: Sys, t: TickEvent, p: Pulse) {
    t.transmits && s.pipe.slot.phase != Pending && forall counter: nat | counter < TWO_32 :: IsHeard(s, counter, p)
  }

  lemma HeardIsBit(s: Sys, counter: nat, p: Pulse)
    requires counter < TWO_32
    ensures IsHeard(s, counter, p) == Bit(s.word, p)
  {
    hide CommandFrame, MotorEnd.Hear;
    CommandFrameIsHeard(s.word, (s.frames + 1) % TWO_16, counter);
  }

  lemma CarriesBit(s: Sys, t: TickEvent, p: Pulse)
    ensures Carries(s, t, p) <==> t.transmits && s.pipe.slot.phase != Pending && Bit(s.word, p)
  {
    hide IsHeard;
    forall counter: nat | counter < TWO_32 ensures IsHeard(s, counter, p) == Bit(s.word, p) { HeardIsBit(s, counter, p); }
    HeardIsBit(s, 0, p);
  }

  /** Some frame of the run carries the pulse. */
  ghost predicate Carried(s: Sys, run: seq<Step>, p: Pulse)
    requires s.Valid() && ValidRun(run)
  {
    run != [] &&
    var before, e := After(s, run[..|run| - 1]), run[|run| - 1];
    Carried(s, run[..|run| - 1], p) || (e.LinkTick? && Carries(before, e.t, p))
  }

  /** Some frame of the run is sent while no request waits to be sent. */
  ghost predicate FreeFrame(s: Sys, run: seq<Step>)
    requires s.Valid() && ValidRun(run)
  {
    run != [] &&
    var before, e := After(s, run[..|run| - 1]), run[|run| - 1];
    FreeFrame(s, run[..|run| - 1]) || (IsFrame(e) && before.pipe.slot.phase != Pending)
  }

  predicate IsFrame(e: Step) { e.LinkTick? && e.t.transmits }

  function Frames(run: seq<Step>): nat {
    if run == [] then 0 else Frames(run[..|run| - 1]) + if IsFrame(run[|run| - 1]) then 1 else 0
  }

  function Composes(run: seq<Step>): nat {
    if run == [] then 0 else Composes(run[..|run| - 1]) + if run[|run| - 1].ComposeTick? then 1 else 0
  }

  /** No compose of the run meets a quick stop or, but for FAULT_RESET, a fault. */
  ghost predicate AllUncancelled(s: Sys, run: seq<Step>, p: Pulse)
    requires s.Valid() && ValidRun(run)
  {
    run == [] ||
    var before, e := After(s, run[..|run| - 1]), run[|run| - 1];
    AllUncancelled(s, run[..|run| - 1], p) && (e.ComposeTick? ==> Uncancelled(before, p))
  }

  /** A window of a pulse: it starts with a compose and has no more composes than the pulse
      has cycles left, none of them cancelled. */
  ghost predicate Window(s: Sys, run: seq<Step>, p: Pulse)
    requires s.Valid() && ValidRun(run)
  {
    && run != [] && run[0].ComposeTick? && Composes(run) <= Left(s, p) && Counted(s, p) <= PULSE_CYCLES
    && AllUncancelled(s, run, p)
  }

  lemma WindowShrinks(s: Sys, run: seq<Step>, p: Pulse)
    requires s.Valid() && ValidRun(run) && Window(s, run, p) && |run| > 1
    ensures Window(s, run[..|run| - 1], p)
  {
    hide Left, Counted, After;
  }

  lemma FirstStep(s: Sys, run: seq<Step>)
    requires s.Valid() && ValidRun(run) && |run| == 1
    ensures After(s, run) == Next(s, run[0]) && Composes(run) == (if run[0].ComposeTick? then 1 else 0)
    ensures run[..0] == []
  {
    hide Next;
  }

  /** Within its window the pulse's bit is up and its cycles are used one by one. */
  lemma {:induction false} BitIsUp(s: Sys, run: seq<Step>, p: Pulse)
    requires s.Valid() && ValidRun(run) && Window(s, run, p)
    ensures var t := After(s, run); Bit(t.word, p) && Left(s, p) - Composes(run) <= Counted(t, p) <= PULSE_CYCLES
    decreases |run|
  {
    hide Next, Left, Counted, Bit, Uncancelled;
    if |run| == 1 {
      FirstStep(s, run);
      ComposeSetsBit(s, p);
      ComposeCounts(s, p);
    } else {
      var prefix, e := run[..|run| - 1], run[|run| - 1];
      WindowShrinks(s, run, p);
      BitIsUp(s, prefix, p);
      var t := After(s, prefix);
      if e.ComposeTick? {
        CountedIsLeft(t, p);
        ComposeSetsBit(t, p);
        ComposeCounts(t, p);
      } else {
        StepKeepsPulse(t, e, p);
      }
    }
  }

  /** For every schedule of composes, frames and other calls: within its window the motor reads
      a pulse if and only if some frame is sent while no request waits for it. */
  lemma {:induction false} PulseIsCarried(s: Sys, run: seq<Step>, p: Pulse)
    requires s.Valid() && ValidRun(run) && Window(s, run, p)
    ensures Carried(s, run, p) <==> FreeFrame(s, run)
    decreases |run|
  {
    hide Next, Left, Counted, Bit, Uncancelled, Window, Carries;
    WindowStarts(s, run, p);
    if run[|run| - 1].LinkTick? { CarriesBit(After(s, run[..|run| - 1]), run[|run| - 1].t, p); }
    if |run| > 1 {
      var prefix := run[..|run| - 1];
      WindowShrinks(s, run, p);
      PulseIsCarried(s, prefix, p);
      BitIsUp(s, prefix, p);
    } else {
      FirstStep(s, run);
    }
  }

  lemma WindowStarts(s: Sys, run: seq<Step>, p: Pulse)
    requires s.Valid() && ValidRun(run) && Window(s, run, p)
    ensures run != [] && run[0].ComposeTick?
  {
  }

  /** A frame that finds a request waiting leaves the next one free. */
  lemma {:induction false} FramesAlternate(s: Sys, run: seq<Step>)
    requires s.Valid() && InStep(s) && ValidRun(run) && TimelyRun(s, run)
    ensures InStep(After(s, run))
    ensures Frames(run) == 0 ==> !FreeFrame(s, run)
    ensures Frames(run) >= 1 && !FreeFrame(s, run) ==> After(s, run).pipe.slot.phase == Awaiting && Frames(run) == 1
    decreases |run|
  {
    hide Next, InStep, Timely;
    if run != [] {
      var prefix, e := run[..|run| - 1], run[|run| - 1];
      FramesAlternate(s, prefix);
      var t := After(s, prefix);
      StepInStep(t, e);
      if IsFrame(e) {
        if t.pipe.slot.phase == Pending { SentStaysOpen(t, e.t); }
      } else if t.pipe.slot.phase == Awaiting {
        OpenSlotStays(t, e);
      }
    }
  }

  /** Two frames anywhere in the window are enough, whatever requests compete for them; no
      frame is not. */
  lemma TwoFramesCarry(s: Sys, run: seq<Step>, p: Pulse)
    requires s.Valid() && InStep(s) && ValidRun(run) && TimelyRun(s, run) && Window(s, run, p)
    ensures Frames(run) >= 2 ==> Carried(s, run, p)
    ensures Frames(run) == 0 ==> !Carried(s, run, p)
  {
    hide Window, Carried, FreeFrame, Frames, InStep, TimelyRun, After;
    PulseIsCarried(s, run, p);
    FramesAlternate(s, run);
  }

  // ----- The end of a pulse -----

  /** The request that starts the pulse. */
  predicate Asks(e: Step, p: Pulse) {
    match p
    case NewSetpoint => e.RequestStartMove?
    case Halt => e.RequestHalt?
    case FaultReset => e.RequestClearFault?
  }

  /** A request waits to be latched, beyond the cycles counted. */
  predicate Latched(s: Sys, p: Pulse) {
    match p
    case NewSetpoint => s.drive.startMove
    case Halt => false
    case FaultReset => s.drive.clearFault
  }

  /** The pulse starts with the next compose. */
  predicate Fresh(s: Sys, p: Pulse) {
    match p
    case NewSetpoint => Rises(s.drive, Q.Busy(s.setup, s.Desired()))
    case Halt => s.drive.halt == PULSE_CYCLES
    case FaultReset => s.drive.clearFault
  }

  ghost predicate NotAsked(run: seq<Step>, p: Pulse) { forall i :: 0 <= i < |run| ==> !Asks(run[i], p) }

  lemma StepUsesCycle(s: Sys, e: Step, p: Pulse)
    requires s.Valid() && ValidStep(e) && !Asks(e, p) && !Latched(s, p) && (e.ComposeTick? ==> Uncancelled(s, p))
    ensures var t := Next(s, e);
      !Latched(t, p) && Counted(t, p) == if e.ComposeTick? && Counted(s, p) > 0 then Counted(s, p) - 1 else Counted(s, p)
  {
    if SparesDrive(e) {
      hide Next;
      DriveSpared(s, e);
    } else if e.ComposeTick? {
      ComposeUsesCycle(s, p);
    } else {
      hide MaxVelocity, Proxy.Set, Proxy.BootTick, Proxy.Settable, Seq.SaveTick, Seq.RequestSave;
    }
  }

  lemma ComposeUsesCycle(s: Sys, p: Pulse)
    requires s.Valid() && !Latched(s, p) && Uncancelled(s, p)
    ensures var t := Next(s, ComposeTick);
      !Latched(t, p) && Counted(t, p) == if Counted(s, p) > 0 then Counted(s, p) - 1 else Counted(s, p)
  {
    hide ComputeDesired, Q.Busy, Demand;
  }

  lemma FreshCompose(s: Sys, p: Pulse)
    requires s.Valid() && Fresh(s, p) && Uncancelled(s, p)
    ensures var t := Next(s, ComposeTick); !Latched(t, p) && Counted(t, p) == PULSE_CYCLES - 1
  {
    hide ComputeDesired, Q.Busy, Demand;
  }

  /** A fresh pulse that is neither cancelled nor asked for again uses one cycle a compose. */
  lemma {:induction false} CyclesLeft(s: Sys, run: seq<Step>, p: Pulse)
    requires s.Valid() && ValidRun(run) && Fresh(s, p) && AllUncancelled(s, run, p) && NotAsked(run, p)
    requires run != [] && run[0].ComposeTick? && Composes(run) <= PULSE_CYCLES
    ensures var t := After(s, run); !Latched(t, p) && Counted(t, p) == PULSE_CYCLES - Composes(run)
    decreases |run|
  {
    hide Next, Fresh, Latched, Counted, Uncancelled, Asks;
    if |run| == 1 {
      FirstStep(s, run);
      FreshCompose(s, p);
    } else {
      var prefix, e := run[..|run| - 1], run[|run| - 1];
      CyclesLeft(s, prefix, p);
      StepUsesCycle(After(s, prefix), e, p);
    }
  }

  /** The mode HOLD holds the HALT bit by itself. */
  predicate Holds(s: Sys, p: Pulse) { p == Halt && s.drive.enable && s.drive.targets.mode == HOLD }

  lemma SpentCompose(s: Sys, p: Pulse)
    requires s.Valid() && Uncancelled(s, p) && !Latched(s, p) && Counted(s, p) == 0 && !Holds(s, p)
    ensures var t := Next(s, ComposeTick); !Bit(t.word, p) && !Latched(t, p) && Counted(t, p) == 0
  {
    hide ComputeDesired, Q.Busy, Demand;
  }

  /** The fourth compose after a pulse began takes its bit down, and with it the request: a
      pulse that no free frame has carried by then is lost. */
  lemma PulseEnds(s: Sys, run: seq<Step>, p: Pulse)
    requires s.Valid() && ValidRun(run) && Fresh(s, p) && Counted(s, p) <= PULSE_CYCLES && NotAsked(run, p)
    requires run != [] && run[0].ComposeTick? && Composes(run) == PULSE_CYCLES && AllUncancelled(s, run, p)
    requires Uncancelled(After(s, run), p) && !Holds(After(s, run), p)
    ensures Carried(s, run, p) <==> FreeFrame(s, run)
    ensures var t := Next(After(s, run), ComposeTick); !Bit(t.word, p) && !Latched(t, p) && Counted(t, p) == 0
  {
    hide Next, After, Latched, Counted, Uncancelled, Bit, Holds, AllUncancelled, Carried, FreeFrame, NotAsked;
    FreshIsThree(s, p);
    PulseIsCarried(s, run, p);
    CyclesLeft(s, run, p);
    SpentCompose(After(s, run), p);
  }

  lemma FreshIsThree(s: Sys, p: Pulse)
    requires Fresh(s, p)
    ensures Left(s, p) == 3
  {
  }

  /** A loop faster than the frames loses every pulse: after four composes without a frame the
      bit is gone again, and the request with it. */
  lemma FastLoopLosesPulse(s: Sys, p: Pulse)
    requires s.Valid() && Fresh(s, p) && Uncancelled(s, p) && !Holds(s, p)
    ensures var t := Next(Next(Next(Next(s, ComposeTick), ComposeTick), ComposeTick), ComposeTick);
      !Bit(t.word, p) && !Latched(t, p) && Counted(t, p) == 0 && t.frames == s.frames
  {
    hide Next, Latched, Counted, Uncancelled, Bit, Holds, Fresh;
    FreshCompose(s, p);
    var a := Next(s, ComposeTick);
    ComposeKeeps(s, p);
    StepUsesCycle(a, ComposeTick, p);
    var b := Next(a, ComposeTick);
    ComposeKeeps(a, p);
    StepUsesCycle(b, ComposeTick, p);
    var c := Next(b, ComposeTick);
    ComposeKeeps(b, p);
    SpentCompose(c, p);
    ComposeKeeps(c, p);
  }

  lemma ComposeKeeps(s: Sys, p: Pulse)
    requires s.Valid() && Uncancelled(s, p) && !Holds(s, p)
    ensures var t := Next(s, ComposeTick); Uncancelled(t, p) && !Holds(t, p) && t.frames == s.frames
  {
    hide ComputeDesired, Q.Busy, Demand;
  }
}
