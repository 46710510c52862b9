/**
 * Homing and the motor save over whole runs: what the motor's answers make of them, which
 * fault word "homed" reports, and that a save keeps the drive off and then gives it back.
 */
module Homing {
  import opened Bytes
  import opened MotorEnd
  import opened Ownership
  import opened Pipeline
  import opened Scaling
  import opened System
  import opened Time
  import Bridge
  import Proxy = ProxyCache
  import Seq = Sequencers
  import Sequencer = SetupSequencer

  // ----- Homing -----

  /** The step collects the answer that homing waits for: the completed slot is freed by it. */
  ghost predicate Collects(s: Sys, e: Step)
    requires s.Valid() && ValidStep(e)
  {
    e.HomeTick? && s.pipe.slot.phase == Complete && Next(s, e).pipe.slot.phase == Idle
  }

  /** The home command, a read of the status, a read of the fault flags. */
  predicate IsHomeWrite(r: Request) { !r.isRead && (r.index, r.sub, r.typ, r.data) == (0x2700, 8, U8, [1]) }
  predicate IsHomeRead(r: Request) { r.isRead && (r.index, r.sub, r.typ) == (0x2700, 9, U8) }
  predicate IsFaultRead(r: Request) { r.isRead && (r.index, r.sub, r.typ) == (0x2600, 1, U32) }

  /** The fault word of an answer: NOT_HOMED is its bit 0x0002. */
  predicate Homed(data: seq<byte>)
    requires |data| >= 4
  {
    !Has(Rd32(data[..4]), 0x0002)
  }

  lemma FaultBit(data: seq<byte>)
    requires |data| >= 4
    ensures Homed(data) <==> Join32(data[..4]) & Seq.FAULT_NOT_HOMED == 0
  {
    hide Join32, Rd32;
    LowDigit(data[..4]);
    LowBit(data[..4][0]);
    JoinLow(data[..4]);
  }

  lemma LowDigit(w: seq<byte>)
    requires |w| == 4
    ensures Rd32(w) / 2 % 2 == Value(w[0]) / 2 % 2
  {
    hide Value;
    LowSum(Value(w[0]), Value(w[1]), Rd16(w[2..]));
  }

  lemma LowSum(a: nat, b: nat, c: nat)
    ensures (a + 256 * b + 0x1_0000 * c) / 2 % 2 == a / 2 % 2
  {
    var q, r, m := a / 2, a % 2, 64 * b + 0x4000 * c;
    assert a + 256 * b + 0x1_0000 * c == 2 * (q + 2 * m) + r;
    HalfOf(q + 2 * m, r);
    ParityOf(q, m);
  }

  lemma HalfOf(q: nat, r: nat)
    requires r < 2
    ensures (2 * q + r) / 2 == q
  {
  }

  lemma ParityOf(q: nat, m: nat)
    ensures (q + 2 * m) % 2 == q % 2
  {
  }

  lemma LowBit(b: byte)
    ensures Value(b) / 2 % 2 == 1 <==> b & 2 != 0
  {
    assert b & 2 != 0 <==> (b >> 1) & 1 == 1;
  }

  lemma JoinLow(w: seq<byte>)
    requires |w| == 4
    ensures Join32(w) & 2 == 0 <==> w[0] & 2 == 0
  {
    JoinedLow(w[0], w[1], w[2], w[3]);
  }

  lemma JoinedLow(a: byte, b: byte, c: byte, d: byte)
    ensures ((a as bv32) | ((b as bv32) << 8) | ((c as bv32) << 16) | ((d as bv32) << 24)) & 2 == 0 <==> a & 2 == 0
  {
  }

  /**
   * What the motor's answers make of a homing that waits for its own request. A refused command
   * fails it and an accepted one starts the polling; a status is reported as it is, and done or
   * failed asks for the fault flags; these decide "homed", and the status how homing ends.
   */
  lemma AnswersMove(s: Sys, e: Step)
    requires s.Valid() && ValidStep(e) && HomeExact(s.pipe, s.home) && BootReadFirst(s.home) && !Derails(s, e) && Collects(s, e)
    ensures var h, k, slot := s.home, Next(s, e).home, s.pipe.slot;
      var ok := slot.result == 0;
      && (IsHomeWrite(slot.req) || IsHomeRead(slot.req) || IsFaultRead(slot.req)) && k.handle == NO_HANDLE
      && (IsHomeWrite(slot.req) ==>
        && k.state == (if ok then Seq.PollingStatus else Seq.TerminalFailed) && k.motorStatus == (if ok then h.motorStatus else 3)
        && k.isHomed == h.isHomed && k.isHomedKnown == h.isHomedKnown)
      && (IsHomeRead(slot.req) ==>
        && k.motorStatus == (if ok && slot.resp != [] then Value(slot.resp[0]) else h.motorStatus)
        && k.state == (if ok && slot.resp != [] && Value(slot.resp[0]) in {2, 3} then Seq.ReadingFault else Seq.PollingStatus)
        && k.isHomed == h.isHomed && k.isHomedKnown == h.isHomedKnown)
      && (IsFaultRead(slot.req) ==>
        && k.motorStatus == h.motorStatus
        && (if ok && |slot.resp| >= 4 then
              && k.isHomedKnown && k.isHomed == Homed(slot.resp)
              && k.state == if h.motorStatus == 2 then Seq.TerminalDone else if h.motorStatus == 3 then Seq.TerminalFailed else Seq.HomeIdle
            else k.isHomed == h.isHomed && k.isHomedKnown == h.isHomedKnown && k.state == Seq.HomeIdle))
  {
    hide Next, Homed, Join32, Elapsed, Seq.HomeTick, HomeExact;
    HomeTickParts(s, e.now);
    ReplyTaken(s.pipe, s.home, e.now);
    if |s.pipe.slot.resp| >= 4 { FaultBit(s.pipe.slot.resp); }
  }

  lemma ReplyTaken(p: Pipe, h: Seq.Home, now: nat)
    requires p.Valid() && HomeExact(p, h) && BootReadFirst(h) && !HomeDerails(p, h, now)
    requires p.slot.phase == Complete && Seq.HomeTick(p, h, now).0.slot.phase == Idle
    ensures h.state in {Seq.WritingCmd, Seq.PollingStatus, Seq.ReadingFault} && p.slot.req == Seq.HomeRequest(h.state)
    ensures Seq.HomeTick(p, h, now).1 == Seq.HomeReply(h.(handle := NO_HANDLE), p.slot.result, p.slot.resp, now)
  {
    hide Elapsed, Seq.HomeReply, Seq.HomeRequest;
  }

  /** Without an answer homing reports what it did, and waits as it did unless it was not
      waiting at all, was requested, or ran out of time. */
  lemma NoAnswerKeeps(s: Sys, e: Step)
    requires s.Valid() && ValidStep(e) && HomeExact(s.pipe, s.home) && BootReadFirst(s.home) && !Collects(s, e)
    ensures var h, k := s.home, Next(s, e).home;
      && k.isHomed == h.isHomed && k.isHomedKnown == h.isHomedKnown
      && (h.state == Seq.ReadingFault ==> k.state == h.state && k.motorStatus == h.motorStatus)
      && (h.state == Seq.PollingStatus || h.state == Seq.WritingCmd ==> k.state == h.state || (k.state == Seq.TerminalFailed && k.motorStatus == 3))
  {
    hide Next, HomeExact, BootReadFirst;
    if e.HomeTick? {
      hide Seq.HomeTick;
      HomeTickParts(s, e.now);
      TickKeeps(s.pipe, s.home, e.now);
    } else {
      HomeUnchanged(s, e);
    }
  }

  lemma TickKeeps(p: Pipe, h: Seq.Home, now: nat)
    requires p.Valid() && HomeExact(p, h) && BootReadFirst(h)
    requires p.slot.phase == Complete ==> Seq.HomeTick(p, h, now).0.slot.phase != Idle
    ensures var k := Seq.HomeTick(p, h, now).1;
      && k.isHomed == h.isHomed && k.isHomedKnown == h.isHomedKnown
      && (h.state == Seq.ReadingFault ==> k.state == h.state && k.motorStatus == h.motorStatus)
      && (h.state == Seq.PollingStatus || h.state == Seq.WritingCmd ==> k.state == h.state || (k.state == Seq.TerminalFailed && k.motorStatus == 3))
  {
    hide Elapsed, Seq.HomeReply, Seq.HomeRequest;
  }

  /** The last fault word that homing collected. */
  ghost function LastFaults(s: Sys, run: seq<Step>): Option<seq<byte>>
    requires s.Valid() && ValidRun(run)
    ensures var r := LastFaults(s, run); r.Some? ==> |r.value| >= 4
  {
    if run == [] then None
    else
      var m, e := After(s, run[..|run| - 1]), run[|run| - 1];
      if Collects(m, e) && IsFaultRead(m.pipe.slot.req) && m.pipe.slot.result == 0 && |m.pipe.slot.resp| >= 4 then Some(m.pipe.slot.resp)
      else LastFaults(s, run[..|run| - 1])
  }

  lemma StepHomed(s: Sys, e: Step)
    requires s.Valid() && ValidStep(e) && HomeExact(s.pipe, s.home) && BootReadFirst(s.home) && !Derails(s, e)
    ensures var k, slot := Next(s, e).home, s.pipe.slot;
      if Collects(s, e) && IsFaultRead(slot.req) && slot.result == 0 && |slot.resp| >= 4 then k.isHomedKnown && k.isHomed == Homed(slot.resp)
      else k.isHomed == s.home.isHomed && k.isHomedKnown == s.home.isHomedKnown
  {
    hide Next, Collects, HomeExact, Derails, BootReadFirst, Homed;
    if Collects(s, e) { AnswersMove(s, e); } else { NoAnswerKeeps(s, e); }
  }

  /**
   * In every run that keeps homing on its own answers, the axis counts as homed if and only if
   * a fault word was collected and the last one has NOT_HOMED clear.
   */
  lemma {:induction false} HomedIsLastFault(s: Sys, run: seq<Step>)
    requires s.Valid() && Initial(s) && ValidRun(run) && !EverDerails(s, run)
    ensures var h, last := After(s, run).home, LastFaults(s, run);
      (h.isHomedKnown <==> last.Some?) && (last.Some? ==> (h.isHomed <==> Homed(last.value)))
    decreases |run|
  {
    hide Next, Derails, HomeExact, BootReadFirst, Homed, Collects;
    if run != [] {
      var before := run[..|run| - 1];
      HomedIsLastFault(s, before);
      EveryRunHomeExact(s, before);
      assert AlwaysExact(s, before);
      EveryRunBootRead(s, before);
      StepHomed(After(s, before), run[|run| - 1]);
    }
  }

  /** No step of the run collects an answer for homing. */
  ghost predicate Uncollected(s: Sys, run: seq<Step>)
    requires s.Valid() && ValidRun(run)
  {
    run == [] || (Uncollected(s, run[..|run| - 1]) && !Collects(After(s, run[..|run| - 1]), run[|run| - 1]))
  }

  /** The slot has at most one owner, and homing waits for its own request if at all. */
  ghost predicate Sane(s: Sys)
    requires s.Valid()
  {
    (Owned(s) || Orphaned(s)) && HomeExact(s.pipe, s.home) && BootReadFirst(s.home)
  }

  lemma SaneAfter(s: Sys, run: seq<Step>)
    requires s.Valid() && Initial(s) && ValidRun(run) && !EverDerails(s, run)
    ensures Sane(After(s, run))
  {
    hide Next, Derails, HomeExact, BootReadFirst, Owned, Orphaned, EverAbandons, Initial, After;
    EveryRunOwned(s, run);
    EveryRunHomeExact(s, run);
    assert AlwaysExact(s, run);
    EveryRunBootRead(s, run);
  }

  lemma ReadingStays(s: Sys, e: Step)
    requires s.Valid() && ValidStep(e) && Sane(s) && s.home.state == Seq.ReadingFault
    ensures !Derails(s, e) && Sane(Next(s, e))
    ensures !Collects(s, e) ==> Next(s, e).home.state == Seq.ReadingFault && Next(s, e).home.motorStatus == s.home.motorStatus
  {
    hide Next, HomeExact, Owned, Orphaned, Abandons, Collects;
    StepKeepsOwner(s, e);
    StepHomeExact(s, e);
    StepBootRead(s, e);
    if !Collects(s, e) { NoAnswerKeeps(s, e); }
  }

  lemma {:induction false} FaultReadWaits(s: Sys, more: seq<Step>)
    requires s.Valid() && Sane(s) && ValidRun(more) && s.home.state == Seq.ReadingFault && Uncollected(s, more)
    ensures var m := After(s, more);
      Sane(m) && m.home.state == Seq.ReadingFault && m.home.motorStatus == s.home.motorStatus
    decreases |more|
  {
    hide Next, Sane, Derails, Collects;
    if more != [] {
      FaultReadWaits(s, more[..|more| - 1]);
      ReadingStays(After(s, more[..|more| - 1]), more[|more| - 1]);
    }
  }

  /** The request answered is that of homing's state. */
  lemma OwnRequest(s: Sys, e: Step)
    requires s.Valid() && ValidStep(e) && Sane(s) && s.home.state == Seq.ReadingFault && Collects(s, e)
    ensures IsFaultRead(s.pipe.slot.req)
  {
    hide Next, Elapsed, Owned, Orphaned, Seq.HomeReply;
    HomeTickParts(s, e.now);
  }

  /**
   * How homing ends, in every run that keeps it on its own answers: after a status of done (2)
   * or failed (3) it waits for the fault flags, whatever else happens meanwhile; when they are
   * read it ends as done or as failed by that status, and without them it is idle again. The
   * status stays reported.
   */
  lemma HomingEnds(s: Sys, run: seq<Step>, e: Step, more: seq<Step>, f: Step)
    requires s.Valid() && Initial(s) && ValidRun(run) && ValidStep(e) && ValidRun(more) && ValidStep(f)
    requires !EverDerails(s, run) && !Derails(After(s, run), e) && Collects(After(s, run), e)
    requires var slot := After(s, run).pipe.slot;
      IsHomeRead(slot.req) && slot.result == 0 && slot.resp != [] && Value(slot.resp[0]) in {2, 3}
    requires var n := Next(After(s, run), e); Uncollected(n, more) && Collects(After(n, more), f)
    ensures var status, m := Value(After(s, run).pipe.slot.resp[0]), After(Next(After(s, run), e), more);
      var k, slot := Next(m, f).home, m.pipe.slot;
      && IsFaultRead(slot.req) && k.motorStatus == status
      && k.state == if slot.result != 0 || |slot.resp| < 4 then Seq.HomeIdle else if status == 2 then Seq.TerminalDone else Seq.TerminalFailed
  {
    hide Next, After, Derails, HomeExact, BootReadFirst, Collects, Uncollected, Homed, IsHomeWrite, IsHomeRead, IsFaultRead, Owned, Orphaned, Initial, EverDerails;
    SaneAfter(s, run);
    var m := After(s, run);
    AnswersMove(m, e);
    StepKeepsOwner(m, e);
    StepHomeExact(m, e);
    StepBootRead(m, e);
    var n := Next(m, e);
    FaultReadWaits(n, more);
    ReadingStays(After(n, more), f);
    OwnRequest(After(n, more), f);
    AnswersMove(After(n, more), f);
  }

  /** The end is reported for one tick, unless the time limit has passed by then. */
  lemma EndIsBrief(s: Sys, now: nat)
    requires s.Valid() && s.home.state in {Seq.TerminalDone, Seq.TerminalFailed} && s.home.kicked
    ensures var k := Next(s, HomeTick(now)).home;
      k == if Elapsed(now, s.home.startMs) > 30000 then s.home.(state := Seq.TerminalFailed, motorStatus := 3) else s.home.(state := Seq.HomeIdle)
  {
    hide Elapsed;
  }

  /** With the slot free, homing issues its request at once, but for a status read: that waits
      for 200 ms since the last, except in the first 100 ms. */
  lemma RequestsWhenDue(s: Sys, now: nat)
    requires s.Valid() && s.pipe.slot.phase == Idle && s.home.handle == NO_HANDLE && s.home.kicked
    requires s.home.state in {Seq.WritingCmd, Seq.PollingStatus} ==> Elapsed(now, s.home.startMs) <= 30000
    ensures var h, slot := s.home, Next(s, HomeTick(now)).pipe.slot;
      && (h.state == Seq.WritingCmd ==> slot.phase == Pending && IsHomeWrite(slot.req))
      && (h.state == Seq.ReadingFault ==> slot.phase == Pending && IsFaultRead(slot.req))
      && (h.state == Seq.PollingStatus ==>
           if Elapsed(now, h.lastPollMs) >= 200 || Elapsed(now, h.startMs) <= 100 then slot.phase == Pending && IsHomeRead(slot.req)
           else slot == s.pipe.slot)
    ensures var h, k := s.home, Next(s, RequestHome(now)).home;
      k == if h.state == Seq.HomeIdle then h.(state := Seq.WritingCmd, startMs := Clock(now), lastPollMs := 0) else h
  {
    hide Elapsed;
  }

  // ----- Motor save -----

  /** The step sets the enable latch itself: a command, or a quick stop taking effect. */
  ghost predicate Switches(s: Sys, e: Step) { e.Enable? || (e.ComposeTick? && s.drive.quickStop) }

  ghost predicate EverSwitches(s: Sys, run: seq<Step>)
    requires s.Valid() && ValidRun(run)
  {
    run != [] && (EverSwitches(s, run[..|run| - 1]) || Switches(After(s, run[..|run| - 1]), run[|run| - 1]))
  }

  /** The drive is off during a save, which remembers that it was on. */
  ghost predicate GivesBack(s: Sys, on: bool) {
    if s.save.state == Seq.SaveIdle then s.drive.enable == on else !s.drive.enable && s.save.wasEnabled == on
  }

  lemma SaveHolds(s: Sys, e: Step, on: bool)
    requires s.Valid() && ValidStep(e) && GivesBack(s, on) && !Switches(s, e)
    ensures GivesBack(Next(s, e), on)
  {
    if SparesDrive(e) {
      hide Next;
      DriveSpared(s, e);
      SaveUntouched(s, e);
    } else if e.SaveTick? || e.RequestSave? {
      hide Elapsed;
    } else {
      hide Next;
      SaveUntouched(s, e);
      EnableUntouched(s, e);
    }
  }

  lemma EnableUntouched(s: Sys, e: Step)
    requires s.Valid() && ValidStep(e) && !Switches(s, e) && !SparesDrive(e) && !e.SaveTick? && !e.RequestSave?
    ensures Next(s, e).drive.enable == s.drive.enable
  {
    hide ComputeDesired, Compose, Sequencer.Busy, MaxVelocity, Proxy.Set, Proxy.BootTick, Proxy.Settable;
    if e.ComposeTick? { ComposeEnable(s.drive, Sequencer.Busy(s.setup, s.Desired()), s.proxy.slots[Proxy.VEL_LIMIT].mirror); }
  }

  lemma ComposeEnable(d: Drive, busy: bool, limit: f32)
    requires !d.quickStop
    ensures Compose(d, busy, limit).0.enable == d.enable
  {
    hide Demand;
  }

  lemma SaveUntouched(s: Sys, e: Step)
    requires s.Valid() && ValidStep(e) && !e.SaveTick? && !e.RequestSave?
    ensures Next(s, e).save == s.save
  {
    hide ComputeDesired, Recap, Compose, Proxy.Set, Proxy.RequestResync, Seq.RequestHome, Exchange, MotorAfter;
    hide Sequencer.Tick, Proxy.Tick, Proxy.BootTick, Seq.LoadTick, Seq.SetLoad, Seq.HomeTick, Bridge.Receive, Bridge.Service;
  }

  /**
   * In every run in which nobody switches the drive, it is off exactly while a save is in
   * progress or if it was off before: every save, finished or timed out, gives it back.
   */
  lemma {:induction false} SaveGivesBack(s: Sys, run: seq<Step>)
    requires s.Valid() && s.save.state == Seq.SaveIdle && ValidRun(run) && !EverSwitches(s, run)
    ensures var m := After(s, run); m.drive.enable <==> s.drive.enable && m.save.state == Seq.SaveIdle
    decreases |run|
  {
    hide Next, Switches;
    SaveIsHeld(s, run);
  }

  lemma {:induction false} SaveIsHeld(s: Sys, run: seq<Step>)
    requires s.Valid() && s.save.state == Seq.SaveIdle && ValidRun(run) && !EverSwitches(s, run)
    ensures GivesBack(After(s, run), s.drive.enable)
    decreases |run|
  {
    hide Next, Switches, GivesBack;
    if run == [] {
      assert GivesBack(s, s.drive.enable) by { IdleHolds(s); }
    } else {
      SaveIsHeld(s, run[..|run| - 1]);
      SaveHolds(After(s, run[..|run| - 1]), run[|run| - 1], s.drive.enable);
    }
  }

  lemma IdleHolds(s: Sys)
    requires s.save.state == Seq.SaveIdle
    ensures GivesBack(s, s.drive.enable)
  {
  }

  /** The order and the times of a save that is not overtaken by its limit of 5 s: 250 ms after
      the request the save command goes out as soon as the slot is free, and 50 ms after its
      answer, whatever that is, the save is over. */
  lemma SaveTakesTime(s: Sys, now: nat)
    requires s.Valid() && (s.save.state != Seq.SaveIdle ==> Elapsed(now, s.save.startMs) <= 5000)
    ensures var m, t := s.save, Next(s, SaveTick(now));
      && (m.state == Seq.SaveIdle ==> t == s)
      && (m.state == Seq.Disabling ==>
           if Elapsed(now, m.phaseMs) >= 250 && s.pipe.slot.phase == Idle then
             t.save.state == Seq.WritingSdo && t.save.handle == t.pipe.slot.handle && t.pipe.slot.phase == Pending
             && t.pipe.slot.req == Request(false, 0x2800, 1, U16, Wr16(0x7376))
           else t == s)
      && (m.state == Seq.WritingSdo ==>
           if m.handle != NO_HANDLE && m.handle == s.pipe.slot.handle && s.pipe.slot.phase == Complete then
             t.save.state == Seq.Reenable && t.save.phaseMs == Clock(now) && t.pipe.slot.phase == Idle
           else t == s)
      && (m.state == Seq.Reenable ==> if Elapsed(now, m.phaseMs) >= 50 then t.save.state == Seq.SaveIdle else t == s)
    ensures s.save.state == Seq.SaveIdle ==>
      var t := Next(s, RequestSave(now)); t.save.state == Seq.Disabling && t.save.phaseMs == t.save.startMs == Clock(now) && !t.drive.enable
  {
    hide Elapsed, Clock, Wr16;
  }
}
