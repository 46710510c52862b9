/**
 * When the slot is freed and when it is not. A completed exchange is collected by the next
 * call of its client, with two exceptions after which nobody polls: the motor-save timeout,
 * and a homing that times out, or ends, with a handle in hand.
 */
module Wedge {
  import opened Ownership
  import opened Pipeline
  import Scaling
  import opened System
  import opened Time
  import Sequencer = SetupSequencer
  import Proxy = ProxyCache
  import Seq = Sequencers
  import Bridge

  /** The three states in which homing polls its handle. */
  predicate Polling(h: Seq.Home) { h.state in {Seq.WritingCmd, Seq.PollingStatus, Seq.ReadingFault} }

  /** Homing holds the slot in a state in which it does not poll. */
  predicate Stalled(s: Sys) { s.home.handle != NO_HANDLE && !Polling(s.home) }

  /** Busy with nobody to free it: nobody holds the slot, or a homing that does not poll. */
  ghost predicate Wedged(s: Sys) { Orphaned(s) || Stalled(s) }

  /** Homing goes to a state in which it does not poll, with a handle in hand: it times out
      while it waits, or the boot read is issued when it has already failed. */
  ghost predicate HomeWedges(s: Sys, e: Step)
    requires s.Valid()
  {
    e.HomeTick? && var h := Seq.Kick(s.pipe, s.home).1; h.handle != NO_HANDLE && (Seq.HomeTimedOut(h, e.now) || !Polling(h))
  }

  ghost predicate Wedges(s: Sys, e: Step)
    requires s.Valid()
  {
    Abandons(s, e) || HomeWedges(s, e)
  }

  /** The only way back: a homing requested again after the failed one was put away, which no
      tick does before the millisecond counter has come round. */
  predicate Recovers(s: Sys, e: Step) { e.RequestHome? && Stalled(s) && s.home.state == Seq.HomeIdle }

  // ----- The timed-out homing -----

  /** A homing that has failed by timeout stays as it is while the counter is past its limit:
      its tick does nothing, and a new request is refused. */
  lemma TimedOutHomingStays(p: Pipe, h: Seq.Home, now: nat, later: nat)
    requires p.Valid() && h.kicked && h.state == Seq.TerminalFailed && h.motorStatus == Seq.HOME_FAILED
    requires Elapsed(now, h.startMs) > Seq.HOME_OVERALL_TIMEOUT_MS
    ensures Seq.HomeTick(p, h, now) == (p, h) && Seq.RequestHome(h, later) == h
  {
    hide Elapsed;
  }

  /** The counter is past the limit from 30 s after the start until it has come round. */
  lemma LateUntilWrap(start: nat, now: nat)
    requires start + Seq.HOME_OVERALL_TIMEOUT_MS < now < start + TWO_32
    ensures Elapsed(now, Clock(start)) > Seq.HOME_OVERALL_TIMEOUT_MS
  {
    hide Elapsed, Clock;
    ElapsedIsReal(start, now);
  }

  /** How it happens: one tick past the limit, from either waiting state. */
  lemma HomingTimeoutStalls(s: Sys, now: nat)
    requires s.Valid() && s.home.kicked && s.home.handle != NO_HANDLE && s.home.state in {Seq.WritingCmd, Seq.PollingStatus}
    requires Elapsed(now, s.home.startMs) > Seq.HOME_OVERALL_TIMEOUT_MS
    ensures var t := Next(s, HomeTick(now));
      && Stalled(t) && t.pipe == s.pipe
      && t.home == s.home.(state := Seq.TerminalFailed, motorStatus := Seq.HOME_FAILED)
  {
    hide Elapsed;
  }

  // ----- Single steps -----

  /** What a homing tick does to a handle in hand. */
  lemma HomeTickStalls(p: Pipe, h: Seq.Home, now: nat)
    requires p.Valid() && (h.handle == NO_HANDLE || (h.handle == p.slot.handle && !p.slot.phase.Idle?))
    ensures var k, t := Seq.Kick(p, h).1, Seq.HomeTick(p, h, now).1;
      (t.handle != NO_HANDLE && !Polling(t)) <==> (k.handle != NO_HANDLE && (Seq.HomeTimedOut(k, now) || !Polling(k)))
  {
    hide Elapsed, Seq.HomeReply;
    HomeReplyKeepsHandle(h, now);
  }

  lemma StepStalls(s: Sys, e: Step)
    requires s.Valid() && ValidStep(e) && (Owned(s) || Orphaned(s))
    ensures Stalled(Next(s, e)) <==> if e.HomeTick? then HomeWedges(s, e) else Stalled(s) && !Recovers(s, e)
  {
    hide Next, Owned;
    if e.HomeTick? {
      hide Seq.HomeTick, Seq.Kick, Seq.HomeTimedOut;
      OwnedConsistent(s, Homing);
      HomeTickParts(s, e.now);
      HomeTickStalls(s.pipe, s.home, e.now);
    } else {
      HomeUnchanged(s, e);
    }
  }

  /** A tick of a stalled homing leaves it stalled. */
  lemma StalledTickWedges(s: Sys, now: nat)
    requires s.Valid() && Stalled(s) && (Owned(s) || Orphaned(s))
    ensures HomeWedges(s, HomeTick(now))
  {
    hide Owned, Orphaned, Elapsed;
    OwnedConsistent(s, Homing);
    assert Hold(s, Homing) == s.home.handle;
  }

  /** A step wedges a slot that is not exactly if it is one of the two calls, and never
      unwedges one unless homing is requested again. */
  lemma StepWedges(s: Sys, e: Step)
    requires s.Valid() && ValidStep(e) && (Owned(s) || Orphaned(s))
    ensures Wedged(Next(s, e)) <==> Wedges(s, e) || (Wedged(s) && !Recovers(s, e))
  {
    hide Next, Owned, Orphaned, Stalled, Abandons, HomeWedges, Recovers;
    StepKeepsOwner(s, e);
    StepStalls(s, e);
    OwnedNotOrphaned(s);
    OwnedNotOrphaned(Next(s, e));
    if Stalled(s) && e.HomeTick? { StalledTickWedges(s, e.now); }
    OnlyHomeTick(s, e);
  }

  lemma OnlyHomeTick(s: Sys, e: Step)
    requires s.Valid()
    ensures HomeWedges(s, e) ==> e.HomeTick?
    ensures Recovers(s, e) ==> !e.HomeTick? && Stalled(s)
    ensures Orphaned(s) ==> !Stalled(s)
  {
    if Orphaned(s) { assert Hold(s, Homing) == NO_HANDLE; }
  }

  lemma OwnedNotOrphaned(s: Sys)
    requires s.Valid()
    ensures !Owned(s) || !Orphaned(s)
  {
    hide Fits;
  }

  // ----- Main results -----

  /** Some call of the run wedged the slot, and no new homing has unwedged it since. */
  ghost predicate WedgedBy(s: Sys, run: seq<Step>)
    requires s.Valid() && ValidRun(run)
  {
    run != [] &&
    var before, e := After(s, run[..|run| - 1]), run[|run| - 1];
    Wedges(before, e) || (WedgedBy(s, run[..|run| - 1]) && !Recovers(before, e))
  }

  /** In every run the slot is wedged if and only if a motor save has timed out with its write
      in the slot or homing has gone to rest with a handle, and then it is busy. */
  lemma {:induction false} EveryRunWedged(s: Sys, run: seq<Step>)
    requires s.Valid() && Initial(s) && ValidRun(run)
    ensures Wedged(After(s, run)) <==> WedgedBy(s, run)
    ensures Wedged(After(s, run)) ==> !After(s, run).pipe.slot.phase.Idle?
    decreases |run|
  {
    hide Next, Owned, Orphaned, Wedged, Wedges, Recovers, Initial;
    EveryRunOwned(s, run);
    WedgedIsBusy(After(s, run));
    if run == [] {
      InitialNotWedged(s);
    } else {
      var prefix := run[..|run| - 1];
      EveryRunWedged(s, prefix);
      EveryRunOwned(s, prefix);
      StepWedges(After(s, prefix), run[|run| - 1]);
    }
  }

  lemma InitialNotWedged(s: Sys)
    requires Initial(s)
    ensures !Wedged(s)
  {
  }

  lemma WedgedIsBusy(s: Sys)
    requires s.Valid() && (Owned(s) || Orphaned(s))
    ensures Wedged(s) ==> !s.pipe.slot.phase.Idle?
  {
    if Stalled(s) { assert Hold(s, Homing) != NO_HANDLE; }
  }

  ghost predicate NeverRecovers(s: Sys, run: seq<Step>)
    requires s.Valid() && ValidRun(run)
  {
    run == [] || (NeverRecovers(s, run[..|run| - 1]) && !Recovers(After(s, run[..|run| - 1]), run[|run| - 1]))
  }

  /** From a wedged state on, whatever is called, the slot keeps its handle and its request
      and is never free again, for any client. */
  lemma {:induction false} WedgedForEver(s: Sys, run: seq<Step>)
    requires s.Valid() && (Owned(s) || Orphaned(s)) && Wedged(s) && ValidRun(run) && NeverRecovers(s, run)
    ensures var t := After(s, run);
      && (Owned(t) || Orphaned(t)) && Wedged(t) && !t.pipe.slot.phase.Idle?
      && t.pipe.slot.handle == s.pipe.slot.handle && t.pipe.slot.req == s.pipe.slot.req
    decreases |run|
  {
    hide Next, Owned, Orphaned, Wedged, Wedges, Recovers;
    if run == [] {
      WedgedIsBusy(s);
    } else {
      var prefix := run[..|run| - 1];
      WedgedForEver(s, prefix);
      var t, e := After(s, prefix), run[|run| - 1];
      StepWedges(t, e);
      StepKeepsOwner(t, e);
      WedgedIsBusy(Next(t, e));
      WedgedKeepsSlot(t, e);
    }
  }

  lemma WedgedKeepsSlot(s: Sys, e: Step)
    requires s.Valid() && ValidStep(e) && (Owned(s) || Orphaned(s)) && Wedged(s)
    ensures var q := Next(s, e).pipe.slot; q.handle == s.pipe.slot.handle && q.req == s.pipe.slot.req
  {
    hide Next, Owned, Orphaned, Fits;
    if e.LinkTick? {
      LinkKeepsRequest(s, e.t);
    } else if Orphaned(s) {
      OrphanKeepsSlot(s, e);
    } else if e.HomeTick? {
      StalledTickKeepsSlot(s, e.now);
    } else {
      OthersLeaveSlot(s, e, Homing);
    }
  }

  lemma OrphanKeepsSlot(s: Sys, e: Step)
    requires s.Valid() && ValidStep(e) && Orphaned(s) && !e.LinkTick?
    ensures Next(s, e).pipe == s.pipe
  {
    hide Next, Fits, Hold;
    OrphanedNeverAbandons(s, e);
    if c: Client :| Runs(e, c) {
      ClientStep(s, e, c);
      assert Hold(s, c) == NO_HANDLE;
    } else {
      QuietStep(s, e);
    }
  }

  lemma StalledTickKeepsSlot(s: Sys, now: nat)
    requires s.Valid() && Stalled(s) && (Owned(s) || Orphaned(s))
    ensures Next(s, HomeTick(now)).pipe == s.pipe
  {
    hide Owned, Orphaned, Elapsed, Seq.HomeReply;
    OwnedConsistent(s, Homing);
    assert Hold(s, Homing) == s.home.handle;
  }

  /** Every homing tick of the run reads the counter past the limit of this start. */
  ghost predicate LateRun(run: seq<Step>, start: nat) {
    forall i :: 0 <= i < |run| ==> run[i].HomeTick? ==> Elapsed(run[i].now, start) > Seq.HOME_OVERALL_TIMEOUT_MS
  }

  /** Until the millisecond counter has come round a homing that timed out with a handle in
      hand refuses every request and never polls: nothing brings the slot back. */
  lemma {:induction false} LateRunNeverRecovers(s: Sys, run: seq<Step>)
    requires s.Valid() && (Owned(s) || Orphaned(s)) && Stalled(s) && ValidRun(run) && LateRun(run, s.home.startMs)
    requires s.home.kicked && s.home.state == Seq.TerminalFailed && s.home.motorStatus == Seq.HOME_FAILED
    ensures NeverRecovers(s, run) && After(s, run).home == s.home && !After(s, run).pipe.slot.phase.Idle?
    decreases |run|
  {
    hide Next, Owned, Orphaned, Elapsed;
    if run != [] {
      var prefix := run[..|run| - 1];
      LateRunNeverRecovers(s, prefix);
      var t, e := After(s, prefix), run[|run| - 1];
      if e.HomeTick? {
        hide Seq.HomeTick;
        HomeTickParts(t, e.now);
        TimedOutHomingStays(t.pipe, t.home, e.now, 0);
      } else {
        HomeUnchanged(t, e);
      }
    }
    WedgedForEver(s, run);
  }

  /** In real time: from 30 s after its start until the 2^32 ms counter has come round. */
  lemma WedgedUntilWrap(s: Sys, run: seq<Step>, start: nat)
    requires s.Valid() && (Owned(s) || Orphaned(s)) && Stalled(s) && ValidRun(run) && s.home.startMs == Clock(start)
    requires s.home.kicked && s.home.state == Seq.TerminalFailed && s.home.motorStatus == Seq.HOME_FAILED
    requires forall i :: 0 <= i < |run| && run[i].HomeTick? ==> start + Seq.HOME_OVERALL_TIMEOUT_MS < run[i].now < start + TWO_32
    ensures NeverRecovers(s, run) && After(s, run).home == s.home && !After(s, run).pipe.slot.phase.Idle?
  {
    hide After, NeverRecovers, Owned, Orphaned, Stalled, Elapsed, Clock;
    forall i | 0 <= i < |run| && run[i].HomeTick? ensures Elapsed(run[i].now, s.home.startMs) > Seq.HOME_OVERALL_TIMEOUT_MS {
      LateUntilWrap(start, run[i].now);
    }
    LateRunNeverRecovers(s, run);
  }

  // ----- Collection -----

  /** The calls in which a client polls its handle. */
  predicate Polls(e: Step, c: Client) {
    match c
    case SetupWriter => e.SetupTick?
    case LoadWriter => e.LoadTick?
    case ProxyWriter => e.ProxyTick?
    case Resync => e.BootTick?
    case MotorSave => e.SaveTick?
    case Homing => e.HomeTick?
    case UdpBridge => e.Service?
  }

  /** The slot is complete and this is its handle. */
  ghost predicate Ready(p: Pipe, h: int) { h != NO_HANDLE && h == p.slot.handle && p.slot.phase == Complete }

  lemma WritersCollect(s: Sys)
    requires s.Valid()
    ensures Ready(s.pipe, s.setup.Hold()) ==> Sequencer.Tick(s.pipe, s.setup, s.Desired()).0.slot.phase != Complete
    ensures Ready(s.pipe, s.load.Hold()) ==> Seq.LoadTick(s.pipe, s.load).0.slot.phase != Complete
    ensures Ready(s.pipe, s.proxy.Hold()) ==> Proxy.Tick(s.pipe, s.proxy).0.slot.phase != Complete
    ensures Ready(s.pipe, s.bridge.Hold()) ==> Bridge.Service(s.pipe, s.bridge).0.slot.phase != Complete
  {
    hide Sequencer.WriteOf, Sequencer.FirstDiff, Proxy.WriteOf, Proxy.NextDirty, Scaling.ComputeDesired, Bridge.Response;
  }

  lemma ResyncCollects(s: Sys, now: nat)
    requires s.Valid() && Ready(s.pipe, s.boot.Hold())
    ensures Proxy.BootTick(s.pipe, s.boot, s.proxy, now).0.slot.phase != Complete
  {
    hide Elapsed, Proxy.Adopt, Proxy.ReadOf;
  }

  lemma SaveCollects(s: Sys, now: nat)
    requires s.Valid() && Ready(s.pipe, s.save.Hold())
    ensures Seq.SaveTick(s.pipe, s.save, s.drive.enable, now).0.slot.phase == Complete <==> Abandons(s, SaveTick(now))
  {
    hide Elapsed;
  }

  lemma HomeCollects(s: Sys, now: nat)
    requires s.Valid() && Ready(s.pipe, s.home.Hold())
    ensures Seq.HomeTick(s.pipe, s.home, now).0.slot.phase == Complete <==> HomeWedges(s, HomeTick(now))
  {
    hide Elapsed, Seq.HomeReply;
  }

  lemma SlotAfterPoll(s: Sys, e: Step)
    requires s.Valid() && ValidStep(e)
    ensures e.SetupTick? ==> Next(s, e).pipe == Sequencer.Tick(s.pipe, s.setup, s.Desired()).0
    ensures e.LoadTick? ==> Next(s, e).pipe == Seq.LoadTick(s.pipe, s.load).0
    ensures e.ProxyTick? ==> Next(s, e).pipe == Proxy.Tick(s.pipe, s.proxy).0
    ensures e.BootTick? ==> Next(s, e).pipe == Proxy.BootTick(s.pipe, s.boot, s.proxy, e.now).0
    ensures e.SaveTick? ==> Next(s, e).pipe == Seq.SaveTick(s.pipe, s.save, s.drive.enable, e.now).0
    ensures e.HomeTick? ==> Next(s, e).pipe == Seq.HomeTick(s.pipe, s.home, e.now).0
    ensures e.Service? ==> Next(s, e).pipe == Bridge.Service(s.pipe, s.bridge).0
  {
    hide Scaling.ComputeDesired, Recap, Compose, Proxy.Set, Proxy.RequestResync, Seq.RequestSave, Seq.RequestHome, Exchange, MotorAfter;
    hide Sequencer.Tick, Proxy.Tick, Proxy.BootTick, Seq.LoadTick, Seq.SetLoad, Seq.SaveTick, Seq.HomeTick, Bridge.Receive, Bridge.Service;
  }

  /** A completion is collected by the next polling call of its client, which leaves the slot
      free or with that client's next request, if and only if that call does not wedge it. */
  lemma CompletionIsCollected(s: Sys, c: Client, e: Step)
    requires s.Valid() && ValidStep(e) && HeldBy(s, c) && s.pipe.slot.phase == Complete && Polls(e, c)
    ensures Next(s, e).pipe.slot.phase == Complete <==> Wedges(s, e)
  {
    hide Next, Fits, HomeWedges, Abandons;
    SlotAfterPoll(s, e);
    assert Ready(s.pipe, Hold(s, c));
    NotWedgingPolls(s, e);
    match c
    case Resync => ResyncCollects(s, e.now);
    case MotorSave => SaveCollects(s, e.now);
    case Homing => HomeCollects(s, e.now);
    case _ => WritersCollect(s);
  }

  lemma NotWedgingPolls(s: Sys, e: Step)
    requires s.Valid()
    ensures Abandons(s, e) ==> e.SaveTick?
    ensures HomeWedges(s, e) ==> e.HomeTick?
  {
  }
}
