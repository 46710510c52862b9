/**
 * The slot against the motor: what an answer means, that a late one never completes a later
 * request, and when a request times out, over every run of the system.
 */
module Replies {
  import opened Bytes
  import opened Pipeline
  import opened Scaling
  import opened System
  import opened Time
  import Sequencer = SetupSequencer
  import Proxy = ProxyCache
  import Seq = Sequencers
  import Bridge

  // ----- The motor and the wire -----

  /** A frame takes at most the response timeout; an answer or an error report names a frame
      sent earlier, a request or a cyclic command, fewer than 65536 frames ago (and fewer than
      65536 after a request still awaited), by its sequence number. Answers may be late, lost,
      repeated or false. */
  ghost predicate Timely(s: Sys, t: TickEvent) {
    && t.sendTime <= t.endTime <= t.sendTime + OD_RESPONSE_TIMEOUT_MS
    && (t.answer.Answer? ==>
      && 1 <= t.answers <= s.frames && s.frames + 1 < t.answers + TWO_16
      && (s.pipe.slot.phase == Awaiting ==> t.answers < s.motor.reqFrame + TWO_16)
      && t.answer.sequence == t.answers % TWO_16)
  }

  /** The request is for one of the seven objects the proxy caches. */
  ghost predicate OfCache(r: Request) {
    exists k: nat :: k < Proxy.SLOT_COUNT && ObjectOf(r) == (Proxy.SlotIndex(k), Proxy.SlotSub(k))
  }

  /** An OK answer tells the truth: a write was taken, and a read of a cached parameter returns
      what is stored. Other objects, such as the homing status, change as they like. */
  ghost predicate Truthful(m: Motor, r: Request, data: seq<byte>) {
    if r.isRead then OfCache(r) ==> ObjectOf(r) in m.store && m.store[ObjectOf(r)] == data else m.took
  }

  /** Timely, and true if it is OK. */
  ghost predicate Honest(s: Sys, t: TickEvent) {
    && Timely(s, t)
    && (t.answer.Answer? && t.answers == s.motor.reqFrame && s.pipe.slot.phase == Awaiting && t.answer.result == OD_OK ==>
      Truthful(s.motor, s.pipe.slot.req, t.answer.data))
  }

  /** The status and fault flags that homing reads are not cached: any answer to these reads
      is honest, so homing can succeed in an honest run. */
  lemma LiveReadsAreHonest(s: Sys, t: TickEvent)
    requires Timely(s, t) && s.pipe.slot.req in {Seq.HomeRead(), Seq.FaultRead()}
    ensures Honest(s, t)
  {
    assert !OfCache(Seq.HomeRead()) && !OfCache(Seq.FaultRead());
  }

  ghost predicate TimelyStep(s: Sys, e: Step) { e.LinkTick? && e.t.transmits ==> Timely(s, e.t) }

  ghost predicate TimelyRun(s: Sys, run: seq<Step>)
    requires s.Valid() && ValidRun(run)
  {
    run == [] || (TimelyRun(s, run[..|run| - 1]) && TimelyStep(After(s, run[..|run| - 1]), run[|run| - 1]))
  }

  ghost predicate HonestStep(s: Sys, e: Step) { e.LinkTick? && e.t.transmits ==> Honest(s, e.t) }

  ghost predicate HonestRun(s: Sys, run: seq<Step>)
    requires s.Valid() && ValidRun(run)
  {
    run == [] || (HonestRun(s, run[..|run| - 1]) && HonestStep(After(s, run[..|run| - 1]), run[|run| - 1]))
  }

  ghost predicate Sent?(s: Sys) { s.pipe.slot.phase == Awaiting || s.pipe.slot.phase == Complete }

  /** The slot's sequence number and deadline are those of the last request sent. */
  ghost predicate InStep(s: Sys) {
    var slot, m := s.pipe.slot, s.motor;
    && m.reqFrame <= s.frames
    && (slot.phase == Awaiting ==>
      slot.reqSeq == m.reqFrame % TWO_16 && slot.deadline == Clock(m.reqTime + OD_RESPONSE_TIMEOUT_MS))
  }

  /** And what the slot knows of the motor's store. */
  ghost predicate Linked(s: Sys) {
    var slot, m := s.pipe.slot, s.motor;
    && InStep(s)
    && (Sent?(s) && m.took ==>
      !slot.req.isRead && ObjectOf(slot.req) in m.store && m.store[ObjectOf(slot.req)] == slot.req.data)
    && (slot.phase == Complete && slot.result == OD_OK ==> Truthful(m, slot.req, slot.resp))
  }

  // ----- Steps other than the exchange -----

  /** What any client does to the slot: a request not yet answered stays, a completed one may
      be collected, a free slot may be taken. */
  ghost predicate Touches(p: Pipe, q: Pipe) {
    && (p.slot.phase == Pending || p.slot.phase == Awaiting ==> q == p)
    && (q.slot == p.slot || q.slot.phase == Idle || q.slot.phase == Pending)
  }

  lemma SetupTouches(p: Pipe, q: Sequencer.Sequencer, d: Setup)
    requires p.Valid() && q.Valid()
    ensures Touches(p, Sequencer.Tick(p, q, d).0)
  {
    hide Sequencer.WriteOf;
  }

  lemma LoadTouches(p: Pipe, l: Seq.Load, v: f32)
    requires p.Valid()
    ensures Touches(p, Seq.LoadTick(p, l).0) && Touches(p, Seq.SetLoad(p, l, v).0)
  {
    hide Seq.LoadWrite, Seq.LoadInRange;
  }

  lemma ProxyTouches(p: Pipe, x: Proxy.Proxy)
    requires p.Valid() && x.Valid()
    ensures Touches(p, Proxy.Tick(p, x).0)
  {
    hide Proxy.WriteOf, Proxy.NextDirty;
  }

  lemma ResyncTouches(p: Pipe, b: Proxy.Boot, x: Proxy.Proxy, now: nat)
    requires p.Valid() && b.Valid() && x.Valid()
    ensures Touches(p, Proxy.BootTick(p, b, x, now).0)
  {
    hide Proxy.Adopt, Proxy.ReadOf, Elapsed;
  }

  lemma SaveTouches(p: Pipe, m: Seq.Save, enabled: bool, now: nat)
    requires p.Valid()
    ensures Touches(p, Seq.SaveTick(p, m, enabled, now).0)
  {
    hide Elapsed, Seq.SaveTimedOut;
  }

  lemma HomeTouches(p: Pipe, h: Seq.Home, now: nat)
    requires p.Valid()
    ensures Touches(p, Seq.HomeTick(p, h, now).0)
  {
    hide Elapsed, Seq.HomeReply, Seq.HomeTimedOut, Seq.HomeWrite, Seq.HomeRead, Seq.FaultRead;
  }

  lemma BridgeTouches(p: Pipe, u: Bridge.Queue, peer: Bridge.Peer, sequence: nat, m: Bridge.Incoming, l: Bridge.LocalResult)
    requires p.Valid()
    ensures Touches(p, Bridge.Receive(p, u, peer, sequence, m, l).0) && Touches(p, Bridge.Service(p, u).0)
  {
    hide Bridge.DecodeReq, Bridge.Response, Bridge.LocalResponse;
  }

  lemma OtherStep(s: Sys, e: Step)
    requires s.Valid() && ValidStep(e) && !e.LinkTick?
    ensures Next(s, e).motor == s.motor && Next(s, e).frames == s.frames && Touches(s.pipe, Next(s, e).pipe)
  {
    OtherStepMotor(s, e);
    OtherStepSlot(s, e);
  }

  lemma OtherStepMotor(s: Sys, e: Step)
    requires s.Valid() && ValidStep(e) && !e.LinkTick?
    ensures Next(s, e).motor == s.motor && Next(s, e).frames == s.frames
  {
    hide ComputeDesired, MaxVelocity, Compose, Proxy.Set;
    hide Sequencer.Tick, Proxy.Tick, Proxy.BootTick, Seq.LoadTick, Seq.SetLoad, Seq.SaveTick, Seq.HomeTick, Bridge.Receive, Bridge.Service;
  }

  ghost predicate ClientStep(e: Step) {
    e.SetupTick? || e.LoadTick? || e.SetLoad? || e.ProxyTick? || e.BootTick? || e.SaveTick? || e.HomeTick? || e.Receive? || e.Service?
  }

  lemma QuietSlot(s: Sys, e: Step)
    requires s.Valid() && ValidStep(e) && !e.LinkTick? && !ClientStep(e)
    ensures Next(s, e).pipe == s.pipe
  {
    hide ComputeDesired, Recap, Compose, Proxy.Set, Proxy.RequestResync, Seq.RequestSave, Seq.RequestHome;
  }

  lemma SequencerSlot(s: Sys, e: Step)
    requires s.Valid() && ValidStep(e) && (e.SetupTick? || e.ProxyTick? || e.BootTick? || e.SaveTick? || e.HomeTick?)
    ensures Touches(s.pipe, Next(s, e).pipe)
  {
    hide Touches, ComputeDesired, Recap, Sequencer.Tick, Proxy.Tick, Proxy.BootTick, Seq.SaveTick, Seq.HomeTick;
    match e
    case SetupTick => SetupTouches(s.pipe, s.setup, s.Desired());
    case ProxyTick => ProxyTouches(s.pipe, s.proxy);
    case BootTick(now) => ResyncTouches(s.pipe, s.boot, s.proxy, now);
    case SaveTick(now) => SaveTouches(s.pipe, s.save, s.drive.enable, now);
    case HomeTick(now) => HomeTouches(s.pipe, s.home, now);
  }

  lemma CallerSlot(s: Sys, e: Step)
    requires s.Valid() && ValidStep(e) && (e.LoadTick? || e.SetLoad? || e.Receive? || e.Service?)
    ensures Touches(s.pipe, Next(s, e).pipe)
  {
    hide Touches, Seq.LoadTick, Seq.SetLoad, Bridge.Receive, Bridge.Service;
    match e
    case LoadTick => LoadTouches(s.pipe, s.load, 0);
    case SetLoad(v) => LoadTouches(s.pipe, s.load, v);
    case Receive(peer, sq, m, l) => BridgeTouches(s.pipe, s.bridge, peer, sq, m, l);
    case Service => BridgeTouches(s.pipe, s.bridge, Bridge.Peer([], 0), 0, Bridge.ReadReq([]), Bridge.LocalResult(0, 0, []));
  }

  lemma OtherStepSlot(s: Sys, e: Step)
    requires s.Valid() && ValidStep(e) && !e.LinkTick?
    ensures Touches(s.pipe, Next(s, e).pipe)
  {
    hide Next;
    if !ClientStep(e) {
      QuietSlot(s, e);
    } else if e.SetupTick? || e.ProxyTick? || e.BootTick? || e.SaveTick? || e.HomeTick? {
      SequencerSlot(s, e);
    } else {
      CallerSlot(s, e);
    }
  }

  /** What Receive and Service do to the bridge's own ticket. */
  lemma BridgeParts(s: Sys, e: Step)
    requires s.Valid() && ValidStep(e) && (e.Receive? || e.Service?)
    ensures var t := Next(s, e); t.bridge.Hold() != NO_HANDLE ==>
      t.bridge == s.bridge || (e.Receive? && t.pipe != s.pipe && t.bridge.ticket.req == t.pipe.slot.req)
  {
    hide Bridge.DecodeReq, Bridge.Response, Bridge.LocalResponse;
  }

  // ----- The exchange -----

  /** An answer to an earlier request, or about a cyclic command, changes nothing, whatever its
      sequence number and however often both counters have wrapped. */
  lemma LateAnswerIgnored(s: Sys, t: TickEvent)
    requires s.Valid() && InStep(s) && t.transmits && ValidStep(LinkTick(t)) && Timely(s, t) && t.answer.Answer?
    requires t.answers != s.motor.reqFrame || s.pipe.slot.phase != Awaiting
    ensures Next(s, LinkTick(t)) == Next(s, LinkTick(t.(answer := NoAnswer)))
  {
    if s.pipe.slot.phase == Pending {
      SequenceUnique(t.answers, s.frames + 1);
    } else if s.pipe.slot.phase == Awaiting {
      SequenceUnique(t.answers, s.motor.reqFrame);
    }
  }

  /** A frame that carries a request leaves it unanswered: no reply is due before the next
      frame, and the timeout cannot have passed. */
  lemma SentStaysOpen(s: Sys, t: TickEvent)
    requires s.Valid() && InStep(s) && t.transmits && ValidStep(LinkTick(t)) && Timely(s, t)
    requires s.pipe.slot.phase == Pending
    ensures Next(s, LinkTick(t)).pipe.slot == Sent(s.pipe.slot, (s.frames + 1) % TWO_16, t.sendTime)
  {
    hide TimeAfter, Clock;
    if t.answer.Answer? { LateAnswerIgnored(s, t); }
    TimeAfterIsLater(t.endTime, t.sendTime + OD_RESPONSE_TIMEOUT_MS);
  }

  lemma LinkTickInStep(s: Sys, t: TickEvent)
    requires s.Valid() && InStep(s) && t.transmits && ValidStep(LinkTick(t)) && Timely(s, t)
    ensures InStep(Next(s, LinkTick(t)))
  {
    hide TimeAfter, Clock;
    if s.pipe.slot.phase == Pending { SentStaysOpen(s, t); }
  }

  lemma StepInStep(s: Sys, e: Step)
    requires s.Valid() && ValidStep(e) && InStep(s) && TimelyStep(s, e)
    ensures InStep(Next(s, e))
  {
    if e.LinkTick? {
      if e.t.transmits { LinkTickInStep(s, e.t); }
    } else {
      hide Next;
      OtherStep(s, e);
    }
  }

  lemma {:induction false} EveryRunInStep(s: Sys, run: seq<Step>)
    requires s.Valid() && Initial(s) && ValidRun(run) && TimelyRun(s, run)
    ensures InStep(After(s, run))
    decreases |run|
  {
    hide Next, InStep, TimelyStep;
    if run == [] {
      InitialLinked(s);
    } else {
      EveryRunInStep(s, run[..|run| - 1]);
      StepInStep(After(s, run[..|run| - 1]), run[|run| - 1]);
    }
  }

  lemma LinkTickLinked(s: Sys, t: TickEvent)
    requires s.Valid() && Linked(s) && t.transmits && ValidStep(LinkTick(t)) && Honest(s, t)
    ensures Linked(Next(s, LinkTick(t)))
  {
    hide TimeAfter, Clock, OfCache;
    if s.pipe.slot.phase == Pending {
      SentStaysOpen(s, t);
    } else if s.pipe.slot.phase == Awaiting && t.answer.Answer? && t.answers != s.motor.reqFrame {
      LateAnswerIgnored(s, t);
    }
  }

  lemma StepLinked(s: Sys, e: Step)
    requires s.Valid() && ValidStep(e) && Linked(s) && HonestStep(s, e)
    ensures Linked(Next(s, e))
  {
    hide OfCache;
    if e.LinkTick? {
      if e.t.transmits { LinkTickLinked(s, e.t); }
    } else {
      hide Next;
      OtherStep(s, e);
    }
  }

  lemma {:induction false} EveryRunLinked(s: Sys, run: seq<Step>)
    requires s.Valid() && Initial(s) && ValidRun(run) && HonestRun(s, run)
    ensures Linked(After(s, run))
    decreases |run|
  {
    hide Next, Linked, HonestStep;
    if run == [] {
      InitialLinked(s);
    } else {
      EveryRunLinked(s, run[..|run| - 1]);
      StepLinked(After(s, run[..|run| - 1]), run[|run| - 1]);
    }
  }

  lemma InitialLinked(s: Sys)
    requires Initial(s)
    ensures InStep(s) && Linked(s)
  {
  }

  lemma SilentTick(s: Sys, t: TickEvent)
    requires s.Valid() && ValidStep(LinkTick(t)) && !t.transmits
    ensures Next(s, LinkTick(t)) == s
  {
  }

  // ----- Main results -----

  /** In every run, an answer that is not for the request in the slot (late, repeated, for one
      that timed out, or an error report about a cyclic command) has no effect at all. */
  lemma NoLateCompletion(s: Sys, run: seq<Step>, t: TickEvent)
    requires s.Valid() && Initial(s) && ValidRun(run) && TimelyRun(s, run)
    requires ValidStep(LinkTick(t)) && t.transmits && Timely(After(s, run), t) && t.answer.Answer?
    requires t.answers != After(s, run).motor.reqFrame || After(s, run).pipe.slot.phase != Awaiting
    ensures Next(After(s, run), LinkTick(t)) == Next(After(s, run), LinkTick(t.(answer := NoAnswer)))
  {
    hide Next, InStep;
    EveryRunInStep(s, run);
    LateAnswerIgnored(After(s, run), t);
  }

  /** In every run, an open request is answered by its own answer at once, and without one
      fails at the first frame that ends later than 30 ms (and less than 2^31 ms) after it
      was sent, and not before. */
  lemma OpenRequestEnds(s: Sys, run: seq<Step>, t: TickEvent)
    requires s.Valid() && Initial(s) && ValidRun(run) && TimelyRun(s, run)
    requires ValidStep(LinkTick(t)) && t.transmits && Timely(After(s, run), t)
    requires var m := After(s, run); m.pipe.slot.phase == Awaiting && m.motor.reqTime <= t.endTime < m.motor.reqTime + TWO_31
    ensures var m := After(s, run);
      var slot := Next(m, LinkTick(t)).pipe.slot;
      if t.answer.Answer? && t.answers == m.motor.reqFrame then
        slot.phase == Complete && slot.result == t.answer.result && slot.resp == t.answer.data
      else if t.endTime > m.motor.reqTime + 30 then
        slot.phase == Complete && slot.result == 8
      else slot == m.pipe.slot
  {
    hide After, TimelyRun, TimeAfter;
    EveryRunInStep(s, run);
    var m := After(s, run);
    if t.answer.Answer? && t.answers != m.motor.reqFrame { LateAnswerIgnored(m, t); }
    TimeAfterIsLater(t.endTime, m.motor.reqTime + OD_RESPONSE_TIMEOUT_MS);
  }

  /** No frame is sent in these steps. */
  ghost predicate Silent(between: seq<Step>) {
    forall i :: 0 <= i < |between| ==> between[i].LinkTick? ==> !between[i].t.transmits
  }

  /** No two consecutive frames are requests: whatever calls come between a frame that
      carried a request and the next transmitted frame, that one is a cyclic command. */
  lemma RequestThenCyclic(s: Sys, t: TickEvent, between: seq<Step>)
    requires s.Valid() && InStep(s) && ValidStep(LinkTick(t)) && t.transmits && Timely(s, t) && s.pipe.slot.phase == Pending
    requires ValidRun(between) && Silent(between)
    ensures After(Next(s, LinkTick(t)), between).pipe.slot.phase == Awaiting
  {
    hide Next;
    SentStaysOpen(s, t);
    OpenSlotsStay(Next(s, LinkTick(t)), between);
  }

  lemma {:induction false} OpenSlotsStay(s: Sys, between: seq<Step>)
    requires s.Valid() && ValidRun(between) && Silent(between) && s.pipe.slot.phase == Awaiting
    ensures After(s, between).pipe == s.pipe
    decreases |between|
  {
    hide Next;
    if between != [] {
      var n := |between| - 1;
      OpenSlotsStay(s, between[..n]);
      OpenSlotStays(After(s, between[..n]), between[n]);
    }
  }

  lemma OpenSlotStays(s: Sys, e: Step)
    requires s.Valid() && ValidStep(e) && (e.LinkTick? ==> !e.t.transmits) && s.pipe.slot.phase == Awaiting
    ensures Next(s, e).pipe == s.pipe
  {
    if !e.LinkTick? {
      hide Next;
      OtherStep(s, e);
    }
  }
}
