/**
 * The UDP bridge end to end: every motor request it accepts is sent to the motor once,
 * exchanged once and answered once, to its own sender, with the outcome of its own exchange.
 */
module Ledger {
  import opened Bytes
  import opened Bridge
  import opened Ownership
  import opened Pipeline
  import opened Replies
  import opened System
  import opened Time
  import Q = SetupSequencer
  import Proxy = ProxyCache
  import Seq = Sequencers

  /** A request as it left in a frame, and how its exchange ended: with the answer to the
      request of a given frame, or with the timeout. */
  datatype Carried = Carried(req: Request, frame: nat)
  datatype Outcome = Answered(frame: nat, result: nat, data: seq<byte>) | TimedOut

  /** A timeout counts as MC_IF_OD_ERR_NOT_READY. */
  function ResultOf(o: Outcome): nat { if o.TimedOut? then 8 else o.result }
  function DataOf(o: Outcome): seq<byte> { if o.TimedOut? then [] else o.data }

  /** What an observer of the bridge writes down, each in order. */
  datatype Book = Book(accepted: seq<Ticket>, carried: seq<Carried>, outcomes: seq<Outcome>, sent: seq<Datagram>)

  const START := Book([], [], [], [])

  ghost predicate Accepts(s: Sys, e: Step)
    requires s.Valid() && ValidStep(e)
  {
    e.Receive? && Next(s, e).pipe != s.pipe
  }

  /** The slot is the bridge's. */
  predicate Mine(s: Sys) { s.bridge.Hold() != NO_HANDLE && s.bridge.Hold() == s.pipe.slot.handle }

  function OutcomeOf(s: Sys, t: TickEvent): Outcome {
    if t.answer.Answer? && s.pipe.slot.phase == Awaiting && t.answer.sequence == s.pipe.slot.reqSeq
    then Answered(t.answers, t.answer.result, t.answer.data)
    else TimedOut
  }

  ghost function Exchanged(s: Sys, b: Book, t: TickEvent): Book
    requires s.Valid() && ValidStep(LinkTick(t))
  {
    var before, after := s.pipe.slot.phase, Next(s, LinkTick(t)).pipe.slot.phase;
    if !Mine(s) then b
    else if before == Pending && after != Pending then b.(carried := b.carried + [Carried(s.pipe.slot.req, s.frames + 1)])
    else if before == Awaiting && after == Complete then b.(outcomes := b.outcomes + [OutcomeOf(s, t)])
    else b
  }

  ghost function Recorded(s: Sys, b: Book, e: Step): Book
    requires s.Valid() && ValidStep(e)
  {
    if Accepts(s, e) then b.(accepted := b.accepted + [Next(s, e).bridge.ticket])
    else if e.Service? then b.(sent := b.sent + Bridge.Service(s.pipe, s.bridge).2)
    else if e.LinkTick? then Exchanged(s, b, e.t)
    else b
  }

  ghost function Books(s: Sys, run: seq<Step>): Book
    requires s.Valid() && ValidRun(run)
  {
    if run == [] then START
    else Recorded(After(s, run[..|run| - 1]), Books(s, run[..|run| - 1]), run[|run| - 1])
  }

  /** The i-th response answers the i-th request with the i-th outcome, and the i-th request
      sent to the motor is the i-th accepted. */
  ghost predicate InOrder(b: Book) {
    && |b.sent| <= |b.outcomes| <= |b.carried| <= |b.accepted| <= |b.sent| + 1
    && (forall i :: 0 <= i < |b.sent| ==> 
      Answers(b.sent[i], b.accepted[i], b.accepted[i].req.typ, ResultOf(b.outcomes[i]), DataOf(b.outcomes[i])))
    && (forall i :: 0 <= i < |b.carried| ==> b.carried[i].req == b.accepted[i].req)
    && (forall i :: 0 <= i < |b.outcomes| ==> b.outcomes[i].TimedOut? || b.outcomes[i].frame == b.carried[i].frame)
  }

  /** How far the request in the bridge has come. */
  ghost predicate AtStage(s: Sys, b: Book) {
    var n, slot := |b.sent|, s.pipe.slot;
    if s.bridge.Hold() == NO_HANDLE then |b.accepted| == n
    else
      && |b.accepted| == n + 1 && b.accepted[n] == s.bridge.ticket
      && (slot.phase == Pending ==> |b.carried| == n)
      && (slot.phase == Awaiting || slot.phase == Complete ==>
        |b.carried| == n + 1 && b.carried[n].frame == s.motor.reqFrame)
      && (slot.phase == Awaiting ==> |b.outcomes| == n)
      && (slot.phase == Complete ==>
        |b.outcomes| == n + 1 && ResultOf(b.outcomes[n]) == slot.result && DataOf(b.outcomes[n]) == slot.resp)
  }

  ghost predicate Kept(s: Sys, b: Book) {
    InOrder(b) && AtStage(s, b) && (s.bridge.inFlight ==> s.bridge.handle != NO_HANDLE)
  }

  // ----- Steps -----

  lemma AcceptKept(s: Sys, b: Book, e: Step)
    requires s.Valid() && ValidStep(e) && (Owned(s) || Orphaned(s)) && Kept(s, b) && e.Receive?
    ensures Kept(Next(s, e), Recorded(s, b, e))
  {
    hide Owned, DecodeReq, LocalResponse, Answers;
    AcceptParts(s, e);
  }

  lemma AcceptParts(s: Sys, e: Step)
    requires s.Valid() && ValidStep(e) && e.Receive?
    ensures var t := Next(s, e);
      && t.motor == s.motor
      && (!Accepts(s, e) ==> t.pipe == s.pipe && t.bridge == s.bridge)
      && (Accepts(s, e) ==> !s.bridge.inFlight && t.pipe.slot.phase == Pending && t.bridge.inFlight && t.bridge.handle != NO_HANDLE)
  {
    hide DecodeReq, LocalResponse;
  }

  lemma ServeKept(s: Sys, b: Book)
    requires s.Valid() && (Owned(s) || Orphaned(s)) && Kept(s, b)
    ensures Kept(Next(s, Service), Recorded(s, b, Service))
  {
    hide Owned, Answers, Response;
    assert b.sent + [] == b.sent;
    if s.bridge.inFlight { ResponseAnswers(s.bridge.ticket, s.pipe.slot.result, s.pipe.slot.resp); }
  }

  lemma ResponseAnswers(t: Ticket, result: nat, data: seq<byte>)
    ensures Answers(Response(t, result, data), t, t.req.typ, result, data)
  {
  }

  lemma LinkKept(s: Sys, b: Book, t: TickEvent)
    requires s.Valid() && (Owned(s) || Orphaned(s)) && InStep(s) && Kept(s, b)
    requires ValidStep(LinkTick(t)) && t.transmits && Timely(s, t)
    ensures Kept(Next(s, LinkTick(t)), Recorded(s, b, LinkTick(t)))
  {
    hide Owned, Answers, Exchange, Timely, InStep;
    ExchangeKeeps(s.pipe.slot, (s.frames + 1) % TWO_16, t.sendTime, t.endTime, t.answer);
    if s.bridge.Hold() != NO_HANDLE {
      BridgeHolds(s);
      if s.pipe.slot.phase == Pending { SentStaysOpen(s, t); }
      if s.pipe.slot.phase == Awaiting { AwaitingEnds(s, t); }
    }
  }

  lemma BridgeHolds(s: Sys)
    requires s.Valid() && (Owned(s) || Orphaned(s)) && s.bridge.Hold() != NO_HANDLE
    ensures Mine(s) && !s.pipe.slot.phase.Idle? && s.pipe.slot.req == s.bridge.ticket.req
  {
    assert Hold(s, UdpBridge) != NO_HANDLE;
    var c :| HeldBy(s, c);
    assert c == UdpBridge && Fits(s, UdpBridge);
  }

  lemma AwaitingEnds(s: Sys, t: TickEvent)
    requires s.Valid() && InStep(s) && ValidStep(LinkTick(t)) && t.transmits && Timely(s, t) && s.pipe.slot.phase == Awaiting
    ensures var after, o := Next(s, LinkTick(t)).pipe.slot, OutcomeOf(s, t);
      && (after.phase == Awaiting || after.phase == Complete)
      && (after.phase == Complete ==> ResultOf(o) == after.result && DataOf(o) == after.resp)
      && (o.Answered? ==> o.frame == s.motor.reqFrame)
  {
    hide TimeAfter;
    if OutcomeOf(s, t).Answered? { SequenceUnique(t.answers, s.motor.reqFrame); }
  }

  lemma OtherKept(s: Sys, b: Book, e: Step)
    requires s.Valid() && ValidStep(e) && !e.LinkTick? && !e.Receive? && !e.Service? && (Owned(s) || Orphaned(s)) && Kept(s, b)
    ensures Kept(Next(s, e), b)
  {
    hide Next, Owned, InOrder;
    OtherStepMotor(s, e);
    BridgeUnchanged(s, e);
    if s.bridge.Hold() != NO_HANDLE {
      assert Hold(s, UdpBridge) != NO_HANDLE && !NoneHolds(s);
      OthersLeaveSlot(s, e, UdpBridge);
    }
  }

  lemma BridgeUnchanged(s: Sys, e: Step)
    requires s.Valid() && ValidStep(e) && !e.Receive? && !e.Service?
    ensures Next(s, e).bridge == s.bridge
  {
    hide Recap, Compose, Proxy.Set, Proxy.RequestResync, Seq.RequestSave, Seq.RequestHome, Exchange, MotorAfter;
    hide Q.Tick, Proxy.Tick, Proxy.BootTick, Seq.LoadTick, Seq.SetLoad, Seq.SaveTick, Seq.HomeTick;
  }

  lemma StepKept(s: Sys, b: Book, e: Step)
    requires s.Valid() && ValidStep(e) && TimelyStep(s, e) && (Owned(s) || Orphaned(s)) && InStep(s) && Kept(s, b)
    ensures Kept(Next(s, e), Recorded(s, b, e))
  {
    hide Owned, Orphaned, InStep, Timely, Kept, Next;
    match e
    case Receive(_, _, _, _) => AcceptKept(s, b, e);
    case Service => ServeKept(s, b);
    case LinkTick(t) => if t.transmits { LinkKept(s, b, t); } else { SilentTick(s, t); }
    case _ => OtherKept(s, b, e);
  }

  // ----- Main results -----

  /** In every run, whatever the other six clients do and whatever the answers say. */
  lemma {:induction false} EveryRequestAnsweredOnce(s: Sys, run: seq<Step>)
    requires s.Valid() && Initial(s) && ValidRun(run) && TimelyRun(s, run)
    ensures Kept(After(s, run), Books(s, run))
    decreases |run|
  {
    hide Next, Owned, Orphaned, InStep, TimelyStep, Kept, Recorded;
    if run == [] {
      InitialKept(s);
    } else {
      var prefix := run[..|run| - 1];
      EveryRequestAnsweredOnce(s, prefix);
      EveryRunOwned(s, prefix);
      EveryRunInStep(s, prefix);
      StepKept(After(s, prefix), Books(s, prefix), run[|run| - 1]);
    }
  }

  lemma InitialKept(s: Sys)
    requires s.Valid() && Initial(s)
    ensures Kept(s, START)
  {
  }

  /** A malformed message gets its error and a local request its local answer at once. A request
      for the motor that repeats sender and number of the one in flight does nothing at all; it
      is accepted if none is in flight and the slot is free, and refused as queue full if not. */
  lemma EveryMessageHasOneFate(s: Sys, e: Step)
    requires s.Valid() && ValidStep(e) && e.Receive?
    ensures var out, u := Bridge.Receive(s.pipe, s.bridge, e.peer, e.sequence, e.message, e.local).2, s.bridge;
      match DecodeReq(e.message)
      case Malformed(class_, detail) => !Accepts(s, e) && out == [ErrorResponse(e.peer, e.sequence, class_, detail)]
      case Local(req) =>
        && !Accepts(s, e) && |out| == 1
        && Answers(out[0], Ticket(e.peer, e.sequence, req), if e.local.result == 0 then e.local.typ else req.typ, e.local.result, e.local.data)
      case ForMotor(req) =>
        var repeats := u.inFlight && u.ticket.peer == e.peer && u.ticket.sequence == e.sequence;
        && (repeats ==> out == [] && Next(s, e) == s)
        && (Accepts(s, e) <==> !u.inFlight && s.pipe.slot.phase == Idle)
        && (Accepts(s, e) ==> out == [] && Next(s, e).bridge.ticket == Ticket(e.peer, e.sequence, req))
        && (!Accepts(s, e) && !repeats ==> out == [ErrorResponse(e.peer, e.sequence, 9, 1)])
  {
    hide DecodeReq;
  }
}
