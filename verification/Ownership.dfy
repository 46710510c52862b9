/**
 * Who owns the SDO slot. No lock protects it; over every interleaving of its seven clients
 * the slot is idle when no client holds a handle, and otherwise exactly one client does,
 * its handle is the slot's and the slot carries its request. One call breaks this for good:
 * the motor-save timeout, which forgets a handle it never polled.
 */
module Ownership {
  import opened Pipeline
  import opened Scaling
  import opened System
  import opened Time
  import Sequencer = SetupSequencer
  import Proxy = ProxyCache
  import Seq = Sequencers
  import Bridge

  datatype Client = SetupWriter | LoadWriter | ProxyWriter | Resync | MotorSave | Homing | UdpBridge

  /** The handle a client waits for, or 0. */
  function Hold(s: Sys, c: Client): int {
    match c
    case SetupWriter => s.setup.Hold()
    case LoadWriter => s.load.Hold()
    case ProxyWriter => s.proxy.Hold()
    case Resync => s.boot.Hold()
    case MotorSave => s.save.Hold()
    case Homing => s.home.Hold()
    case UdpBridge => s.bridge.Hold()
  }

  // The request in the slot is the one the client's own state says it issued.

  ghost predicate SetupFits(q: Sequencer.Sequencer, r: Request) {
    1 <= q.step <= Sequencer.LAST_STEP && !r.isRead &&
    r.index == Sequencer.SetupIndex(q.step) && r.sub == 0 && r.typ == Sequencer.SetupType(q.step)
  }

  ghost predicate LoadFits(r: Request) { exists v :: r == Seq.LoadWrite(v) }

  ghost predicate ProxyFits(x: Proxy.Proxy, r: Request)
    requires x.Valid()
  {
    exists v :: r == Proxy.WriteOf(x.inflight, v)
  }

  ghost predicate ResyncFits(b: Proxy.Boot, r: Request)
    requires b.Valid()
  {
    r == Proxy.ReadOf(b.inflight)
  }

  ghost predicate HomeFits(r: Request) { r == Seq.HomeWrite() || r == Seq.HomeRead() || r == Seq.FaultRead() }

  ghost predicate Fits(s: Sys, c: Client)
    requires s.Valid()
  {
    var r := s.pipe.slot.req;
    match c
    case SetupWriter => SetupFits(s.setup, r)
    case LoadWriter => LoadFits(r)
    case ProxyWriter => ProxyFits(s.proxy, r)
    case Resync => ResyncFits(s.boot, r)
    case MotorSave => r == Seq.SaveWrite()
    case Homing => HomeFits(r)
    case UdpBridge => r == s.bridge.ticket.req
  }

  ghost predicate HeldBy(s: Sys, c: Client)
    requires s.Valid()
  {
    && !s.pipe.slot.phase.Idle? && Hold(s, c) == s.pipe.slot.handle && Fits(s, c)
    && forall d: Client :: d != c ==> Hold(s, d) == NO_HANDLE
  }

  ghost predicate NoneHolds(s: Sys) { forall d: Client :: Hold(s, d) == NO_HANDLE }

  /** The invariant: idle and nobody waits, or exactly one client waits for its own request. */
  ghost predicate Owned(s: Sys)
    requires s.Valid()
  {
    if s.pipe.slot.phase.Idle? then NoneHolds(s) else exists c: Client :: HeldBy(s, c)
  }

  /** Busy with the save command, and nobody will ever poll it. */
  ghost predicate Orphaned(s: Sys) { !s.pipe.slot.phase.Idle? && NoneHolds(s) && s.pipe.slot.req == Seq.SaveWrite() }

  /** The one call that loses a handle: motor save times out while its write is in the slot. */
  ghost predicate Abandons(s: Sys, e: Step) {
    e.SaveTick? && s.save.state == Seq.WritingSdo && s.save.handle != NO_HANDLE && Seq.SaveTimedOut(s.save, e.now)
  }

  // ----- One client at a time -----

  /** What a client may do to the slot: from (p, h) to (q, g), fits saying that the slot's
      request is the client's. A busy slot it does not hold it leaves alone. */
  ghost predicate Moves(p: Pipe, h: int, q: Pipe, g: int, fits: bool) {
    if h == NO_HANDLE && !p.slot.phase.Idle? then q == p && g == NO_HANDLE
    else if q.slot.phase.Idle? then g == NO_HANDLE
    else g == q.slot.handle && fits
  }

  ghost predicate Consistent(p: Pipe, h: int, fits: bool) {
    h == NO_HANDLE || (h == p.slot.handle && fits)
  }

  lemma SetupMoves(p: Pipe, q: Sequencer.Sequencer, desired: Setup)
    requires p.Valid() && q.Valid() && Consistent(p, q.Hold(), SetupFits(q, p.slot.req))
    ensures var r := Sequencer.Tick(p, q, desired);
      Moves(p, q.Hold(), r.0, r.1.Hold(), SetupFits(r.1, r.0.slot.req))
  {
    hide Sequencer.Encode, Sequencer.SetupIndex;
  }

  lemma LoadMoves(p: Pipe, l: Seq.Load, v: f32)
    requires p.Valid() && Consistent(p, l.Hold(), LoadFits(p.slot.req))
    ensures var r := Seq.LoadTick(p, l); Moves(p, l.Hold(), r.0, r.1.Hold(), LoadFits(r.0.slot.req))
    ensures var r := Seq.SetLoad(p, l, v); Moves(p, l.Hold(), r.0, r.1.Hold(), LoadFits(r.0.slot.req))
  {
    hide Seq.LoadWrite, Seq.LoadInRange;
    var r := Seq.SetLoad(p, l, v);
    if r.0 != p { assert r.0.slot.req == Seq.LoadWrite(v); }
  }

  lemma ProxyMoves(p: Pipe, x: Proxy.Proxy)
    requires p.Valid() && x.Valid() && Consistent(p, x.Hold(), ProxyFits(x, p.slot.req))
    ensures var r := Proxy.Tick(p, x); Moves(p, x.Hold(), r.0, r.1.Hold(), ProxyFits(r.1, r.0.slot.req))
  {
    hide Proxy.WriteOf, Proxy.NextDirty;
    var d := Proxy.Drain(p, x);
    var r := Proxy.Start(d.0, d.1);
    if r != d { assert r.0.slot.req == Proxy.WriteOf(r.1.inflight, d.1.slots[r.1.inflight].value); }
  }

  lemma ResyncMoves(p: Pipe, b: Proxy.Boot, x: Proxy.Proxy, now: nat)
    requires p.Valid() && b.Valid() && x.Valid() && Consistent(p, b.Hold(), ResyncFits(b, p.slot.req))
    ensures var r := Proxy.BootTick(p, b, x, now); Moves(p, b.Hold(), r.0, r.1.Hold(), ResyncFits(r.1, r.0.slot.req))
    ensures Proxy.BootTick(p, b, x, now).2.Hold() == x.Hold()
    ensures Proxy.BootTick(p, b, x, now).2.inflight == x.inflight
  {
    hide Proxy.Adopt, Proxy.ReadOf, Elapsed;
  }

  lemma SaveMoves(p: Pipe, m: Seq.Save, enabled: bool, now: nat)
    requires p.Valid() && Consistent(p, m.Hold(), p.slot.req == Seq.SaveWrite())
    requires !(m.Hold() != NO_HANDLE && Seq.SaveTimedOut(m, now))
    ensures var r := Seq.SaveTick(p, m, enabled, now); Moves(p, m.Hold(), r.0, r.1.Hold(), r.0.slot.req == Seq.SaveWrite())
  {
    hide Elapsed, Seq.SaveTimedOut;
  }

  lemma HomeMoves(p: Pipe, h: Seq.Home, now: nat)
    requires p.Valid() && Consistent(p, h.Hold(), HomeFits(p.slot.req))
    ensures var r := Seq.HomeTick(p, h, now); Moves(p, h.Hold(), r.0, r.1.Hold(), HomeFits(r.0.slot.req))
  {
    hide Elapsed, Seq.HomeReply, Seq.HomeTimedOut, Seq.HomeWrite, Seq.HomeRead, Seq.FaultRead;
    var k := Seq.Kick(p, h);
    HomeReplyKeepsHandle(h, now);
  }

  lemma HomeReplyKeepsHandle(h: Seq.Home, now: nat)
    ensures forall g: Seq.Home, r, d | g.state in {Seq.WritingCmd, Seq.PollingStatus, Seq.ReadingFault} ::
      Seq.HomeReply(g, r, d, now).handle == g.handle
  {
  }

  lemma ReceiveMoves(p: Pipe, u: Bridge.Queue, peer: Bridge.Peer, sequence: nat, m: Bridge.Incoming, l: Bridge.LocalResult)
    requires p.Valid() && Consistent(p, u.Hold(), p.slot.req == u.ticket.req)
    ensures var r := Bridge.Receive(p, u, peer, sequence, m, l); Moves(p, u.Hold(), r.0, r.1.Hold(), r.0.slot.req == r.1.ticket.req)
  {
    hide Bridge.DecodeReq, Bridge.LocalResponse;
  }

  lemma ServiceMoves(p: Pipe, u: Bridge.Queue)
    requires p.Valid() && Consistent(p, u.Hold(), p.slot.req == u.ticket.req)
    ensures var r := Bridge.Service(p, u); Moves(p, u.Hold(), r.0, r.1.Hold(), r.0.slot.req == r.1.ticket.req)
  {
    hide Bridge.Response;
  }

  // ----- The whole system -----

  /** Only client c's part and the slot change. */
  ghost predicate OthersKept(s: Sys, t: Sys, c: Client)
    requires s.Valid() && t.Valid()
  {
    forall d: Client :: d != c ==> Hold(t, d) == Hold(s, d) && (t.pipe == s.pipe ==> Fits(t, d) == Fits(s, d))
  }

  /** Client c's own move within a step of the system. */
  ghost predicate Moved(s: Sys, t: Sys, c: Client)
    requires s.Valid() && t.Valid()
  {
    OthersKept(s, t, c) && Moves(s.pipe, Hold(s, c), t.pipe, Hold(t, c), Fits(t, c))
  }

  lemma OwnedAfterMove(s: Sys, t: Sys, c: Client)
    requires s.Valid() && t.Valid() && Moved(s, t, c)
    ensures Owned(s) ==> Owned(t)
    ensures Orphaned(s) ==> Orphaned(t)
  {
    hide Hold, Fits;
    if Owned(s) && !s.pipe.slot.phase.Idle? {
      var d :| HeldBy(s, d);
      if d != c { assert HeldBy(t, d); } else if !t.pipe.slot.phase.Idle? { assert HeldBy(t, c); }
    } else if Owned(s) && !t.pipe.slot.phase.Idle? {
      assert HeldBy(t, c);
    }
  }

  /** The owner's view of the slot, needed before its own move. */
  lemma OwnedConsistent(s: Sys, c: Client)
    requires s.Valid() && (Owned(s) || Orphaned(s))
    ensures Consistent(s.pipe, Hold(s, c), Fits(s, c))
  {
    hide Hold, Fits;
  }

  /** Steps that touch neither the slot nor what any client remembers of its request. */
  lemma OwnedKept(s: Sys, t: Sys)
    requires s.Valid() && t.Valid() && t.pipe.slot.handle == s.pipe.slot.handle
    requires (t.pipe.slot.phase.Idle? <==> s.pipe.slot.phase.Idle?) && t.pipe.slot.req == s.pipe.slot.req
    requires forall d: Client :: Hold(t, d) == Hold(s, d) && Fits(t, d) == Fits(s, d)
    ensures Owned(s) ==> Owned(t)
    ensures Orphaned(s) ==> Orphaned(t)
  {
    hide Hold, Fits;
    if Owned(s) && !s.pipe.slot.phase.Idle? {
      var d :| HeldBy(s, d);
      assert HeldBy(t, d);
    }
  }

  /** The client a step belongs to, for the steps that run a client. */
  ghost predicate Runs(e: Step, c: Client) {
    match c
    case SetupWriter => e.SetupTick?
    case LoadWriter => e.LoadTick? || e.SetLoad?
    case ProxyWriter => e.ProxyTick?
    case Resync => e.BootTick?
    case MotorSave => e.SaveTick?
    case Homing => e.HomeTick?
    case UdpBridge => e.Receive? || e.Service?
  }

  lemma SameInflight(x: Proxy.Proxy, y: Proxy.Proxy, r: Request)
    requires x.Valid() && y.Valid() && x.inflight == y.inflight
    ensures ProxyFits(x, r) <==> ProxyFits(y, r)
  {
  }

  lemma SetupStep(s: Sys)
    requires s.Valid() && Consistent(s.pipe, Hold(s, SetupWriter), Fits(s, SetupWriter))
    ensures Moved(s, Next(s, SetupTick), SetupWriter)
  {
    hide Moves, Consistent, SetupFits, LoadFits, ProxyFits, ResyncFits, HomeFits, Sequencer.Tick, ComputeDesired;
    SetupMoves(s.pipe, s.setup, s.Desired());
  }

  lemma LoadStep(s: Sys, v: f32)
    requires s.Valid() && Consistent(s.pipe, Hold(s, LoadWriter), Fits(s, LoadWriter))
    ensures Moved(s, Next(s, LoadTick), LoadWriter) && Moved(s, Next(s, SetLoad(v)), LoadWriter)
  {
    hide Moves, Consistent, SetupFits, LoadFits, ProxyFits, ResyncFits, HomeFits, Seq.LoadTick, Seq.SetLoad;
    LoadMoves(s.pipe, s.load, v);
  }

  lemma ProxyStep(s: Sys)
    requires s.Valid() && Consistent(s.pipe, Hold(s, ProxyWriter), Fits(s, ProxyWriter))
    ensures Moved(s, Next(s, ProxyTick), ProxyWriter)
  {
    hide Moves, Consistent, SetupFits, LoadFits, ProxyFits, ResyncFits, HomeFits, Proxy.Tick;
    ProxyMoves(s.pipe, s.proxy);
  }

  lemma ResyncStep(s: Sys, now: nat)
    requires s.Valid() && Consistent(s.pipe, Hold(s, Resync), Fits(s, Resync))
    ensures Moved(s, Next(s, BootTick(now)), Resync)
  {
    hide Moves, Consistent, SetupFits, LoadFits, ProxyFits, ResyncFits, HomeFits, Proxy.BootTick, MaxVelocity;
    ResyncMoves(s.pipe, s.boot, s.proxy, now);
    SameInflight(s.proxy, Next(s, BootTick(now)).proxy, s.pipe.slot.req);
  }

  lemma SaveStep(s: Sys, now: nat)
    requires s.Valid() && Consistent(s.pipe, Hold(s, MotorSave), Fits(s, MotorSave)) && !Abandons(s, SaveTick(now))
    ensures Moved(s, Next(s, SaveTick(now)), MotorSave)
  {
    hide Moves, Consistent, SetupFits, LoadFits, ProxyFits, ResyncFits, HomeFits, Seq.SaveTick, Seq.SaveTimedOut;
    SaveMoves(s.pipe, s.save, s.drive.enable, now);
  }

  lemma HomeStep(s: Sys, now: nat)
    requires s.Valid() && Consistent(s.pipe, Hold(s, Homing), Fits(s, Homing))
    ensures Moved(s, Next(s, HomeTick(now)), Homing)
  {
    hide Moves, Consistent, SetupFits, LoadFits, ProxyFits, ResyncFits, HomeFits, Seq.HomeTick;
    HomeMoves(s.pipe, s.home, now);
  }

  lemma ReceiveStep(s: Sys, peer: Bridge.Peer, sequence: nat, m: Bridge.Incoming, l: Bridge.LocalResult)
    requires s.Valid() && Consistent(s.pipe, Hold(s, UdpBridge), Fits(s, UdpBridge))
    ensures Moved(s, Next(s, Receive(peer, sequence, m, l)), UdpBridge)
  {
    hide Moves, Consistent, SetupFits, LoadFits, ProxyFits, ResyncFits, HomeFits, Bridge.Receive, Bridge.Service;
    ReceiveMoves(s.pipe, s.bridge, peer, sequence, m, l);
  }

  lemma ServiceStep(s: Sys)
    requires s.Valid() && Consistent(s.pipe, Hold(s, UdpBridge), Fits(s, UdpBridge))
    ensures Moved(s, Next(s, Service), UdpBridge)
  {
    hide Moves, Consistent, SetupFits, LoadFits, ProxyFits, ResyncFits, HomeFits, Bridge.Receive, Bridge.Service;
    ServiceMoves(s.pipe, s.bridge);
  }

  lemma ClientStep(s: Sys, e: Step, c: Client)
    requires s.Valid() && ValidStep(e) && Runs(e, c) && (Owned(s) || Orphaned(s)) && !Abandons(s, e)
    ensures Moved(s, Next(s, e), c)
  {
    hide Moved, Consistent, Next, Fits, Hold, Abandons;
    OwnedConsistent(s, c);
    match e
    case SetupTick => SetupStep(s);
    case LoadTick => LoadStep(s, 0);
    case SetLoad(v) => LoadStep(s, v);
    case ProxyTick => ProxyStep(s);
    case BootTick(now) => ResyncStep(s, now);
    case SaveTick(now) => SaveStep(s, now);
    case HomeTick(now) => HomeStep(s, now);
    case Receive(peer, sq, m, l) => ReceiveStep(s, peer, sq, m, l);
    case Service => ServiceStep(s);
  }

  /** Setters and requests leave the slot and every client's memory of its request alone. */
  lemma QuietStep(s: Sys, e: Step)
    requires s.Valid() && ValidStep(e) && !e.LinkTick? && forall c: Client :: !Runs(e, c)
    ensures Next(s, e).pipe == s.pipe
    ensures forall d: Client :: Hold(Next(s, e), d) == Hold(s, d) && Fits(Next(s, e), d) == Fits(s, d)
  {
    hide Next, SetupFits, LoadFits, HomeFits, ProxyFits;
    QuietParts(s, e);
    SameInflight(s.proxy, Next(s, e).proxy, s.pipe.slot.req);
  }

  lemma QuietParts(s: Sys, e: Step)
    requires s.Valid() && ValidStep(e) && !e.LinkTick? && forall c: Client :: !Runs(e, c)
    ensures var t := Next(s, e);
      && t.pipe == s.pipe && t.setup == s.setup && t.load == s.load && t.bridge == s.bridge
      && t.proxy == s.proxy.(slots := t.proxy.slots) && t.boot.Hold() == s.boot.Hold() && t.boot.inflight == s.boot.inflight
      && t.save.Hold() == s.save.Hold() && t.home.handle == s.home.handle
  {
    hide Compose, ComputeDesired, MaxVelocity, Proxy.Settable, Proxy.Forwarded;
    hide Sequencer.Tick, Proxy.Tick, Proxy.BootTick, Seq.LoadTick, Seq.SetLoad, Seq.SaveTick, Seq.HomeTick, Bridge.Receive, Bridge.Service;
    assert !Runs(e, SetupWriter) && !Runs(e, LoadWriter) && !Runs(e, ProxyWriter) && !Runs(e, Resync);
    assert !Runs(e, MotorSave) && !Runs(e, Homing) && !Runs(e, UdpBridge);
  }

  lemma LinkStep(s: Sys, t: TickEvent)
    requires s.Valid() && ValidStep(LinkTick(t))
    ensures Owned(s) ==> Owned(Next(s, LinkTick(t)))
    ensures Orphaned(s) ==> Orphaned(Next(s, LinkTick(t)))
  {
    hide Exchange, MotorAfter, ProxyFits, LoadFits;
    ExchangeKeeps(s.pipe.slot, (s.frames + 1) % TWO_16, t.sendTime, t.endTime, t.answer);
    OwnedKept(s, Next(s, LinkTick(t)));
  }

  lemma AbandonedRequest(s: Sys, e: Step)
    requires s.Valid() && ValidStep(e) && Abandons(s, e)
    ensures Fits(s, MotorSave) ==> Next(s, e).pipe.slot.req == Seq.SaveWrite()
  {
  }

  /** The motor-save timeout: the slot stays busy, and now nobody holds it. */
  lemma AbandonedStep(s: Sys, e: Step)
    requires s.Valid() && ValidStep(e) && Owned(s) && Abandons(s, e)
    ensures Orphaned(Next(s, e))
  {
    hide Fits;
    var t := Next(s, e);
    assert Hold(s, MotorSave) != NO_HANDLE;
    assert HeldBy(s, MotorSave);
    assert Fits(s, MotorSave) ==> t.pipe.slot.req == Seq.SaveWrite() by { AbandonedRequest(s, e); }
    forall d: Client ensures Hold(t, d) == NO_HANDLE {
      assert d != MotorSave ==> Hold(t, d) == Hold(s, d);
    }
  }

  /** How it happens: the write starts just before the five seconds are up. */
  lemma SaveTimeoutOrphans(s: Sys, begun: nat, late: nat)
    requires s.Valid() && Owned(s) && s.pipe.slot.phase.Idle? && s.save.state == Seq.Disabling
    requires Elapsed(begun, s.save.startMs) <= Seq.MOTOR_SAVE_OVERALL_TIMEOUT_MS < Elapsed(late, s.save.startMs)
    requires Elapsed(begun, s.save.phaseMs) >= Seq.MOTOR_SAVE_DISABLE_MS
    ensures Orphaned(Next(Next(s, SaveTick(begun)), SaveTick(late)))
  {
    hide Fits, Owned, Orphaned;
    var t := Next(s, SaveTick(begun));
    StepKeepsOwner(s, SaveTick(begun));
    AbandonedStep(t, SaveTick(late));
  }

  /** One step of any kind keeps the invariant, and loses it only by abandoning a handle;
      a slot nobody holds stays that way. */
  lemma StepKeepsOwner(s: Sys, e: Step)
    requires s.Valid() && ValidStep(e) && (Owned(s) || Orphaned(s))
    ensures Orphaned(s) ==> Orphaned(Next(s, e))
    ensures Owned(s) ==> if Abandons(s, e) then Orphaned(Next(s, e)) else Owned(Next(s, e))
  {
    hide Next, Owned, Orphaned, Abandons;
    OrphanedNeverAbandons(s, e);
    if Abandons(s, e) {
      AbandonedStep(s, e);
    } else if c: Client :| Runs(e, c) {
      ClientStep(s, e, c);
      OwnedAfterMove(s, Next(s, e), c);
    } else if e.LinkTick? {
      LinkStep(s, e.t);
    } else {
      QuietStep(s, e);
      OwnedKept(s, Next(s, e));
    }
  }

  lemma OrphanedNeverAbandons(s: Sys, e: Step)
    ensures Orphaned(s) ==> !Abandons(s, e)
  {
    if Orphaned(s) { assert Hold(s, MotorSave) == NO_HANDLE; }
  }

  /** Some call in the run times out a motor save whose write is still in the slot. */
  ghost predicate EverAbandons(s: Sys, run: seq<Step>)
    requires s.Valid() && ValidRun(run)
  {
    run != [] &&
    (EverAbandons(s, run[..|run| - 1]) || Abandons(After(s, run[..|run| - 1]), run[|run| - 1]))
  }

  /** Every interleaving of the seven clients keeps the slot owned, exactly as long as no
      motor save abandons its handle; from then on it is busy with nobody to free it. */
  lemma {:induction false} EveryRunOwned(s: Sys, run: seq<Step>)
    requires s.Valid() && Initial(s) && ValidRun(run)
    ensures if EverAbandons(s, run) then Orphaned(After(s, run)) else Owned(After(s, run))
    decreases |run|
  {
    hide Next, Owned, Orphaned, Abandons, Initial;
    if run == [] {
      InitialOwned(s);
    } else {
      var n := |run| - 1;
      EveryRunOwned(s, run[..n]);
      StepKeepsOwner(After(s, run[..n]), run[n]);
    }
  }

  lemma InitialOwned(s: Sys)
    requires Initial(s)
    ensures Owned(s)
  {
    forall d: Client ensures Hold(s, d) == NO_HANDLE {}
  }

  /** Nobody else touches the slot its holder waits for. */
  lemma OthersLeaveSlot(s: Sys, e: Step, c: Client)
    requires s.Valid() && ValidStep(e) && Owned(s) && Hold(s, c) != NO_HANDLE && !e.LinkTick? && !Runs(e, c)
    ensures Next(s, e).pipe == s.pipe
  {
    hide Next, Fits, Hold;
    var d :| HeldBy(s, d);
    if Abandons(s, e) {
      hide *;
      AbandonKeepsSlot(s, e);
    } else if b: Client :| Runs(e, b) {
      ClientStep(s, e, b);
    } else {
      QuietStep(s, e);
    }
  }

  lemma AbandonKeepsSlot(s: Sys, e: Step)
    requires s.Valid() && ValidStep(e) && Abandons(s, e)
    ensures Next(s, e).pipe == s.pipe
  {
  }

  /** A completion reaches its issuer: whoever polls it holds the slot, alone, and the slot
      carried its request. */
  lemma CompletionReachesIssuer(s: Sys, c: Client)
    requires s.Valid() && (Owned(s) || Orphaned(s)) && Poll(s.pipe, Hold(s, c)).1.Done?
    ensures HeldBy(s, c)
  {
    hide Hold, Fits;
    var d :| HeldBy(s, d);
  }

  // ----- Homing, exactly -----

  /** Homing waits in one of its three states, for the request of that state. */
  ghost predicate HomeExact(p: Pipe, h: Seq.Home) {
    h.handle != NO_HANDLE ==>
      && h.handle == p.slot.handle && h.state in {Seq.WritingCmd, Seq.PollingStatus, Seq.ReadingFault}
      && p.slot.req == Seq.HomeRequest(h.state)
  }

  /** Before the boot read is issued homing holds nothing and has not got past its first state. */
  ghost predicate BootReadFirst(h: Seq.Home) {
    !h.kicked ==> h.handle == NO_HANDLE && h.state in {Seq.HomeIdle, Seq.WritingCmd, Seq.TerminalFailed}
  }

  /** The two calls that lose track: the boot read is issued with a homing already requested,
      or homing times out while it waits. */
  ghost predicate HomeDerails(p: Pipe, h: Seq.Home, now: nat) {
    (!h.kicked && h.state != Seq.HomeIdle && p.slot.phase.Idle?) ||
    (h.handle != NO_HANDLE && Seq.HomeTimedOut(h, now))
  }

  ghost predicate Derails(s: Sys, e: Step) { e.HomeTick? && HomeDerails(s.pipe, s.home, e.now) }

  ghost predicate EverDerails(s: Sys, run: seq<Step>)
    requires s.Valid() && ValidRun(run)
  {
    run != [] &&
    (EverDerails(s, run[..|run| - 1]) || Derails(After(s, run[..|run| - 1]), run[|run| - 1]))
  }

  /** Homing was exact after every step of the run. */
  ghost predicate AlwaysExact(s: Sys, run: seq<Step>)
    requires s.Valid() && ValidRun(run)
  {
    HomeExact(After(s, run).pipe, After(s, run).home) && (run == [] || AlwaysExact(s, run[..|run| - 1]))
  }

  lemma HomeTickKeepsExact(p: Pipe, h: Seq.Home, now: nat)
    requires p.Valid() && HomeExact(p, h) && BootReadFirst(h) && !HomeDerails(p, h, now)
    ensures var r := Seq.HomeTick(p, h, now); HomeExact(r.0, r.1)
  {
    hide Elapsed, Seq.HomeReply, Seq.HomeWrite, Seq.HomeRead, Seq.FaultRead;
    HomeReplyKeepsHandle(h, now);
  }

  lemma HomeTickLosesExact(p: Pipe, h: Seq.Home, now: nat)
    requires p.Valid() && HomeExact(p, h) && BootReadFirst(h) && HomeDerails(p, h, now)
    ensures var r := Seq.HomeTick(p, h, now); !HomeExact(r.0, r.1)
  {
    hide Elapsed, Seq.HomeReply;
  }

  lemma HomeTickBootRead(p: Pipe, h: Seq.Home, now: nat)
    requires p.Valid() && BootReadFirst(h)
    ensures BootReadFirst(Seq.HomeTick(p, h, now).1)
  {
    hide Elapsed, Seq.HomeReply;
    HomeReplyKeepsKicked(now);
  }

  lemma HomeReplyKeepsKicked(now: nat)
    ensures forall g: Seq.Home, r, d | g.state in {Seq.WritingCmd, Seq.PollingStatus, Seq.ReadingFault} ::
      Seq.HomeReply(g, r, d, now).kicked == g.kicked
  {
  }

  lemma HomeUnchanged(s: Sys, e: Step)
    requires s.Valid() && ValidStep(e) && !e.HomeTick?
    ensures Next(s, e).home == if e.RequestHome? then Seq.RequestHome(s.home, e.now) else s.home
  {
    hide ComputeDesired, Recap, Compose, Proxy.Set, Proxy.RequestResync, Seq.RequestSave, Seq.RequestHome, Exchange, MotorAfter;
    hide Sequencer.Tick, Proxy.Tick, Proxy.BootTick, Seq.LoadTick, Seq.SetLoad, Seq.SaveTick, Bridge.Receive, Bridge.Service;
  }

  lemma HomeTickParts(s: Sys, now: nat)
    requires s.Valid()
    ensures var r := Seq.HomeTick(s.pipe, s.home, now); Next(s, HomeTick(now)) == s.(pipe := r.0, home := r.1)
  {
    hide Seq.HomeTick;
  }

  lemma StepBootRead(s: Sys, e: Step)
    requires s.Valid() && ValidStep(e) && BootReadFirst(s.home)
    ensures BootReadFirst(Next(s, e).home)
  {
    hide Next;
    if e.HomeTick? {
      hide Seq.HomeTick;
      HomeTickParts(s, e.now);
      HomeTickBootRead(s.pipe, s.home, e.now);
    } else {
      HomeUnchanged(s, e);
    }
  }

  /** A step keeps homing exact if and only if it is not one of the two calls. */
  lemma StepHomeExact(s: Sys, e: Step)
    requires s.Valid() && ValidStep(e) && (Owned(s) || Orphaned(s)) && HomeExact(s.pipe, s.home) && BootReadFirst(s.home)
    ensures HomeExact(Next(s, e).pipe, Next(s, e).home) <==> !Derails(s, e)
  {
    hide Next, Owned, Seq.HomeRequest, HomeExact, HomeDerails, Seq.HomeTick, BootReadFirst;
    if e.HomeTick? {
      HomeTickParts(s, e.now);
      if HomeDerails(s.pipe, s.home, e.now) { HomeTickLosesExact(s.pipe, s.home, e.now); }
      else { HomeTickKeepsExact(s.pipe, s.home, e.now); }
    } else {
      HomeUnchanged(s, e);
      if Hold(s, Homing) != NO_HANDLE {
        assert !NoneHolds(s);
        if e.LinkTick? { LinkKeepsRequest(s, e.t); } else { OthersLeaveSlot(s, e, Homing); }
      }
      SameExact(s, Next(s, e));
    }
  }

  lemma SameExact(s: Sys, t: Sys)
    requires HomeExact(s.pipe, s.home) && t.home.handle == s.home.handle
    requires s.home.handle != NO_HANDLE ==>
      (t.home == s.home || s.home.state == Seq.HomeIdle) && t.pipe.slot.handle == s.pipe.slot.handle && t.pipe.slot.req == s.pipe.slot.req
    ensures HomeExact(t.pipe, t.home)
  {
  }

  lemma LinkKeepsRequest(s: Sys, t: TickEvent)
    requires s.Valid() && ValidStep(LinkTick(t))
    ensures var q := Next(s, LinkTick(t)).pipe.slot; q.handle == s.pipe.slot.handle && q.req == s.pipe.slot.req
  {
    hide Exchange;
    ExchangeKeeps(s.pipe.slot, (s.frames + 1) % TWO_16, t.sendTime, t.endTime, t.answer);
  }

  lemma {:induction false} EveryRunBootRead(s: Sys, run: seq<Step>)
    requires s.Valid() && Initial(s) && ValidRun(run)
    ensures BootReadFirst(After(s, run).home)
    decreases |run|
  {
    hide Next, BootReadFirst;
    if run == [] {
      InitialHome(s);
    } else {
      EveryRunBootRead(s, run[..|run| - 1]);
      StepBootRead(After(s, run[..|run| - 1]), run[|run| - 1]);
    }
  }

  /** Homing takes only answers to its own request of its current state, all through a run,
      if and only if the run has neither of the two calls: the first of them is the first
      step after which it waits for the wrong answer or does not wait at all. */
  lemma {:induction false} EveryRunHomeExact(s: Sys, run: seq<Step>)
    requires s.Valid() && Initial(s) && ValidRun(run)
    ensures AlwaysExact(s, run) <==> !EverDerails(s, run)
    decreases |run|
  {
    hide Next, Owned, Orphaned, Derails, HomeExact, BootReadFirst, Initial;
    if run == [] {
      InitialHome(s);
    } else {
      var prefix := run[..|run| - 1];
      EveryRunHomeExact(s, prefix);
      if AlwaysExact(s, prefix) {
        EveryRunOwned(s, prefix);
        EveryRunBootRead(s, prefix);
        StepHomeExact(After(s, prefix), run[|run| - 1]);
      }
    }
  }

  lemma InitialHome(s: Sys)
    requires Initial(s)
    ensures HomeExact(s.pipe, s.home) && BootReadFirst(s.home)
  {
  }
}
