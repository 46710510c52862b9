/**
 * The proxy cache against the motor, over every run of the whole system.
 */
module Coherence {
  import opened Bytes
  import opened Ownership
  import opened Pipeline
  import opened Replies
  import opened Scaling
  import opened System
  import opened Time
  import Q = SetupSequencer
  import Proxy = ProxyCache
  import Seq = Sequencers
  import Bridge

  /**
   * An observer of a run: `stale` are the slots whose motor value may be another than the
   * cached one (all of them at first; those the bridge writes; those whose write failed)
   * until they are read back or written; `touched` are those set or read at least once;
   * `passed` says that a resync pass has ended.
   */
  datatype Observer = Observer(stale: set<nat>, touched: set<nat>, passed: bool)

  const START := Observer({0, 1, 2, 3, 4, 5, 6}, {}, false)

  predicate IsSlot(k: nat) { k < Proxy.SLOT_COUNT }

  function SlotObject(k: nat): Object
    requires IsSlot(k)
  {
    (Proxy.SlotIndex(k), Proxy.SlotSub(k))
  }

  ghost predicate WritesSlot(r: Request, k: nat) { IsSlot(k) && !r.isRead && ObjectOf(r) == SlotObject(k) }

  /** The writer collects an answer in this step; the resync does. */
  ghost predicate WriteCollected(s: Sys, e: Step)
    requires s.Valid()
  {
    e.ProxyTick? && s.proxy.pending && Poll(s.pipe, s.proxy.handle).1.Done?
  }

  ghost predicate ReadCollected(s: Sys, e: Step)
    requires s.Valid()
  {
    e.BootTick? && s.boot.state == Proxy.BootBusy && Poll(s.pipe, s.boot.handle).1.Done?
  }

  /** A usable read of a slot that is not waiting to be written. */
  ghost predicate Adopts(s: Sys, e: Step)
    requires s.Valid()
  {
    ReadCollected(s, e) && Proxy.Usable(Poll(s.pipe, s.boot.handle).1) && !s.proxy.slots[s.boot.inflight].dirty
  }

  ghost predicate BridgeBegins(s: Sys, e: Step)
    requires s.Valid() && ValidStep(e)
  {
    e.Receive? && Next(s, e).pipe != s.pipe
  }

  ghost function Observed(s: Sys, o: Observer, e: Step): Observer
    requires s.Valid() && ValidStep(e)
  {
    if WriteCollected(s, e) then
      o.(stale := if s.pipe.slot.result == OD_OK then o.stale - {s.proxy.inflight} else o.stale + {s.proxy.inflight})
    else if e.BootTick? then
      var k := s.boot.inflight;
      Observer(if Adopts(s, e) then o.stale - {k} else o.stale, if Adopts(s, e) then o.touched + {k} else o.touched,
               o.passed || Next(s, e).boot.state == Proxy.BootDone)
    else if e.SetSlot? && Proxy.Settable(e.slot, e.value) then o.(touched := o.touched + {e.slot})
    else if BridgeBegins(s, e) then
      var r := Next(s, e).pipe.slot.req;
      o.(stale := o.stale + set j: nat | j in {0, 1, 2, 3, 4, 5, 6} && WritesSlot(r, j))
    else o
  }

  ghost function Watch(s: Sys, run: seq<Step>): Observer
    requires s.Valid() && ValidRun(run)
  {
    if run == [] then START
    else Observed(After(s, run[..|run| - 1]), Watch(s, run[..|run| - 1]), run[|run| - 1])
  }

  // ----- The invariant -----

  ghost predicate Writing(x: Proxy.Proxy, k: nat) { x.pending && x.inflight == k }

  ghost predicate Agrees(s: Sys, k: nat)
    requires IsSlot(k)
  {
    SlotObject(k) in s.motor.store && s.motor.store[SlotObject(k)] == Split32(s.proxy.slots[k].value)
  }

  ghost predicate Coherent(s: Sys, o: Observer, k: nat)
    requires s.Valid() && IsSlot(k)
  {
    && (s.proxy.slots[k].dirty || Writing(s.proxy, k) || k in o.stale || Agrees(s, k))
    && (Writing(s.proxy, k) && !s.proxy.slots[k].dirty ==> s.pipe.slot.req == Proxy.WriteOf(k, s.proxy.slots[k].value))
    && (k in o.touched ==> Proxy.Mirrored(s.proxy.slots[k], k))
    && (k !in o.touched ==> k in o.stale && !s.proxy.slots[k].dirty && !Writing(s.proxy, k))
    && (s.bridge.Hold() != NO_HANDLE && WritesSlot(s.bridge.ticket.req, k) ==> k in o.stale)
  }

  ghost predicate Cached(s: Sys, o: Observer)
    requires s.Valid()
  {
    && (s.proxy.pending ==> s.proxy.handle != NO_HANDLE)
    && forall k: nat :: IsSlot(k) ==> Coherent(s, o, k)
  }

  // ----- Steps that are not the writer's, the resync's or the link's -----

  lemma OtherParts(s: Sys, e: Step)
    requires s.Valid() && ValidStep(e) && !e.ProxyTick? && !e.BootTick?
    ensures Next(s, e).proxy == if e.SetSlot? then Proxy.Set(s.proxy, e.slot, e.value) else s.proxy
    ensures !e.Receive? && !e.Service? ==> Next(s, e).bridge == s.bridge
  {
    hide ComputeDesired, Recap, Compose, Proxy.Set, Proxy.RequestResync, Seq.RequestSave, Seq.RequestHome, Exchange, MotorAfter;
    hide Q.Tick, Seq.LoadTick, Seq.SetLoad, Seq.SaveTick, Seq.HomeTick, Bridge.Receive, Bridge.Service;
  }

  lemma SlotKept(s: Sys, e: Step)
    requires s.Valid() && ValidStep(e) && !e.LinkTick? && !e.ProxyTick? && (Owned(s) || Orphaned(s))
    ensures s.proxy.Hold() != NO_HANDLE ==> Next(s, e).pipe == s.pipe
  {
    hide Next, Owned;
    if Hold(s, ProxyWriter) != NO_HANDLE {
      assert !NoneHolds(s);
      OthersLeaveSlot(s, e, ProxyWriter);
    }
  }

  lemma OtherCoherent(s: Sys, o: Observer, e: Step, k: nat)
    requires s.Valid() && ValidStep(e) && !e.LinkTick? && !e.ProxyTick? && !e.BootTick? && !e.SetSlot?
    requires (Owned(s) || Orphaned(s)) && Cached(s, o) && IsSlot(k)
    ensures Coherent(Next(s, e), Observed(s, o, e), k)
  {
    hide Next, Owned, WritesSlot, Proxy.Mirrored, Proxy.WriteOf, Split32;
    OtherParts(s, e);
    OtherStepMotor(s, e);
    assert Coherent(s, o, k);
    SlotKept(s, e);
    if e.Receive? || e.Service? { BridgeParts(s, e); }
    assert k in {0, 1, 2, 3, 4, 5, 6};
  }

  lemma SetCoherent(s: Sys, o: Observer, j: nat, v: f32, k: nat)
    requires s.Valid() && ValidStep(SetSlot(j, v)) && Cached(s, o) && IsSlot(k)
    ensures Coherent(Next(s, SetSlot(j, v)), Observed(s, o, SetSlot(j, v)), k)
  {
    hide WritesSlot, Proxy.Mirrored, Proxy.WriteOf, Proxy.Settable, Proxy.Forwarded, Split32;
    assert Coherent(s, o, k);
    if Proxy.Settable(j, v) { Proxy.SetMirrors(s.proxy, j, v); }
  }

  // ----- The writer's step -----

  /** What the writer's tick leaves: no value, no mirror changes; a slot stops being dirty only
      by starting its write. */
  lemma WriterParts(s: Sys)
    requires s.Valid()
    ensures var t := Next(s, ProxyTick);
      && t.motor == s.motor && t.bridge == s.bridge
      && (t.proxy.pending && t.proxy != s.proxy ==>
          IsSlot(t.proxy.inflight) && t.proxy.handle != NO_HANDLE &&
          t.pipe.slot.req == Proxy.WriteOf(t.proxy.inflight, s.proxy.slots[t.proxy.inflight].value))
      && (!WriteCollected(s, ProxyTick) && s.proxy.pending ==> t == s)
  {
    hide Proxy.WriteOf, Proxy.NextDirty;
  }

  lemma WriterSlots(s: Sys, k: nat)
    requires s.Valid() && IsSlot(k)
    ensures var t := Next(s, ProxyTick);
      && t.proxy.slots[k] == s.proxy.slots[k].(dirty := t.proxy.slots[k].dirty)
      && (t.proxy.slots[k].dirty ==> s.proxy.slots[k].dirty)
      && (s.proxy.slots[k].dirty && !t.proxy.slots[k].dirty ==> Writing(t.proxy, k))
      && (Writing(t.proxy, k) ==> s.proxy.slots[k].dirty || (Writing(s.proxy, k) && !WriteCollected(s, ProxyTick)))
      && (WriteCollected(s, ProxyTick) && t.proxy.pending ==>
          t.pipe.slot.req == Proxy.WriteOf(t.proxy.inflight, s.proxy.slots[t.proxy.inflight].value))
      && (WriteCollected(s, ProxyTick) && t.proxy.pending ==> t.proxy.handle != NO_HANDLE)
  {
    hide Proxy.WriteOf, Proxy.NextDirty;
  }

  lemma MirrorIgnoresDirty(e: Proxy.Entry, k: nat, dirty: bool)
    ensures Proxy.Mirrored(e.(dirty := dirty), k) == Proxy.Mirrored(e, k)
  {
  }

  lemma WriterCoherent(s: Sys, o: Observer, k: nat)
    requires s.Valid() && (Owned(s) || Orphaned(s)) && Linked(s) && Cached(s, o) && IsSlot(k)
    ensures Coherent(Next(s, ProxyTick), Observed(s, o, ProxyTick), k)
  {
    hide Next, Owned, Linked, WritesSlot, Proxy.Mirrored, Proxy.WriteOf, Split32, HeldBy, SlotObject;
    assert Coherent(s, o, k);
    WriterParts(s);
    WriterSlots(s, k);
    MirrorIgnoresDirty(s.proxy.slots[k], k, Next(s, ProxyTick).proxy.slots[k].dirty);
    if WriteCollected(s, ProxyTick) {
      assert s.pipe.slot.handle == Hold(s, ProxyWriter);
      CompletionReachesIssuer(s, ProxyWriter);
      CollectedTruth(s);
    }
  }

  /** A write collected with OK is what the motor stores; nobody else waits. */
  lemma CollectedTruth(s: Sys)
    requires s.Valid() && HeldBy(s, ProxyWriter) && Linked(s) && WriteCollected(s, ProxyTick)
    ensures s.bridge.Hold() == NO_HANDLE
    ensures var k := s.proxy.inflight;
      s.pipe.slot.result == OD_OK && s.pipe.slot.req == Proxy.WriteOf(k, s.proxy.slots[k].value) ==> Agrees(s, k)
  {
    hide Proxy.SlotIndex, Proxy.SlotSub, Split32;
    assert Hold(s, UdpBridge) == NO_HANDLE;
  }

  // ----- The resync's step -----

  lemma ResyncParts(s: Sys, now: nat)
    requires s.Valid()
    ensures var t := Next(s, BootTick(now));
      && t.motor == s.motor && t.bridge == s.bridge
      && t.proxy == if Adopts(s, BootTick(now)) then AdoptedTable(s) else s.proxy
  {
    hide Proxy.ReadOf, Elapsed, Proxy.Adopted, Join32, MaxVelocity;
  }

  function AdoptedTable(s: Sys): Proxy.Proxy
    requires s.Valid()
  {
    var k := s.boot.inflight;
    Proxy.Adopt(s.proxy, k, Poll(s.pipe, s.boot.handle).1)
  }

  lemma AdoptedAgrees(s: Sys, e: Step)
    requires s.Valid() && HeldBy(s, Resync) && Linked(s) && Adopts(s, e)
    ensures s.bridge.Hold() == NO_HANDLE && s.proxy.Hold() == NO_HANDLE
    ensures var k, x := s.boot.inflight, AdoptedTable(s);
      Agrees(s.(proxy := x), k) && Proxy.Mirrored(x.slots[k], k)
  {
    hide Proxy.SlotIndex, Proxy.SlotSub, Split32, Join32, Proxy.Mirrored, Proxy.Adopted;
    assert Hold(s, UdpBridge) == NO_HANDLE && Hold(s, ProxyWriter) == NO_HANDLE && Fits(s, Resync);
    Proxy.AdoptMirrors(s.proxy, s.boot.inflight, Poll(s.pipe, s.boot.handle).1);
    SplitOfJoin(s.pipe.slot.resp);
  }

  lemma AdoptedOthers(s: Sys, e: Step, k: nat)
    requires s.Valid() && Adopts(s, e) && IsSlot(k)
    ensures var x := AdoptedTable(s);
      && x == s.proxy.(slots := x.slots)
      && (k != s.boot.inflight ==> x.slots[k] == s.proxy.slots[k])
  {
    hide Proxy.Adopted, Join32;
  }

  lemma ResyncCoherent(s: Sys, o: Observer, now: nat, k: nat)
    requires s.Valid() && (Owned(s) || Orphaned(s)) && Linked(s) && Cached(s, o) && IsSlot(k)
    ensures Coherent(Next(s, BootTick(now)), Observed(s, o, BootTick(now)), k)
  {
    hide Next, Owned, Linked, WritesSlot, Proxy.Mirrored, Proxy.WriteOf, Split32, HeldBy, SlotObject, AdoptedTable, Proxy.Usable;
    assert Coherent(s, o, k);
    ResyncParts(s, now);
    SlotKept(s, BootTick(now));
    if Adopts(s, BootTick(now)) {
      assert s.pipe.slot.handle == Hold(s, Resync);
      CompletionReachesIssuer(s, Resync);
      AdoptedAgrees(s, BootTick(now));
      AdoptedOthers(s, BootTick(now), k);
    }
  }

  // ----- The link's step -----

  lemma OthersWriteElsewhere(s: Sys, c: Client, k: nat)
    requires s.Valid() && HeldBy(s, c) && IsSlot(k) && WritesSlot(s.pipe.slot.req, k)
    ensures c == UdpBridge || (c == ProxyWriter && s.proxy.inflight == k)
  {
    assert Fits(s, c);
    if c == ProxyWriter {
      assert ObjectOf(s.pipe.slot.req) == SlotObject(s.proxy.inflight);
      Proxy.SlotObjectInjective(s.proxy.inflight, k);
    }
    assert 0x2000 <= s.pipe.slot.req.index < 0x3000;
  }

  lemma SaveIsNoSlot(k: nat)
    ensures !WritesSlot(Seq.SaveWrite(), k)
  {
  }

  /** What HeldBy says of the two clients that can write a slot. */
  lemma HolderOnly(s: Sys, c: Client)
    requires s.Valid() && HeldBy(s, c)
    ensures c != ProxyWriter ==> s.proxy.Hold() == NO_HANDLE
    ensures c == ProxyWriter ==> s.proxy.pending
    ensures c == UdpBridge ==> s.bridge.Hold() != NO_HANDLE && s.bridge.ticket.req == s.pipe.slot.req
  {
    assert Hold(s, c) == s.pipe.slot.handle && Fits(s, c);
    assert c != ProxyWriter ==> Hold(s, ProxyWriter) == NO_HANDLE;
  }

  lemma LinkCoherent(s: Sys, o: Observer, t: TickEvent, k: nat)
    requires s.Valid() && (Owned(s) || Orphaned(s)) && Cached(s, o) && IsSlot(k) && ValidStep(LinkTick(t)) && t.transmits
    ensures Coherent(Next(s, LinkTick(t)), o, k)
  {
    hide Fits, SlotObject, Exchange, Proxy.Mirrored, Proxy.WriteOf, Split32, HeldBy;
    assert Coherent(s, o, k);
    ExchangeKeeps(s.pipe.slot, (s.frames + 1) % TWO_16, t.sendTime, t.endTime, t.answer);
    if s.pipe.slot.phase == Pending {
      if Owned(s) {
        var c :| HeldBy(s, c);
        HolderOnly(s, c);
        if WritesSlot(s.pipe.slot.req, k) { OthersWriteElsewhere(s, c, k); }
      } else {
        SaveIsNoSlot(k);
      }
    }
  }

  // ----- Runs -----

  lemma StepCached(s: Sys, o: Observer, e: Step)
    requires s.Valid() && ValidStep(e) && (Owned(s) || Orphaned(s)) && Linked(s) && Cached(s, o)
    ensures Cached(Next(s, e), Observed(s, o, e))
  {
    hide Owned, Orphaned, Linked, Coherent, Next, Observed, WriteCollected;
    forall k: nat | IsSlot(k) ensures Coherent(Next(s, e), Observed(s, o, e), k) {
      match e
      case ProxyTick => WriterCoherent(s, o, k);
      case BootTick(now) => ResyncCoherent(s, o, now, k);
      case SetSlot(j, v) => SetCoherent(s, o, j, v, k);
      case LinkTick(t) => LinkTickCoherent(s, o, t, k);
      case _ => OtherCoherent(s, o, e, k);
    }
    HandleKept(s, e);
  }

  lemma LinkTickCoherent(s: Sys, o: Observer, t: TickEvent, k: nat)
    requires s.Valid() && (Owned(s) || Orphaned(s)) && Cached(s, o) && IsSlot(k) && ValidStep(LinkTick(t))
    ensures Coherent(Next(s, LinkTick(t)), Observed(s, o, LinkTick(t)), k)
  {
    hide Coherent, Owned, Orphaned, LinkTicked;
    if t.transmits { LinkCoherent(s, o, t, k); } else { assert Coherent(s, o, k); SilentTick(s, t); }
  }

  lemma HandleKept(s: Sys, e: Step)
    requires s.Valid() && ValidStep(e) && (s.proxy.pending ==> s.proxy.handle != NO_HANDLE)
    ensures Next(s, e).proxy.pending ==> Next(s, e).proxy.handle != NO_HANDLE
  {
    hide Next;
    if e.ProxyTick? { WriterParts(s); } else if e.BootTick? { ResyncHandle(s, e.now); } else { OtherParts(s, e); }
  }

  lemma ResyncHandle(s: Sys, now: nat)
    requires s.Valid()
    ensures Next(s, BootTick(now)).proxy == s.proxy.(slots := Next(s, BootTick(now)).proxy.slots)
  {
    hide Next, AdoptedTable;
    ResyncParts(s, now);
    if Adopts(s, BootTick(now)) { AdoptedOthers(s, BootTick(now), 0); }
  }

  lemma {:induction false} EveryRunCached(s: Sys, run: seq<Step>)
    requires s.Valid() && Initial(s) && ValidRun(run) && HonestRun(s, run)
    ensures Cached(After(s, run), Watch(s, run))
    decreases |run|
  {
    hide Next, Owned, Orphaned, Linked, HonestStep, Cached, Observed;
    if run == [] {
      InitialCached(s);
    } else {
      var prefix := run[..|run| - 1];
      EveryRunCached(s, prefix);
      EveryRunOwned(s, prefix);
      EveryRunLinked(s, prefix);
      StepCached(After(s, prefix), Watch(s, prefix), run[|run| - 1]);
    }
  }

  lemma InitialCached(s: Sys)
    requires s.Valid() && Initial(s)
    ensures Cached(s, START)
  {
    hide SlotObject, Split32;
    forall k: nat | IsSlot(k) ensures Coherent(s, START, k) { assert k in START.stale; }
  }

  // ----- The first pass -----

  /** Writes succeed, reads are usable, and the bridge writes no slot. */
  ghost predicate Smooth(s: Sys, e: Step)
    requires s.Valid() && ValidStep(e)
  {
    && (WriteCollected(s, e) ==> s.pipe.slot.result == OD_OK)
    && (ReadCollected(s, e) ==> Proxy.Usable(Poll(s.pipe, s.boot.handle).1))
    && (BridgeBegins(s, e) ==> forall k: nat :: !WritesSlot(Next(s, e).pipe.slot.req, k))
  }

  ghost predicate SmoothRun(s: Sys, run: seq<Step>)
    requires s.Valid() && ValidRun(run)
  {
    run == [] || (SmoothRun(s, run[..|run| - 1]) && Smooth(After(s, run[..|run| - 1]), run[|run| - 1]))
  }

  /** The first pass has not come to slot k, or is reading it. */
  predicate Ahead(b: Proxy.Boot, k: nat) { k >= b.next || (b.state == Proxy.BootBusy && b.inflight == k) }

  ghost predicate Passing(s: Sys, o: Observer, k: nat)
    requires IsSlot(k)
  {
    && (s.boot.state == Proxy.BootDone ==> o.passed)
    && (k in o.stale ==> s.proxy.slots[k].dirty || Writing(s.proxy, k) || (!o.passed && Ahead(s.boot, k)))
  }

  lemma BootAdvances(s: Sys, now: nat, k: nat)
    requires s.Valid() && IsSlot(k) && s.boot.state != Proxy.BootDone && Ahead(s.boot, k)
    ensures var t := Next(s, BootTick(now));
      (ReadCollected(s, BootTick(now)) && s.boot.inflight == k) || (t.boot.state != Proxy.BootDone && Ahead(t.boot, k))
  {
    hide Proxy.Adopt, Proxy.ReadOf, Elapsed, MaxVelocity;
  }

  lemma BootUnchanged(s: Sys, e: Step)
    requires s.Valid() && ValidStep(e) && !e.BootTick? && s.boot.state != Proxy.BootDone
    ensures Next(s, e).boot == s.boot
  {
    hide ComputeDesired, Recap, Compose, Proxy.Set, Seq.RequestSave, Seq.RequestHome, Exchange, MotorAfter;
    hide Q.Tick, Proxy.Tick, Seq.LoadTick, Seq.SetLoad, Seq.SaveTick, Seq.HomeTick, Bridge.Receive, Bridge.Service;
  }

  lemma BootNotDone(s: Sys, e: Step)
    requires s.Valid() && ValidStep(e) && !e.BootTick?
    ensures Next(s, e).boot.state == Proxy.BootDone ==> s.boot.state == Proxy.BootDone
  {
    hide ComputeDesired, Recap, Compose, Proxy.Set, Seq.RequestSave, Seq.RequestHome, Exchange, MotorAfter;
    hide Q.Tick, Proxy.Tick, Seq.LoadTick, Seq.SetLoad, Seq.SaveTick, Seq.HomeTick, Bridge.Receive, Bridge.Service;
  }

  lemma SlotDirtyAfter(s: Sys, e: Step, k: nat)
    requires s.Valid() && ValidStep(e) && IsSlot(k) && (s.proxy.slots[k].dirty || Writing(s.proxy, k))
    ensures var t := Next(s, e);
      t.proxy.slots[k].dirty || Writing(t.proxy, k) || (WriteCollected(s, e) && s.proxy.inflight == k)
  {
    hide Next;
    if e.ProxyTick? {
      WriterSlots(s, k);
      WriterParts(s);
    } else if e.BootTick? {
      hide AdoptedTable;
      ResyncParts(s, e.now);
      if Adopts(s, e) { AdoptedOthers(s, e, k); }
    } else {
      hide Proxy.Settable, Proxy.Forwarded;
      OtherParts(s, e);
    }
  }

  lemma StepPassing(s: Sys, o: Observer, e: Step, k: nat)
    requires s.Valid() && ValidStep(e) && IsSlot(k) && Passing(s, o, k) && Smooth(s, e)
    ensures Passing(Next(s, e), Observed(s, o, e), k)
  {
    hide Next, Proxy.Usable, Proxy.Settable, WritesSlot, Ahead;
    if s.proxy.slots[k].dirty || Writing(s.proxy, k) { SlotDirtyAfter(s, e, k); }
    if e.BootTick? {
      if k in o.stale && !o.passed && Ahead(s.boot, k) { BootAdvances(s, e.now, k); }
    } else {
      BootNotDone(s, e);
      if s.boot.state != Proxy.BootDone { BootUnchanged(s, e); }
    }
  }

  lemma {:induction false} EveryRunPassing(s: Sys, run: seq<Step>, k: nat)
    requires s.Valid() && Initial(s) && ValidRun(run) && SmoothRun(s, run) && IsSlot(k)
    ensures Passing(After(s, run), Watch(s, run), k)
    decreases |run|
  {
    hide Next, Passing, Observed, Smooth;
    if run == [] {
      InitialPassing(s, k);
    } else {
      var prefix := run[..|run| - 1];
      EveryRunPassing(s, prefix, k);
      StepPassing(After(s, prefix), Watch(s, prefix), run[|run| - 1], k);
    }
  }

  lemma InitialPassing(s: Sys, k: nat)
    requires s.Valid() && Initial(s) && IsSlot(k)
    ensures Passing(s, START, k)
  {
  }

  // ----- Main results -----

  /** Every run: a slot is waiting to be written, being written, stale, or holds what the motor
      stores; and one that was ever set or read says the same as its mirror. */
  lemma CacheMatchesMotor(s: Sys, run: seq<Step>, k: nat)
    requires s.Valid() && Initial(s) && ValidRun(run) && HonestRun(s, run) && IsSlot(k)
    ensures var t, o := After(s, run), Watch(s, run);
      && (t.proxy.slots[k].dirty || Writing(t.proxy, k) || k in o.stale || Agrees(t, k))
      && (k in o.touched || k in o.stale)
      && (k in o.touched ==> Proxy.Mirrored(t.proxy.slots[k], k))
  {
    hide After, Watch, HonestRun, Initial, Agrees;
    EveryRunCached(s, run);
    assert Coherent(After(s, run), Watch(s, run), k);
  }

  /** Without failures and bridge writes, once the first resync pass has ended nothing is
      stale that is not on its way to the motor, for ever after. */
  lemma PassedCacheMatchesMotor(s: Sys, run: seq<Step>, k: nat)
    requires s.Valid() && Initial(s) && ValidRun(run) && HonestRun(s, run) && SmoothRun(s, run) && IsSlot(k)
    requires Watch(s, run).passed
    ensures var t := After(s, run);
      t.proxy.slots[k].dirty || Writing(t.proxy, k) || (Agrees(t, k) && Proxy.Mirrored(t.proxy.slots[k], k))
  {
    hide After, Watch, HonestRun, SmoothRun, Initial, Agrees, Proxy.Mirrored;
    CacheMatchesMotor(s, run, k);
    EveryRunPassing(s, run, k);
  }

  // ----- What becomes of a write -----

  /** The writer's answer is not collected in the run. */
  ghost predicate NoneCollected(s: Sys, run: seq<Step>)
    requires s.Valid() && ValidRun(run)
  {
    run == [] || (NoneCollected(s, run[..|run| - 1]) && !WriteCollected(After(s, run[..|run| - 1]), run[|run| - 1]))
  }

  /** Slot k's write has left and waits to be collected. */
  ghost predicate WriteOut(s: Sys, k: nat)
    requires s.Valid()
  {
    && IsSlot(k) && Owned(s) && Writing(s.proxy, k) && s.proxy.handle != NO_HANDLE
    && s.pipe.slot.phase != Pending
  }

  lemma WriterHolds(s: Sys)
    requires s.Valid() && Owned(s) && s.proxy.Hold() != NO_HANDLE
    ensures !s.pipe.slot.phase.Idle? && s.boot.Hold() == NO_HANDLE && s.save.Hold() == NO_HANDLE
    ensures s.pipe.slot.handle == s.proxy.handle
  {
    assert Hold(s, ProxyWriter) != NO_HANDLE;
    var c :| HeldBy(s, c);
    assert c == ProxyWriter;
    assert Hold(s, Resync) == NO_HANDLE && Hold(s, MotorSave) == NO_HANDLE;
  }

  lemma StepKeepsWrite(s: Sys, e: Step, k: nat)
    requires s.Valid() && ValidStep(e) && WriteOut(s, k) && !WriteCollected(s, e)
    ensures var t := Next(s, e);
      && WriteOut(t, k) && t.motor == s.motor
      && (!t.proxy.slots[k].dirty ==> t.proxy.slots[k] == s.proxy.slots[k])
  {
    hide Next, Owned, SlotObject, Proxy.Settable, Proxy.Forwarded;
    WriterHolds(s);
    StepKeepsOwner(s, e);
    NotAbandoned(s, e);
    if e.ProxyTick? {
      WriterParts(s);
    } else if e.LinkTick? {
      LinkKeepsWrite(s, e.t);
    } else {
      SlotKept(s, e);
      OtherStepMotor(s, e);
      if e.BootTick? {
        hide AdoptedTable;
        ResyncParts(s, e.now);
      } else {
        OtherParts(s, e);
      }
    }
  }

  lemma NotAbandoned(s: Sys, e: Step)
    requires s.save.Hold() == NO_HANDLE
    ensures !Abandons(s, e)
  {
  }

  lemma LinkKeepsWrite(s: Sys, t: TickEvent)
    requires s.Valid() && ValidStep(LinkTick(t)) && s.pipe.slot.phase != Pending && !s.pipe.slot.phase.Idle?
    ensures var u := Next(s, LinkTick(t)); u.motor == s.motor && u.proxy == s.proxy && u.pipe.slot.phase != Pending
  {
    hide Exchange;
    ExchangeKeeps(s.pipe.slot, (s.frames + 1) % TWO_16, t.sendTime, t.endTime, t.answer);
  }

  lemma {:induction false} RunKeepsWrite(s: Sys, run: seq<Step>, k: nat)
    requires s.Valid() && ValidRun(run) && WriteOut(s, k) && NoneCollected(s, run)
    ensures var t := After(s, run);
      && WriteOut(t, k) && t.motor == s.motor
      && (!t.proxy.slots[k].dirty ==> t.proxy.slots[k] == s.proxy.slots[k])
    decreases |run|
  {
    hide Next, Owned, WriteCollected;
    if run != [] {
      RunKeepsWrite(s, run[..|run| - 1], k);
      StepKeepsWrite(After(s, run[..|run| - 1]), run[|run| - 1], k);
    }
  }

  /** The frame that carries the write: the motor stores it or not. */
  lemma WriteLeaves(s: Sys, k: nat, t: TickEvent)
    requires s.Valid() && IsSlot(k) && Owned(s) && Writing(s.proxy, k) && s.proxy.handle != NO_HANDLE
    requires s.pipe.slot.phase == Pending && s.pipe.slot.req == Proxy.WriteOf(k, s.proxy.slots[k].value)
    requires ValidStep(LinkTick(t)) && t.transmits
    ensures var a := Next(s, LinkTick(t)); WriteOut(a, k) && a.proxy == s.proxy && (Agrees(a, k) <==> t.taken || Agrees(s, k))
  {
    hide Exchange, Owned, Proxy.SlotIndex, Proxy.SlotSub, Split32;
    StepKeepsOwner(s, LinkTick(t));
    ExchangeKeeps(s.pipe.slot, (s.frames + 1) % TWO_16, t.sendTime, t.endTime, t.answer);
  }

  /**
   * What becomes of a write, whatever its answer says and whatever happens until it is
   * collected: if the slot was not set again, cache and motor agree if and only if the motor
   * took the write or stored those bytes before; and nothing is scheduled to mend it.
   */
  lemma FailedWriteDropped(s: Sys, k: nat, t: TickEvent, between: seq<Step>)
    requires s.Valid() && IsSlot(k) && Owned(s) && Writing(s.proxy, k) && s.proxy.handle != NO_HANDLE
    requires s.pipe.slot.phase == Pending && s.pipe.slot.req == Proxy.WriteOf(k, s.proxy.slots[k].value)
    requires ValidStep(LinkTick(t)) && t.transmits && ValidRun(between)
    requires NoneCollected(Next(s, LinkTick(t)), between)
    requires var m := After(Next(s, LinkTick(t)), between); WriteCollected(m, ProxyTick) && !m.proxy.slots[k].dirty
    ensures var u := Next(After(Next(s, LinkTick(t)), between), ProxyTick);
      && (Agrees(u, k) <==> t.taken || Agrees(s, k))
      && u.proxy.slots[k] == s.proxy.slots[k].(dirty := false) && !Writing(u.proxy, k)
  {
    hide Next, Owned, After, SlotObject, Split32, Proxy.WriteOf, WriteCollected;
    WriteLeaves(s, k, t);
    var a := Next(s, LinkTick(t));
    RunKeepsWrite(a, between, k);
    var m := After(a, between);
    WriterParts(m);
    WriterSlots(m, k);
    SameAgreement(m, Next(m, ProxyTick), k);
    SameAgreement(a, m, k);
  }

  lemma SameAgreement(s: Sys, t: Sys, k: nat)
    requires IsSlot(k) && t.motor.store == s.motor.store && t.proxy.slots[k].value == s.proxy.slots[k].value
    ensures Agrees(t, k) <==> Agrees(s, k)
  {
  }

  /** A run into the disagreement: a setting, its write, a frame the motor does not take, and
      the timeout. */
  lemma FailedWriteReached(s: Sys, k: nat, v: f32, lost: TickEvent, late: TickEvent)
    requires s.Valid() && IsSlot(k) && Proxy.Settable(k, v) && s.pipe.slot.phase.Idle? && !s.proxy.pending
    requires forall j: nat :: IsSlot(j) ==> !s.proxy.slots[j].dirty
    requires !(SlotObject(k) in s.motor.store && s.motor.store[SlotObject(k)] == Split32(Proxy.Forwarded(k, v)))
    requires lost.transmits && !lost.taken && lost.answer == NoAnswer && lost.sendTime <= lost.endTime <= lost.sendTime + OD_RESPONSE_TIMEOUT_MS
    requires late.transmits && late.answer == NoAnswer
    requires lost.sendTime + OD_RESPONSE_TIMEOUT_MS < late.endTime < lost.sendTime + TWO_31
    ensures var u := Next(Next(Next(Next(Next(s, SetSlot(k, v)), ProxyTick), LinkTick(lost)), LinkTick(late)), ProxyTick);
      u.pipe.slot.phase.Idle? && !u.proxy.pending && !u.proxy.slots[k].dirty && u.proxy.slots[k].value == Proxy.Forwarded(k, v) && !Agrees(u, k)
  {
    hide Next, SlotObject, Split32, Proxy.Forwarded, Proxy.Settable;
    SetIsWritten(s, k, v);
    var b := Next(Next(s, SetSlot(k, v)), ProxyTick);
    LostThenLate(b, lost, late);
    CollectsAlone(Next(Next(b, LinkTick(lost)), LinkTick(late)), k);
  }

  lemma SetIsWritten(s: Sys, k: nat, v: f32)
    requires s.Valid() && IsSlot(k) && Proxy.Settable(k, v) && s.pipe.slot.phase.Idle? && !s.proxy.pending
    requires forall j: nat :: IsSlot(j) ==> !s.proxy.slots[j].dirty
    ensures var b := Next(Next(s, SetSlot(k, v)), ProxyTick);
      && b.pipe.slot.phase == Pending && Writing(b.proxy, k) && b.proxy.handle == b.pipe.slot.handle != NO_HANDLE
      && b.proxy.slots[k].value == Proxy.Forwarded(k, v) && b.motor == s.motor
      && forall j: nat :: IsSlot(j) ==> !b.proxy.slots[j].dirty
  {
    hide Proxy.Settable, Proxy.Forwarded, MaxVelocity, Proxy.NextDirty, Split32;
    var x := Next(s, SetSlot(k, v)).proxy;
    Proxy.DistanceIsOffset(x.inflight, k);
    Proxy.ScanTakesNearest(x, 0, Proxy.Distance(x.inflight, k));
    assert x.slots[Proxy.NextDirty(x, 0)].dirty;
  }

  /** A request sent in one frame and timed out in a later one, the motor unmoved. */
  lemma LostThenLate(s: Sys, lost: TickEvent, late: TickEvent)
    requires s.Valid() && s.pipe.slot.phase == Pending
    requires lost.transmits && !lost.taken && lost.answer == NoAnswer && lost.sendTime <= lost.endTime <= lost.sendTime + OD_RESPONSE_TIMEOUT_MS
    requires late.transmits && late.answer == NoAnswer
    requires lost.sendTime + OD_RESPONSE_TIMEOUT_MS < late.endTime < lost.sendTime + TWO_31
    ensures var t := Next(Next(s, LinkTick(lost)), LinkTick(late));
      t.pipe.slot.phase == Complete && t.pipe.slot.handle == s.pipe.slot.handle && t.proxy == s.proxy && t.motor.store == s.motor.store
  {
    hide TimeAfter, Clock;
    TimeAfterIsLater(lost.endTime, lost.sendTime + OD_RESPONSE_TIMEOUT_MS);
    TimeAfterIsLater(late.endTime, lost.sendTime + OD_RESPONSE_TIMEOUT_MS);
  }

  /** With nothing else to write, a collection leaves the slot free. */
  lemma CollectsAlone(s: Sys, k: nat)
    requires s.Valid() && IsSlot(k) && Writing(s.proxy, k) && s.pipe.slot.phase == Complete
    requires s.proxy.handle == s.pipe.slot.handle != NO_HANDLE
    requires forall j: nat :: IsSlot(j) ==> !s.proxy.slots[j].dirty
    ensures var t := Next(s, ProxyTick);
      t.pipe.slot.phase.Idle? && !t.proxy.pending && t.proxy.slots == s.proxy.slots && t.motor == s.motor
  {
    hide Proxy.NextDirty;
    var x := Proxy.Drain(s.pipe, s.proxy).1;
    assert Proxy.NextDirty(x, 0) == Proxy.SLOT_COUNT;
  }

  /** The next adopted resync read ends the disagreement the motor's way: the slot then holds
      what the motor stores, which is the value set by the operator only if they agreed. */
  lemma ResyncReplacesValue(s: Sys, now: nat)
    requires s.Valid() && (Owned(s) || Orphaned(s)) && Linked(s) && Adopts(s, BootTick(now))
    ensures var t, k := Next(s, BootTick(now)), s.boot.inflight;
      && Agrees(t, k) && !t.proxy.slots[k].dirty
      && (t.proxy.slots[k].value == s.proxy.slots[k].value <==> Agrees(s, k))
  {
    hide Next, Owned, Linked, HeldBy, SlotObject, Split32, AdoptedTable, Proxy.Usable;
    var k := s.boot.inflight;
    ResyncParts(s, now);
    assert s.pipe.slot.handle == Hold(s, Resync);
    CompletionReachesIssuer(s, Resync);
    AdoptedAgrees(s, BootTick(now));
    AdoptedClean(s, now);
    JoinOfSplit(s.proxy.slots[k].value);
    JoinOfSplit(AdoptedTable(s).slots[k].value);
  }

  lemma AdoptedClean(s: Sys, now: nat)
    requires s.Valid() && Adopts(s, BootTick(now))
    ensures !AdoptedTable(s).slots[s.boot.inflight].dirty
  {
    hide Proxy.Adopted, Join32;
  }

  // ----- The joystick cap -----

  ghost predicate Capped(s: Sys) {
    s.drive.maxVelocity == MaxVelocity(s.proxy.slots[Proxy.VEL_LIMIT].mirror, s.drive.profile)
  }

  lemma StepCapped(s: Sys, e: Step)
    requires s.Valid() && ValidStep(e) && Capped(s)
    ensures Capped(Next(s, e))
  {
    if SparesDrive(e) {
      hide Next, MaxVelocity;
      DriveSpared(s, e);
      if e.ProxyTick? { WriterSlots(s, Proxy.VEL_LIMIT); }
    } else if e.BootTick? || e.SetSlot? || e.SetProfile? {
      hide MaxVelocity, Proxy.BootTick, Proxy.Settable, Proxy.Forwarded;
    } else {
      hide ComputeDesired, MaxVelocity, Demand, Seq.RequestSave, Seq.SaveTick, Q.Busy;
    }
  }

  /** joystick_max_velocity is the velocity limit times the profile's scale, always: set by
      the operator, read back from the motor, or after a change of profile. */
  lemma {:induction false} EveryRunCapped(s: Sys, run: seq<Step>)
    requires s.Valid() && Initial(s) && ValidRun(run)
    ensures Capped(After(s, run))
    decreases |run|
  {
    hide Next, MaxVelocity;
    if run != [] {
      EveryRunCapped(s, run[..|run| - 1]);
      StepCapped(After(s, run[..|run| - 1]), run[|run| - 1]);
    }
  }
}
