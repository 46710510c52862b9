/**
 * The move trigger against the motor. NEW_SETPOINT rises only when the sequencer believes
 * the motor holds all seven setup parameters; this module says, for every run of the whole
 * system, when that belief is right.
 */
module Trigger {
  import opened Bytes
  import opened Ownership
  import opened Pipeline
  import opened Replies
  import opened Scaling
  import opened System
  import Q = SetupSequencer
  import Proxy = ProxyCache
  import Seq = Sequencers
  import Bridge

  /**
   * An observer of a run. `acked` is the motor as the OK answers describe it: the bytes of
   * the last acknowledged write of each parameter. `skewed` are the parameters for which the
   * sequencer recorded another value than the one acknowledged. `unsure` are those written
   * since by the bridge, or by the sequencer with a failed answer.
   */
  datatype Observer = Observer(acked: map<nat, seq<byte>>, skewed: set<nat>, unsure: set<nat>)

  const START := Observer(map[], {}, {})

  predicate IsParam(k: nat) { 1 <= k <= Q.LAST_STEP }

  function ParamObject(k: nat): Object
    requires IsParam(k)
  {
    (Q.SetupIndex(k), 0)
  }

  /** The parameters a request writes: one or none. */
  ghost predicate Writes(r: Request, k: nat) { IsParam(k) && !r.isRead && ObjectOf(r) == ParamObject(k) }

  /** The sequencer collects the answer of its write in this step. */
  ghost predicate Collects(s: Sys, e: Step)
    requires s.Valid()
  {
    e.SetupTick? && s.setup.step != Q.IDLE_STEP && Poll(s.pipe, s.setup.handle).1.Done?
  }

  ghost function Observed(s: Sys, o: Observer, e: Step): Observer
    requires s.Valid() && ValidStep(e)
  {
    var k, slot := s.setup.step, s.pipe.slot;
    if Collects(s, e) then
      if slot.result != OD_OK then o.(unsure := o.unsure + {k})
      else Observer(o.acked[k := slot.req.data],
                    if slot.req.data == Q.Encode(k, s.Desired()[k]) then o.skewed - {k} else o.skewed + {k},
                    o.unsure - {k})
    else if e.Receive? && Next(s, e).pipe != s.pipe then
      var r := Next(s, e).pipe.slot.req;
      o.(unsure := o.unsure + set j: nat | j in {1, 2, 3, 4, 5, 6, 7} && Writes(r, j))
    else o
  }

  ghost function Watch(s: Sys, run: seq<Step>): Observer
    requires s.Valid() && ValidRun(run)
  {
    if run == [] then START
    else Observed(After(s, run[..|run| - 1]), Watch(s, run[..|run| - 1]), run[|run| - 1])
  }

  /** The motor has taken the write of k that is in the slot. */
  ghost predicate JustTook(s: Sys, k: nat) { s.setup.step == k && Sent?(s) && s.motor.took }

  ghost predicate Knows(s: Sys, o: Observer, k: nat)
    requires s.Valid() && IsParam(k)
  {
    && (k !in o.acked ==> s.setup.applied[k] == Sentinels()[k] && k !in o.skewed)
    && (k in o.acked ==> (o.acked[k] == Q.Encode(k, s.setup.applied[k]) <==> k !in o.skewed))
    && (k in o.acked && k !in o.unsure && !JustTook(s, k) ==>
      ParamObject(k) in s.motor.store && s.motor.store[ParamObject(k)] == o.acked[k])
    && (s.bridge.Hold() != NO_HANDLE && Writes(s.bridge.ticket.req, k) ==> k in o.unsure)
  }

  ghost predicate Tracked(s: Sys, o: Observer)
    requires s.Valid()
  {
    && (s.setup.step != Q.IDLE_STEP ==> s.setup.handle != NO_HANDLE)
    && forall k: nat :: IsParam(k) ==> Knows(s, o, k)
  }

  // ----- Steps that are neither the sequencer's nor the link's -----

  lemma OtherParts(s: Sys, e: Step)
    requires s.Valid() && ValidStep(e) && !e.SetupTick?
    ensures Next(s, e).setup == s.setup
    ensures !e.Receive? && !e.Service? ==> Next(s, e).bridge == s.bridge
  {
    hide ComputeDesired, Recap, Compose, Proxy.Set, Proxy.RequestResync, Seq.RequestSave, Seq.RequestHome, Exchange, MotorAfter;
    hide Q.Tick, Proxy.Tick, Proxy.BootTick, Seq.LoadTick, Seq.SetLoad, Seq.SaveTick, Seq.HomeTick, Bridge.Receive, Bridge.Service;
  }

  lemma OtherKnows(s: Sys, o: Observer, e: Step, k: nat)
    requires s.Valid() && ValidStep(e) && !e.LinkTick? && !e.SetupTick? && (Owned(s) || Orphaned(s)) && Tracked(s, o) && IsParam(k)
    ensures Knows(Next(s, e), Observed(s, o, e), k)
  {
    hide Next, Owned, Q.Encode, ParamObject, Writes;
    OtherParts(s, e);
    OtherStepMotor(s, e);
    assert Knows(s, o, k);
    SlotKept(s, e);
    if e.Receive? || e.Service? { BridgeParts(s, e); }
    assert k in {1, 2, 3, 4, 5, 6, 7};
  }

  lemma SlotKept(s: Sys, e: Step)
    requires s.Valid() && ValidStep(e) && !e.LinkTick? && !e.SetupTick? && (Owned(s) || Orphaned(s))
    ensures s.setup.Hold() != NO_HANDLE ==> Next(s, e).pipe == s.pipe
  {
    hide Next, Owned;
    if Hold(s, SetupWriter) != NO_HANDLE {
      assert !NoneHolds(s);
      OthersLeaveSlot(s, e, SetupWriter);
    }
  }

  // ----- The sequencer's step -----

  lemma SetupParts(s: Sys)
    requires s.Valid()
    ensures var t := Next(s, SetupTick);
      && t.motor == s.motor && t.bridge == s.bridge
      && (t.setup.step != Q.IDLE_STEP && t.setup != s.setup ==> t.setup.handle != NO_HANDLE)
      && (Collects(s, SetupTick) ==> !Sent?(t) && t.setup.applied == AppliedAfter(s))
      && (!Collects(s, SetupTick) ==> t.setup.applied == s.setup.applied)
      && (!Collects(s, SetupTick) && s.setup.step != Q.IDLE_STEP ==> t == s)
      && (t.setup.step != s.setup.step ==> !Sent?(t))
  {
    hide Q.WriteOf, ComputeDesired, Q.FirstDiff;
  }

  function AppliedAfter(s: Sys): Setup
    requires s.Valid()
  {
    var k := s.setup.step;
    if s.pipe.slot.result == OD_OK then s.setup.applied[k := s.Desired()[k]] else s.setup.applied
  }

  lemma SetupKnows(s: Sys, o: Observer, k: nat)
    requires s.Valid() && (Owned(s) || Orphaned(s)) && Linked(s) && Tracked(s, o) && IsParam(k)
    ensures Knows(Next(s, SetupTick), Observed(s, o, SetupTick), k)
  {
    hide Next, Owned, Linked, Q.Encode, Q.SetupIndex, ComputeDesired, HeldBy;
    assert Knows(s, o, k);
    SetupParts(s);
    if Collects(s, SetupTick) {
      assert s.pipe.slot.handle == Hold(s, SetupWriter);
      CompletionReachesIssuer(s, SetupWriter);
      CollectedTruth(s);
    }
  }

  /** A write collected with OK is what the motor stores; nobody else waits. */
  lemma CollectedTruth(s: Sys)
    requires s.Valid() && HeldBy(s, SetupWriter) && Linked(s) && Collects(s, SetupTick)
    ensures s.bridge.Hold() == NO_HANDLE && IsParam(s.setup.step)
    ensures var r, o := s.pipe.slot.req, ParamObject(s.setup.step);
      s.pipe.slot.result == OD_OK ==> o in s.motor.store && s.motor.store[o] == r.data
  {
    hide Q.SetupIndex;
    assert Hold(s, UdpBridge) == NO_HANDLE;
    assert Fits(s, SetupWriter);
  }

  // ----- The link's step -----

  lemma OthersWriteElsewhere(s: Sys, c: Client, k: nat)
    requires s.Valid() && HeldBy(s, c) && IsParam(k) && Writes(s.pipe.slot.req, k)
    ensures c == UdpBridge || (c == SetupWriter && s.setup.step == k)
  {
    assert Fits(s, c);
    if c == SetupWriter { Q.SetupIndexInjective(s.setup.step, k); }
    assert 0x6000 <= s.pipe.slot.req.index;
    Elsewhere();
  }

  lemma Elsewhere()
    ensures forall v :: Seq.LoadWrite(v).index < 0x6000
    ensures forall j: nat, v | j < Proxy.SLOT_COUNT :: Proxy.WriteOf(j, v).index < 0x6000
    ensures forall j: nat | j < Proxy.SLOT_COUNT :: Proxy.ReadOf(j).index < 0x6000
    ensures Seq.SaveWrite().index < 0x6000 && Seq.HomeWrite().index < 0x6000
  {
  }

  lemma LinkKnows(s: Sys, o: Observer, t: TickEvent, k: nat)
    requires s.Valid() && (Owned(s) || Orphaned(s)) && Tracked(s, o) && IsParam(k) && ValidStep(LinkTick(t)) && t.transmits
    ensures Knows(Next(s, LinkTick(t)), o, k)
  {
    hide Fits, Q.Encode, Q.SetupIndex, Exchange;
    assert Knows(s, o, k);
    ExchangeKeeps(s.pipe.slot, (s.frames + 1) % TWO_16, t.sendTime, t.endTime, t.answer);
    if s.pipe.slot.phase == Pending {
      if Owned(s) {
        var c :| HeldBy(s, c);
        HolderOnly(s, c);
        if Writes(s.pipe.slot.req, k) { OthersWriteElsewhere(s, c, k); }
      } else {
        assert Hold(s, SetupWriter) == NO_HANDLE;
        Elsewhere();
        IndexHigh(k);
      }
    }
  }

  lemma IndexHigh(k: nat)
    requires IsParam(k)
    ensures Q.SetupIndex(k) >= 0x6000
  {
  }

  /** What HeldBy says of the two clients that can write a setup parameter. */
  lemma HolderOnly(s: Sys, c: Client)
    requires s.Valid() && HeldBy(s, c)
    ensures c != SetupWriter ==> s.setup.Hold() == NO_HANDLE
    ensures c == SetupWriter ==> s.setup.step != Q.IDLE_STEP && Writes(s.pipe.slot.req, s.setup.step)
    ensures c == UdpBridge ==> s.bridge.Hold() != NO_HANDLE && s.bridge.ticket.req == s.pipe.slot.req
  {
    assert Hold(s, c) == s.pipe.slot.handle && Fits(s, c);
    assert c != SetupWriter ==> Hold(s, SetupWriter) == NO_HANDLE;
  }

  // ----- Runs -----

  lemma StepTracked(s: Sys, o: Observer, e: Step)
    requires s.Valid() && ValidStep(e) && HonestStep(s, e) && (Owned(s) || Orphaned(s)) && Linked(s) && Tracked(s, o)
    ensures Tracked(Next(s, e), Observed(s, o, e))
  {
    hide Owned, Linked, Knows, Next;
    var t, p := Next(s, e), Observed(s, o, e);
    forall k: nat | IsParam(k) ensures Knows(t, p, k) {
      assert Knows(s, o, k);
      if e.SetupTick? { SetupKnows(s, o, k); }
      else if !e.LinkTick? { OtherKnows(s, o, e, k); }
      else if e.t.transmits { LinkKnows(s, o, e.t, k); }
      else { SilentTick(s, e.t); }
    }
    if e.SetupTick? { SetupParts(s); } else { OtherParts(s, e); }
  }

  lemma {:induction false} EveryRunTracked(s: Sys, run: seq<Step>)
    requires s.Valid() && Initial(s) && ValidRun(run) && HonestRun(s, run)
    ensures Tracked(After(s, run), Watch(s, run))
    decreases |run|
  {
    hide Next, Owned, Orphaned, Linked, HonestStep, Tracked, Observed;
    if run == [] {
      InitialTracked(s);
    } else {
      var prefix := run[..|run| - 1];
      EveryRunTracked(s, prefix);
      EveryRunOwned(s, prefix);
      EveryRunLinked(s, prefix);
      StepTracked(After(s, prefix), Watch(s, prefix), run[|run| - 1]);
    }
  }

  lemma InitialTracked(s: Sys)
    requires s.Valid() && Initial(s)
    ensures Tracked(s, START)
  {
  }

  // ----- Main results -----

  ghost predicate Stores(s: Sys, k: nat, v: int)
    requires IsParam(k)
  {
    ParamObject(k) in s.motor.store && s.motor.store[ParamObject(k)] == Q.Encode(k, v)
  }

  /** NEW_SETPOINT rises in the next compose. */
  ghost predicate Fires(s: Sys) { Rises(s.drive, Q.Busy(s.setup, s.Desired())) }

  /** The target time is above the 4.0e6 s where its milliseconds become the value that
      s_applied holds before any write. */
  predicate LongMove(s: Sys) { Less(Fin(4000000.0), Decode(s.drive.targets.time)) }

  /** The last write of parameter k in the run that the motor took, whoever wrote it and
      whatever the answer said. */
  ghost function LastTaken(s: Sys, run: seq<Step>, k: nat): Option<seq<byte>>
    requires s.Valid() && ValidRun(run)
  {
    if run == [] then None
    else
      var before, e := After(s, run[..|run| - 1]), run[|run| - 1];
      if TakesWrite(before, e, k) then Some(before.pipe.slot.req.data) else LastTaken(s, run[..|run| - 1], k)
  }

  ghost predicate TakesWrite(s: Sys, e: Step, k: nat) {
    e.LinkTick? && e.t.transmits && e.t.taken && s.pipe.slot.phase == Pending && Writes(s.pipe.slot.req, k)
  }

  lemma StepStores(s: Sys, e: Step, k: nat)
    requires s.Valid() && ValidStep(e) && IsParam(k)
    ensures var t, o := Next(s, e), ParamObject(k);
      if TakesWrite(s, e, k) then o in t.motor.store && t.motor.store[o] == s.pipe.slot.req.data
      else (o in t.motor.store <==> o in s.motor.store) && (o in s.motor.store ==> t.motor.store[o] == s.motor.store[o])
  {
    if e.LinkTick? {
      hide Exchange, ParamObject;
    } else {
      hide Next, ParamObject;
      OtherStepMotor(s, e);
    }
  }

  /** What the motor stores is the last write it took, or what it stored at first. */
  lemma {:induction false} StoreIsLastTaken(s: Sys, run: seq<Step>, k: nat)
    requires s.Valid() && ValidRun(run) && IsParam(k)
    ensures var t, o := After(s, run), ParamObject(k);
      match LastTaken(s, run, k)
      case Some(d) => o in t.motor.store && t.motor.store[o] == d
      case None => (o in t.motor.store <==> o in s.motor.store) && (o in s.motor.store ==> t.motor.store[o] == s.motor.store[o])
    decreases |run|
  {
    hide Next, ParamObject, TakesWrite;
    if run != [] {
      StoreIsLastTaken(s, run[..|run| - 1], k);
      StepStores(After(s, run[..|run| - 1]), run[|run| - 1], k);
    }
  }

  /**
   * The trigger, in every run of the whole system in which the motor answers honestly, late,
   * lost and failed answers included. When NEW_SETPOINT rises, every parameter was
   * acknowledged, but for the time of a long move; the motor as acknowledged has the desired
   * value exactly for the parameters that are not skewed; and so has the motor itself,
   * unless the parameter was written since by the bridge or with a failed answer. Of every
   * parameter, those included: the motor stores the desired value exactly if the last write
   * it took carried it, or it took none and stored it from the first.
   */
  lemma TriggerMatchesMotor(s: Sys, run: seq<Step>, k: nat)
    requires s.Valid() && Initial(s) && ValidRun(run) && HonestRun(s, run) && IsParam(k) && Fires(After(s, run))
    ensures var m, o := After(s, run), Watch(s, run);
      && (k !in o.acked ==> k == TIME && LongMove(m))
      && (k in o.acked ==> (o.acked[k] == Q.Encode(k, m.Desired()[k]) <==> k !in o.skewed))
      && (k in o.acked && k !in o.unsure ==> (Stores(m, k, m.Desired()[k]) <==> k !in o.skewed))
      && (Stores(m, k, m.Desired()[k]) <==>
          match LastTaken(s, run, k) case Some(d) => d == Q.Encode(k, m.Desired()[k]) case None => Stores(s, k, m.Desired()[k]))
  {
    hide After, Watch, HonestRun, Initial, Q.Encode, ComputeDesired, Sentinels, Less, Decode, LastTaken, ParamObject;
    EveryRunTracked(s, run);
    StoreIsLastTaken(s, run, k);
    var m, o := After(s, run), Watch(s, run);
    assert Knows(m, o, k);
    assert m.setup.step == Q.IDLE_STEP && m.setup.applied[k] == m.Desired()[k];
    DesiredIsSentinel(m.drive.targets, LimitsOf(m.proxy), k);
  }

  // ----- Undisturbed runs -----

  /** While a parameter is being written its desired value stays. */
  ghost predicate Steady(s: Sys, e: Step)
    requires s.Valid() && ValidStep(e)
  {
    s.setup.step != Q.IDLE_STEP ==> Next(s, e).Desired()[s.setup.step] == s.Desired()[s.setup.step]
  }

  ghost predicate SteadyRun(s: Sys, run: seq<Step>)
    requires s.Valid() && ValidRun(run)
  {
    run == [] || (SteadyRun(s, run[..|run| - 1]) && Steady(After(s, run[..|run| - 1]), run[|run| - 1]))
  }

  /** And its answer is OK, and the bridge writes no parameter. */
  ghost predicate Calm(s: Sys, e: Step)
    requires s.Valid() && ValidStep(e)
  {
    && Steady(s, e)
    && (Collects(s, e) ==> s.pipe.slot.result == OD_OK)
    && (e.Receive? && Next(s, e).pipe != s.pipe ==> forall k: nat :: !Writes(Next(s, e).pipe.slot.req, k))
  }

  ghost predicate CalmRun(s: Sys, run: seq<Step>)
    requires s.Valid() && ValidRun(run)
  {
    run == [] || (CalmRun(s, run[..|run| - 1]) && Calm(After(s, run[..|run| - 1]), run[|run| - 1]))
  }

  /** The write in flight carries the value desired now. */
  ghost predicate SendsDesired(s: Sys)
    requires s.Valid()
  {
    s.setup.step != Q.IDLE_STEP ==> s.pipe.slot.req.data == Q.Encode(s.setup.step, s.Desired()[s.setup.step])
  }

  lemma SetupSendsDesired(s: Sys)
    requires s.Valid() && SendsDesired(s)
    ensures SendsDesired(Next(s, SetupTick))
  {
    hide ComputeDesired, Q.Encode, Q.FirstDiff, Q.SetupIndex;
  }

  ghost predicate HandleHeld(s: Sys) { s.setup.step != Q.IDLE_STEP ==> s.setup.handle != NO_HANDLE }

  lemma StepHandleHeld(s: Sys, e: Step)
    requires s.Valid() && ValidStep(e) && HandleHeld(s)
    ensures HandleHeld(Next(s, e))
  {
    hide Next;
    if e.SetupTick? { SetupParts(s); } else { OtherParts(s, e); }
  }

  lemma StepSendsDesired(s: Sys, e: Step)
    requires s.Valid() && ValidStep(e) && (Owned(s) || Orphaned(s)) && SendsDesired(s) && Steady(s, e) && HandleHeld(s)
    ensures SendsDesired(Next(s, e))
  {
    if e.SetupTick? {
      hide Next;
      SetupSendsDesired(s);
    } else if s.setup.step != Q.IDLE_STEP {
      assert Hold(s, SetupWriter) != NO_HANDLE && !NoneHolds(s);
      RequestStays(s, e);
    } else {
      hide Next;
      OtherParts(s, e);
    }
  }

  /** The request in the slot stays while its holder waits. */
  lemma RequestStays(s: Sys, e: Step)
    requires s.Valid() && ValidStep(e) && !e.SetupTick? && Owned(s) && Hold(s, SetupWriter) != NO_HANDLE
    ensures Next(s, e).setup == s.setup && Next(s, e).pipe.slot.req == s.pipe.slot.req
  {
    hide Owned, Fits;
    OtherParts(s, e);
    if e.LinkTick? {
      hide Exchange;
      ExchangeKeeps(s.pipe.slot, (s.frames + 1) % TWO_16, e.t.sendTime, e.t.endTime, e.t.answer);
    } else {
      hide Next;
      OthersLeaveSlot(s, e, SetupWriter);
    }
  }

  /** Unless a parameter changes while its own write is in flight, every value recorded as sent
      is the one that was acknowledged; failed answers, bridge writes and a motor that answers
      at will included. */
  lemma {:induction false} SteadyRunClean(s: Sys, run: seq<Step>)
    requires s.Valid() && Initial(s) && ValidRun(run) && SteadyRun(s, run)
    ensures SendsDesired(After(s, run)) && HandleHeld(After(s, run)) && Watch(s, run).skewed == {}
    decreases |run|
  {
    hide Next, Owned, Orphaned, SendsDesired, HandleHeld, Steady, Observed;
    if run == [] {
      InitialSends(s);
    } else {
      var prefix, e := run[..|run| - 1], run[|run| - 1];
      SteadyRunClean(s, prefix);
      EveryRunOwned(s, prefix);
      SteadyStepClean(After(s, prefix), Watch(s, prefix), e);
      StepHandleHeld(After(s, prefix), e);
      StepSendsDesired(After(s, prefix), e);
    }
  }

  lemma InitialSends(s: Sys)
    requires s.Valid() && Initial(s)
    ensures SendsDesired(s) && HandleHeld(s)
  {
  }

  lemma SteadyStepClean(s: Sys, o: Observer, e: Step)
    requires s.Valid() && ValidStep(e) && SendsDesired(s) && o.skewed == {}
    ensures Observed(s, o, e).skewed == {}
  {
    hide Next, Q.Encode, Poll, ComputeDesired, Writes;
  }

  /** Then, when NEW_SETPOINT rises, every parameter was acknowledged with its desired bytes,
      the time of a long move excepted. */
  lemma SteadyTriggerIsAcked(s: Sys, run: seq<Step>, k: nat)
    requires s.Valid() && Initial(s) && ValidRun(run) && HonestRun(s, run) && SteadyRun(s, run)
    requires IsParam(k) && Fires(After(s, run)) && (k == TIME ==> !LongMove(After(s, run)))
    ensures var acked := Watch(s, run).acked; k in acked && acked[k] == Q.Encode(k, After(s, run).Desired()[k])
  {
    hide After, Watch, HonestRun, SteadyRun, Initial, Fires, LongMove, Stores;
    TriggerMatchesMotor(s, run, k);
    SteadyRunClean(s, run);
  }

  lemma {:induction false} CalmRunClean(s: Sys, run: seq<Step>)
    requires s.Valid() && ValidRun(run) && CalmRun(s, run)
    ensures SteadyRun(s, run) && Watch(s, run).unsure == {}
    decreases |run|
  {
    hide Next, Steady, Q.Encode, Poll, ComputeDesired, Writes;
    if run != [] { CalmRunClean(s, run[..|run| - 1]); }
  }

  /** In a calm run the trigger is right: the motor stores the desired value of every
      parameter when NEW_SETPOINT rises, the time of a long move excepted. */
  lemma CalmTriggerIsRight(s: Sys, run: seq<Step>, k: nat)
    requires s.Valid() && Initial(s) && ValidRun(run) && HonestRun(s, run) && CalmRun(s, run)
    requires IsParam(k) && Fires(After(s, run)) && (k == TIME ==> !LongMove(After(s, run)))
    ensures Stores(After(s, run), k, After(s, run).Desired()[k])
  {
    hide After, Watch, HonestRun, CalmRun, Initial, Fires, LongMove, Stores;
    TriggerMatchesMotor(s, run, k);
    CalmRunClean(s, run);
    SteadyRunClean(s, run);
  }

  // ----- Where it is wrong -----

  /** A move is requested and nothing stops it. */
  ghost predicate MoveWanted(s: Sys) { s.drive.startMove && !s.drive.quickStop && !s.drive.faulted }

  /** The parameter being written changed in flight (and was acknowledged), or went back to
      its old value in flight (and the answer was lost): the next tick leaves the sequencer
      idle, the move fires, and the motor holds another value than the desired one. */
  lemma ChangedInFlightFires(s: Sys)
    requires s.Valid() && Owned(s) && Linked(s) && Collects(s, SetupTick) && s.motor.took && MoveWanted(s)
    requires s.pipe.slot.req.data != Q.Encode(s.setup.step, s.Desired()[s.setup.step])
    requires forall j: nat :: IsParam(j) && (j != s.setup.step || s.pipe.slot.result != OD_OK) ==> s.setup.applied[j] == s.Desired()[j]
    ensures var t := Next(s, SetupTick); Fires(t) && !Stores(t, s.setup.step, t.Desired()[s.setup.step])
  {
    hide Q.Encode, Q.SetupIndex, ComputeDesired, Owned;
    assert s.pipe.slot.handle == Hold(s, SetupWriter);
    CompletionReachesIssuer(s, SetupWriter);
    assert Fits(s, SetupWriter);
  }

  /** A long move is never sent: with the boot value still recorded for the time, and the
      other parameters acknowledged, the move fires although the motor never got a time. */
  lemma LongMoveFires(s: Sys)
    requires s.Valid() && MoveWanted(s) && LongMove(s) && s.setup.step == Q.IDLE_STEP && s.setup.applied[TIME] == Sentinels()[TIME]
    requires forall j: nat :: IsParam(j) && j != TIME ==> s.setup.applied[j] == s.Desired()[j]
    ensures Fires(s)
  {
    hide ComputeDesired, Sentinels, Less, Decode;
    DesiredIsSentinel(s.drive.targets, LimitsOf(s.proxy), TIME);
  }

  /** A datagram, then the frame that carries it. */
  ghost function Delivered(s: Sys, datagram: Step, t: TickEvent): (u: Sys)
    requires s.Valid() && ValidStep(datagram) && ValidStep(LinkTick(t))
    ensures u.Valid()
  {
    Next(Next(s, datagram), LinkTick(t))
  }

  /** The datagram writes other bytes to the parameter than the sequencer would. */
  ghost predicate Overwrites(m: Bridge.Incoming, k: nat, desired: Setup)
    requires IsParam(k)
  {
    var d := Bridge.DecodeReq(m);
    d.ForMotor? && Writes(d.req, k) && d.req.data != Q.Encode(k, desired[k])
  }

  /** The bridge overwrites a parameter the sequencer has settled: the move still fires, and
      the motor holds what the bridge wrote. */
  lemma BridgeOverwriteFires(s: Sys, k: nat, e: Step, t: TickEvent)
    requires s.Valid() && Fires(s) && IsParam(k) && s.pipe.slot.phase.Idle? && !s.bridge.inFlight
    requires e.Receive? && Overwrites(e.message, k, s.Desired())
    requires ValidStep(LinkTick(t)) && t.transmits && t.taken
    ensures var u := Delivered(s, e, t); Fires(u) && u.Desired() == s.Desired() && !Stores(u, k, u.Desired()[k])
  {
    hide Next, Bridge.DecodeReq, Q.Encode, Fires, Writes, Stores;
    ReceiveBegins(s, e);
    var b := Next(s, e);
    LinkKeepsSetup(b, t);
    SameFires(s, Next(b, LinkTick(t)));
    TakenIsStored(b, t, k, s.Desired()[k]);
  }

  lemma TakenIsStored(s: Sys, t: TickEvent, k: nat, v: int)
    requires s.Valid() && IsParam(k) && ValidStep(LinkTick(t)) && t.transmits && t.taken
    requires s.pipe.slot.phase == Pending && Writes(s.pipe.slot.req, k)
    ensures Stores(Next(s, LinkTick(t)), k, v) <==> s.pipe.slot.req.data == Q.Encode(k, v)
  {
    hide Next, Q.Encode, ParamObject, Writes;
    StepStores(s, LinkTick(t), k);
  }

  lemma SameFires(s: Sys, u: Sys)
    requires u.setup == s.setup && u.drive == s.drive && u.proxy == s.proxy
    ensures u.Desired() == s.Desired() && (Fires(u) <==> Fires(s))
  {
    hide ComputeDesired, Q.Busy;
  }

  lemma ReceiveBegins(s: Sys, e: Step)
    requires s.Valid() && s.pipe.slot.phase.Idle? && !s.bridge.inFlight && e.Receive? && Bridge.DecodeReq(e.message).ForMotor?
    ensures var u := Next(s, e);
      && u == s.(pipe := u.pipe, bridge := u.bridge)
      && u.pipe.slot.phase == Pending && u.pipe.slot.req == Bridge.DecodeReq(e.message).req
  {
    hide Bridge.DecodeReq;
  }

  lemma LinkKeepsSetup(s: Sys, t: TickEvent)
    requires s.Valid() && ValidStep(LinkTick(t))
    ensures var u := Next(s, LinkTick(t)); u.setup == s.setup && u.drive == s.drive && u.proxy == s.proxy
  {
    hide Exchange, MotorAfter;
  }
}
