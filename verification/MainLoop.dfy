/**
 * The motor side of app/main_loop: one iteration of the super-loop is a run of the system
 * model, so what holds in every run of the model holds after any number of iterations; and
 * every iteration is one step of the telemetry subscription, if there is one.
 */
module MainLoop {
  import opened Bytes
  import opened Frame
  import opened Pipeline
  import opened Scaling
  import opened System
  import opened Time
  import opened Ownership
  import opened Wedge
  import Axis = AxisManager
  import Bridge
  import MotorEnd
  import Wire
  import Link = Cia402
  import Od
  import Tlm = Telemetry

  /** The frame of one cia402_tick as an event of the model; `taken` and `answers` are the
      motor's and the wire's part, which the firmware does not see. */
  function EventOf(l: Link.Link, t: Link.TickIn, taken: bool, answers: nat): (e: TickEvent)
    requires |t.wire| == FRAME_BYTES
    ensures ValidStep(LinkTick(e))
  {
    var reply := if t.spiOk then Link.Sort(Validate(t.wire)) else Other;
    TickEvent(Link.Transmits(l, t.now), t.sendTime, t.endTime, taken, AnswerOf(reply), answers)
  }

  /** od_tick as steps. */
  function OdSteps(arrivals: seq<Od.Packet>): (run: seq<Step>)
    requires |arrivals| <= 1
    ensures ValidRun(run)
  {
    if arrivals == [] || !Od.Meaning(arrivals[0]).Asks? then [Service]
    else
      var m := Od.Meaning(arrivals[0]);
      [Service, Receive(m.peer, m.sequence, m.body, m.local)]
  }

  /** The datagrams od_tick sends to clients: the answer to the pending request, if there is
      one, and then what the datagram received is owed at once. */
  function OdReplies(s: Sys, arrivals: seq<Od.Packet>): seq<Bridge.Datagram>
    requires s.Valid() && |arrivals| <= 1
  {
    var served := Bridge.Service(s.pipe, s.bridge);
    served.2 +
    if arrivals == [] then []
    else
      var m := Od.Meaning(arrivals[0]);
      if m.Asks? then Bridge.Receive(served.0, served.1, m.peer, m.sequence, m.body, m.local).2 else Od.ReplyTo(m)
  }

  /** What a subscription in state t becomes when telemetry finds this status. */
  ghost function Served(active: bool, t: Tlm.Tele, c: Link.Cyclic, now: nat): Tlm.Tele
    requires c.Valid() && (active ==> t.Valid())
  {
    if active then Tlm.Serve(t, Od.Arrived(c), Clock(now)) else t
  }

  lemma LinkIsStep(s: Sys, l: Link.Link, t: Link.TickIn, taken: bool, answers: nat)
    requires s.Valid() && l.Valid() && |t.wire| == FRAME_BYTES && l.pipe == s.pipe && l.sequence == s.frames % TWO_16
    ensures var e, m := EventOf(l, t, taken, answers), Link.Ticked(l, t);
      var u := if e.transmits then s.(pipe := m.pipe, frames := s.frames + 1, motor := MotorAfter(s, e)) else s;
      && Next(s, LinkTick(e)) == u && u.pipe == m.pipe && m.sequence == u.frames % TWO_16 && m.cmd == l.cmd
      && e.transmits == Link.Transmits(l, t.now) && (e.transmits ==> m.sequence == (l.sequence + 1) % TWO_16)
  {
    hide Link.Sort, Validate, AnswerOf, Exchange, MotorAfter, Link.TakeStatus;
    assert (l.sequence + 1) % TWO_16 == (s.frames + 1) % TWO_16;
  }

  /** The frame and the status a tick of the link ends with do not depend on the slot or on
      the command. */
  lemma TickDependsOn(l: Link.Link, m: Link.Link, t: Link.TickIn, taken: bool, answers: nat)
    requires l.Valid() && m.Valid() && |t.wire| == FRAME_BYTES && m == l.(pipe := m.pipe, cmd := m.cmd)
    ensures EventOf(l, t, taken, answers) == EventOf(m, t, taken, answers)
    ensures Link.Ticked(l, t).status == Link.Ticked(m, t).status
  {
    hide Link.Sort, Validate, AnswerOf, Exchange, Link.TakeStatus;
  }

  /** What one iteration meets: the requests the other modules made since the last one, the
      clock at the axis manager and at the bridge, the buttons, the frame clocked in, the
      datagram received, and the motor's part. */
  datatype Input = Input(
    requests: seq<Axis.AxisRequest>, now: nat, later: nat, up: bool, down: bool, frame: Link.TickIn,
    arrivals: seq<Od.Packet>, taken: bool, answers: nat)
  {
    ghost predicate Valid() {
      |frame.wire| == FRAME_BYTES && |arrivals| <= 1 && forall r :: r in requests ==> Axis.ValidRequest(r)
    }
  }

  class MainLoop {
    const cia: Link.Cia402
    const axis: Axis.AxisManager
    const od: Od.Od
    ghost var frames: nat
    ghost var motor: Motor

    ghost predicate Valid()
      reads this, axis, axis.slots, cia, cia.txData, od, od.cia, od.cia.txData, axis.cia, axis.cia.txData, od.sub, od.sub.sampleBuf
    {
      && axis.cia == cia && od.cia == cia && axis.Valid() && od.Valid() && cia.sequence == frames % TWO_16
      && cia.cmd == Wire.CommandOf(axis.word)
    }

    ghost function State(): (s: Sys)
      requires Valid()
      reads this, axis, axis.slots, cia, cia.txData, od, od.cia, od.cia.txData, axis.cia, axis.cia.txData, od.sub, od.sub.sampleBuf
      ensures s.Valid()
    {
      axis.View(frames, od.pending, motor)
    }

    constructor (now: nat, limits: Limits, ghost store: map<Object, seq<byte>>)
      ensures Valid() && fresh(axis) && fresh(axis.slots) && fresh(cia) && fresh(cia.tx) && fresh(cia.rx) && fresh(cia.txData) && fresh(od)
        && fresh(od.sub) && fresh(od.sub.sampleBuf) && !od.sub.active
      ensures Initial(State())
    {
      hide Initial, MaxVelocity;
      var c := new Link.Cia402(now);
      var a := new Axis.AxisManager(c, limits);
      var o := new Od.Od(c);
      cia, axis, od := c, a, o;
      frames := 0;
      motor := Motor(store, false, 0, 0);
    }

    /** One cia402_tick; the motor hears what the model's state shows, under the number of the
        frame. */
    method TickLink(t: Link.TickIn, ghost taken: bool, ghost answers: nat)
      requires Valid() && |t.wire| == FRAME_BYTES
      modifies `frames, `motor, cia, cia.tx, cia.rx
      ensures Valid()
      ensures State() == Next(old(State()), LinkTick(EventOf(old(cia.State()), t, taken, answers)))
      ensures cia.status == Link.Ticked(old(cia.State()), t).status
      ensures Link.Transmits(old(cia.State()), t.now) ==>
        && MotorEnd.Hear(cia.tx[..]) == Wire.Shown(old(State()), old(cia.commandCounter))
        && MotorEnd.NumberOf(cia.tx[..]) == frames % TWO_16
    {
      hide Link.Ticked, EventOf, Next, MotorAfter, MaxVelocity, Wire.CommandOf, MotorEnd.Hear, MotorEnd.NumberOf, Link.FrameSent;
      Wire.FrameIsHeard(cia.State(), cia.txData[..], axis.word);
      ghost var e := EventOf(cia.State(), t, taken, answers);
      ghost var s := State();
      LinkIsStep(s, cia.State(), t, taken, answers);
      cia.Tick(t);
      if e.transmits {
        motor := MotorAfter(s, e);
        frames := frames + 1;
      }
    }

    /** od_tick. */
    method TickOd(arrivals: seq<Od.Packet>, now: nat) returns (out: seq<Bridge.Datagram>)
      requires Valid() && |arrivals| <= 1
      modifies od, cia`pipe, cia`status, cia.txData, od.sub, od.sub.sampleBuf
      ensures Valid() && State() == After(old(State()), OdSteps(arrivals)) && out == OdReplies(old(State()), arrivals)
      ensures Od.SameSubscriber(arrivals) ==>
        && od.sub.active == old(od.sub.active)
        && od.sub.State() == Served(old(od.sub.active), old(od.sub.State()), old(cia.status), now)
      ensures arrivals != [] && Od.Meaning(arrivals[0]).Unsubscribes? ==> !od.sub.active && od.sub.State() == old(od.sub.State())
    {
      hide Next, MaxVelocity, Bridge.Service, Bridge.Receive, Tlm.Serve;
      ghost var s := State();
      ghost var subscribed, before;
      out, subscribed, before := od.Tick(arrivals, now);
      OdIsStep(s, State(), arrivals);
    }

    /** axis_manager_tick. */
    method TickAxis(now: nat, up: bool, down: bool) returns (ghost run: seq<Step>)
      requires Valid()
      modifies axis, axis.slots, cia`pipe, cia`cmd, cia.txData
      ensures Valid() && ValidRun(run) && State() == After(old(State()), run) && run == old(axis.Steps(now, up, down))
    {
      hide After, Axis.AxisManager.Steps, MaxVelocity;
      run := axis.Steps(now, up, down);
      axis.Tick(now, up, down, frames, od.pending, motor);
    }

    /** One iteration: axis manager, link, request bridge and telemetry. Its run is exactly the
        calls the loop makes, with what the firmware read from the buttons, the wire and the
        network; and the motor hears what the axis manager has just composed, or a request. */
    method Iterate(now: nat, later: nat, up: bool, down: bool, t: Link.TickIn, arrivals: seq<Od.Packet>, ghost taken: bool, ghost answers: nat)
      returns (out: seq<Bridge.Datagram>, ghost run: seq<Step>)
      requires Valid() && |t.wire| == FRAME_BYTES && |arrivals| <= 1
      modifies this, axis, axis.slots, od, cia, cia.tx, cia.rx, cia.txData, od.sub, od.sub.sampleBuf
      ensures Valid() && ValidRun(run) && State() == After(old(State()), run)
      ensures run == old(axis.Steps(now, up, down)) + [LinkTick(EventOf(old(cia.State()), t, taken, answers))] + OdSteps(arrivals)
      ensures out == OdReplies(After(old(State()), run[..|run| - |OdSteps(arrivals)|]), arrivals)
      ensures Link.Transmits(old(cia.State()), t.now) ==>
        MotorEnd.Hear(cia.tx[..]) == Wire.Shown(After(old(State()), old(axis.Steps(now, up, down))), old(cia.commandCounter))
      ensures Od.SameSubscriber(arrivals) ==>
        && od.sub.active == old(od.sub.active)
        && od.sub.State() == Served(old(od.sub.active), old(od.sub.State()), Link.Ticked(old(cia.State()), t).status, later)
    {
      hide After, Next, MaxVelocity, OdSteps, OdReplies, EventOf, Axis.AxisManager.Steps, Link.Ticked, Served, MotorEnd.Hear, Wire.Shown, MotorEnd.NumberOf;
      ghost var s, l := State(), cia.State();
      ghost var first := TickAxis(now, up, down);
      TickDependsOn(l, cia.State(), t, taken, answers);
      ghost var e := EventOf(cia.State(), t, taken, answers);
      TickLink(t, taken, answers);
      Axis.LastStep(s, first, LinkTick(e));
      out := TickOd(arrivals, later);
      Axis.AfterAppended(s, first + [LinkTick(e)], OdSteps(arrivals));
      run := first + [LinkTick(e)] + OdSteps(arrivals);
      assert run[..|run| - |OdSteps(arrivals)|] == first + [LinkTick(e)];
    }

    /** The requests made between two iterations, in their order. */
    method Obey(requests: seq<Axis.AxisRequest>, now: nat) returns (ghost run: seq<Step>)
      requires Valid() && forall r :: r in requests ==> Axis.ValidRequest(r)
      modifies axis, axis.slots, cia`pipe, cia.txData
      ensures Valid() && ValidRun(run) && State() == After(old(State()), run) && |run| == |requests|
    {
      hide After, Next, MaxVelocity;
      run := [];
      ghost var s := State();
      Axis.NoSteps(s);
      for i := 0 to |requests|
        modifies axis, axis.slots, cia`pipe, cia.txData
        invariant Valid() && ValidRun(run) && State() == After(s, run) && |run| == i
      {
        assert requests[i] in requests;
        ghost var e := Axis.StepOf(axis.drive, requests[i], now);
        axis.Obey(requests[i], now, frames, od.pending, motor);
        Axis.LastStep(s, run, e);
        run := run + [e];
      }
    }

    /** The loop, for any number of iterations. It is a run of the system: if it started from
        boot, the slot is owned or was abandoned by a motor save, and it is wedged exactly if a
        call of the run wedged it. It is a run of the subscription, if that was there when the
        loop started and stays. */
    method Run(inputs: seq<Input>) returns (ghost run: seq<Step>, ghost served: seq<Tlm.Step>)
      requires Valid() && forall i :: 0 <= i < |inputs| ==> inputs[i].Valid()
      modifies this, axis, axis.slots, od, cia, cia.tx, cia.rx, cia.txData, od.sub, od.sub.sampleBuf
      ensures Valid() && ValidRun(run) && State() == After(old(State()), run)
      ensures Initial(old(State())) ==> if EverAbandons(old(State()), run) then Orphaned(State()) else Owned(State())
      ensures Initial(old(State())) ==> (Wedged(State()) <==> WedgedBy(old(State()), run))
      ensures old(od.sub.active) && (forall i :: 0 <= i < |inputs| ==> Od.SameSubscriber(inputs[i].arrivals)) ==>
        && od.sub.active && |served| == |inputs| && Tlm.ValidRun(old(od.sub.State()), served)
        && od.sub.State() == Tlm.After(old(od.sub.State()), served)
    {
      hide After, Next, MaxVelocity, Initial, EverAbandons, Orphaned, Owned, Wedged, WedgedBy, OdSteps, EventOf, Axis.AxisManager.Steps, Tlm.After, Tlm.ValidRun;
      run, served := [], [];
      ghost var s, t := State(), od.sub.State();
      ghost var subscribed := od.sub.active && forall i :: 0 <= i < |inputs| ==> Od.SameSubscriber(inputs[i].arrivals);
      Axis.NoSteps(s);
      if subscribed { NothingServed(t); }
      for i := 0 to |inputs|
        modifies this, axis, axis.slots, od, cia, cia.tx, cia.rx, cia.txData, od.sub, od.sub.sampleBuf
        invariant Valid() && ValidRun(run) && State() == After(s, run)
        invariant subscribed ==> od.sub.active && |served| == i && Tlm.ValidRun(t, served) && od.sub.State() == Tlm.After(t, served)
      {
        ghost var more;
        more, served := Turn(inputs[i], s, run, t, served, subscribed);
        run := run + more;
      }
      if Initial(s) {
        EveryRunOwned(s, run);
        EveryRunWedged(s, run);
      }
    }

    /** One turn of Run: the requests, then the iteration. */
    method Turn(input: Input, ghost s: Sys, ghost run: seq<Step>, ghost t: Tlm.Tele, ghost served: seq<Tlm.Step>, ghost subscribed: bool)
      returns (ghost more: seq<Step>, ghost now: seq<Tlm.Step>)
      requires Valid() && input.Valid() && s.Valid() && ValidRun(run) && State() == After(s, run)
      requires subscribed ==> Od.SameSubscriber(input.arrivals) && od.sub.active && Tlm.ValidRun(t, served) && od.sub.State() == Tlm.After(t, served)
      modifies this, axis, axis.slots, od, cia, cia.tx, cia.rx, cia.txData, od.sub, od.sub.sampleBuf
      ensures Valid() && ValidRun(run + more) && State() == After(s, run + more)
      ensures subscribed ==> od.sub.active && |now| == |served| + 1 && Tlm.ValidRun(t, now) && od.sub.State() == Tlm.After(t, now)
    {
      hide OdReplies, After, Next, MaxVelocity, OdSteps, EventOf, Axis.AxisManager.Steps, Tlm.After, Tlm.ValidRun, Tlm.Serve, Link.Ticked;
      ghost var asked := Obey(input.requests, input.now);
      Axis.AfterAppended(s, run, asked);
      ghost var c := Link.Ticked(cia.State(), input.frame).status;
      ghost var step := Tlm.Step(Od.Arrived(c), Clock(input.later));
      now := served + [step];
      if subscribed { ServedOnce(t, served, step); }
      var out;
      ghost var ticked;
      out, ticked := Iterate(input.now, input.later, input.up, input.down, input.frame, input.arrivals, input.taken, input.answers);
      Axis.AfterAppended(s, run + asked, ticked);
      more := asked + ticked;
      assert run + more == run + asked + ticked;
    }
  }

  lemma NothingServed(t: Tlm.Tele)
    requires t.Valid()
    ensures Tlm.ValidRun(t, []) && Tlm.After(t, []) == t
  {
  }

  lemma ServedOnce(t: Tlm.Tele, served: seq<Tlm.Step>, step: Tlm.Step)
    requires Tlm.ValidRun(t, served) && step.Valid()
    ensures Tlm.ValidRun(t, served + [step]) && Tlm.After(t, served + [step]) == Tlm.Serve(Tlm.After(t, served), step.input, step.now)
  {
    hide Tlm.Serve;
    assert (served + [step])[..|served|] == served;
  }

  lemma OdIsStep(s: Sys, t: Sys, arrivals: seq<Od.Packet>)
    requires s.Valid() && |arrivals| <= 1 && t == s.(pipe := t.pipe, bridge := t.bridge)
    requires var served := Bridge.Service(s.pipe, s.bridge);
      if arrivals == [] || !Od.Meaning(arrivals[0]).Asks? then t.pipe == served.0 && t.bridge == served.1
      else
        var m := Od.Meaning(arrivals[0]);
        var received := Bridge.Receive(served.0, served.1, m.peer, m.sequence, m.body, m.local);
        t.pipe == received.0 && t.bridge == received.1
    ensures t == After(s, OdSteps(arrivals))
  {
    hide After, Next, Bridge.Service, Bridge.Receive;
    Axis.NoSteps(s);
    Axis.LastStep(s, [], Service);
    assert [] + [Service] == [Service];
    ServiceParts(s);
    if arrivals != [] && Od.Meaning(arrivals[0]).Asks? {
      var m := Od.Meaning(arrivals[0]);
      var u, r := Next(s, Service), Receive(m.peer, m.sequence, m.body, m.local);
      Axis.LastStep(s, [Service], r);
      assert [Service] + [r] == [Service, r];
      ReceiveParts(u, m);
    }
  }

  lemma ServiceParts(s: Sys)
    requires s.Valid()
    ensures var served := Bridge.Service(s.pipe, s.bridge); Next(s, Service) == s.(pipe := served.0, bridge := served.1)
  {
    hide Bridge.Service;
  }

  lemma ReceiveParts(s: Sys, m: Od.Message)
    requires s.Valid() && m.Asks?
    ensures var received := Bridge.Receive(s.pipe, s.bridge, m.peer, m.sequence, m.body, m.local);
      Next(s, Receive(m.peer, m.sequence, m.body, m.local)) == s.(pipe := received.0, bridge := received.1)
  {
    hide Bridge.Receive;
  }
}
