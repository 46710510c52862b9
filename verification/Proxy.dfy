/**
 * The cache of motor-owned parameters in app/axis_manager: a table of seven slots written
 * through to the motor by a round-robin writer and read back by a periodic resync.
 */
module ProxyCache {
  import opened Bytes
  import opened Pipeline
  import opened Scaling
  import opened SetupSequencer
  import opened Time

  const SLOT_COUNT := 7
  const VEL_LIMIT := 3
  const ACCEL_LIMIT := 4
  const POS_LIMIT_LO := 5
  const POS_LIMIT_HI := 6
  const KICKOFF_DELAY_MS := 500
  const RESYNC_PERIOD_MS := 5000

  /** A slot: the value to write or last read, whether it still has to be written, and the
      field of s_axis that mirrors it. */
  datatype Entry = Entry(value: f32, dirty: bool, mirror: f32)

  type Table = t: seq<Entry> | |t| == SLOT_COUNT
    witness [Entry(0, false, 0), Entry(0, false, 0), Entry(0, false, 0), Entry(0, false, 0),
             Entry(0, false, 0), Entry(0, false, 0), Entry(0, false, 0)]

  datatype Proxy = Proxy(slots: Table, handle: int, pending: bool, inflight: nat) {
    ghost predicate Valid() { inflight < SLOT_COUNT }
    function Hold(): int { if pending then handle else NO_HANDLE }
  }

  datatype BootState = BootIdle | BootBusy | BootDone

  datatype Boot = Boot(state: BootState, handle: int, inflight: nat, next: nat, startMs: nat, lastDoneMs: nat) {
    ghost predicate Valid() { inflight < SLOT_COUNT && next <= SLOT_COUNT && startMs < TWO_32 && lastDoneMs < TWO_32 }
    function Hold(): int { if state == BootBusy then handle else NO_HANDLE }
  }

  function SlotIndex(k: nat): (i: nat)
    ensures 0x2000 <= i < 0x3000
  {
    if k < VEL_LIMIT then 0x2300 else 0x2600
  }

  function SlotSub(k: nat): (s: nat)
    requires k < SLOT_COUNT
    ensures 4 <= s <= 8
  {
    if k < VEL_LIMIT then 6 + k else 1 + k
  }

  lemma SlotObjectInjective(j: nat, k: nat)
    requires j < SLOT_COUNT && k < SLOT_COUNT && SlotIndex(j) == SlotIndex(k) && SlotSub(j) == SlotSub(k)
    ensures j == k
  {
  }

  function WriteOf(k: nat, value: f32): Request
    requires k < SLOT_COUNT
  {
    Request(false, SlotIndex(k), SlotSub(k), T_F32, Split32(value))
  }

  function ReadOf(k: nat): Request
    requires k < SLOT_COUNT
  {
    Request(true, SlotIndex(k), SlotSub(k), T_F32, [])
  }

  /** The value forwarded to the motor for a new setting, and the setting a motor value means:
      position limits exchange the motor's 0 ("disabled") for infinities. */
  function Forwarded(k: nat, v: f32): f32 {
    if k == POS_LIMIT_LO || k == POS_LIMIT_HI then FiniteOrZero(v) else v
  }

  function Adopted(k: nat, v: f32): f32 {
    if k == POS_LIMIT_LO && IsZero(v) then MINUS_INFINITY
    else if k == POS_LIMIT_HI && IsZero(v) then PLUS_INFINITY
    else v
  }

  /** The setters accept v: not NaN, and not negative except for position limits. */
  predicate Settable(k: nat, v: f32) {
    !IsNan(v) && (k == POS_LIMIT_LO || k == POS_LIMIT_HI || !IsNegative(v))
  }

  /** The six setters: mirror the setting, then proxy_motor_f32_begin. */
  function Set(x: Proxy, k: nat, v: f32): (y: Proxy)
    requires k < SLOT_COUNT
  {
    if Settable(k, v) then x.(slots := x.slots[k := Entry(Forwarded(k, v), true, v)]) else x
  }

  function RoundRobin(inflight: nat, i: nat): (k: nat)
    ensures k < SLOT_COUNT
  {
    (inflight + 1 + i) % SLOT_COUNT
  }

  /** The scan of poll_motor_proxy_sdo from offset i on: the first dirty slot, or none. */
  function NextDirty(x: Proxy, i: nat): (k: nat)
    requires i <= SLOT_COUNT
    ensures k <= SLOT_COUNT && (k < SLOT_COUNT ==> x.slots[k].dirty)
    decreases SLOT_COUNT - i
  {
    if i == SLOT_COUNT then SLOT_COUNT
    else if x.slots[RoundRobin(x.inflight, i)].dirty then RoundRobin(x.inflight, i)
    else NextDirty(x, i + 1)
  }

  function Drain(p: Pipe, x: Proxy): (r: (Pipe, Proxy))
    requires p.Valid() && x.Valid()
    ensures r.0.Valid() && r.1.Valid()
  {
    if !x.pending then (p, x)
    else
      var polled := Poll(p, x.handle);
      if polled.1.NotYet? then (p, x) else (polled.0, x.(handle := NO_HANDLE, pending := false))
  }

  function Start(p: Pipe, x: Proxy): (r: (Pipe, Proxy))
    requires p.Valid() && x.Valid()
    ensures r.0.Valid() && r.1.Valid()
  {
    var k := NextDirty(x, 0);
    if x.pending || k == SLOT_COUNT then (p, x)
    else
      var begun := Begin(p, WriteOf(k, x.slots[k].value));
      if begun.1 == NO_HANDLE then (p, x)
      else (begun.0, Proxy(x.slots[k := x.slots[k].(dirty := false)], begun.1, true, k))
  }

  /** poll_motor_proxy_sdo. */
  function Tick(p: Pipe, x: Proxy): (r: (Pipe, Proxy))
    requires p.Valid() && x.Valid()
    ensures r.0.Valid() && r.1.Valid()
  {
    var drained := Drain(p, x);
    Start(drained.0, drained.1)
  }

  // ----- Resync -----

  /** axis_manager_request_motor_resync. */
  function RequestResync(b: Boot, now: nat): (c: Boot)
    ensures b.Valid() ==> c.Valid()
    ensures c.Hold() == b.Hold()
  {
    if b.state != BootDone then b
    else b.(state := BootIdle, next := 0, startMs := (Clock(now) - KICKOFF_DELAY_MS) % TWO_32)
  }

  /** The waiting part of tick_proxy_bootsync: the state to go on in, if it is time to. */
  function Wake(b: Boot, now: nat): (r: (Boot, bool))
    ensures b.Valid() ==> r.0.Valid()
    ensures r.0.Hold() == b.Hold() && (r.1 ==> r.0.state != BootDone)
  {
    if b.state == BootDone && Elapsed(now, b.lastDoneMs) < RESYNC_PERIOD_MS then (b, false)
    else
      var c := RequestResync(b, now);
      if c.state == BootIdle then
        var d := if c.startMs == 0 then c.(startMs := Clock(now)) else c;
        (d, Elapsed(now, d.startMs) >= KICKOFF_DELAY_MS)
      else (c, true)
  }

  /** Does a completed read give a usable float? */
  predicate Usable(polled: Polled) { polled.Done? && polled.result == OD_OK && |polled.data| == 4 }

  /** The slot table after a read of slot k came back: a dirty slot keeps its value. */
  function Adopt(x: Proxy, k: nat, polled: Polled): (y: Proxy)
    requires k < SLOT_COUNT
    ensures y.handle == x.handle && y.pending == x.pending && y.inflight == x.inflight
  {
    if Usable(polled) && !x.slots[k].dirty then
      var v := Join32(polled.data);
      x.(slots := x.slots[k := Entry(v, false, Adopted(k, v))])
    else x
  }

  function BootDrain(p: Pipe, b: Boot, x: Proxy): (r: (Pipe, Boot, Proxy))
    requires p.Valid() && b.Valid() && x.Valid()
    ensures r.0.Valid() && r.1.Valid() && r.2.Valid()
  {
    if b.state != BootBusy then (p, b, x)
    else
      var polled := Poll(p, b.handle);
      if polled.1.NotYet? then (p, b, x)
      else (polled.0, b.(handle := NO_HANDLE, state := BootIdle), Adopt(x, b.inflight, polled.1))
  }

  function BootStart(p: Pipe, b: Boot, now: nat): (r: (Pipe, Boot))
    requires p.Valid() && b.Valid()
    ensures r.0.Valid() && r.1.Valid()
  {
    if b.state == BootBusy then (p, b)
    else if b.next >= SLOT_COUNT then (p, b.(state := BootDone, lastDoneMs := Clock(now)))
    else
      var begun := Begin(p, ReadOf(b.next));
      if begun.1 == NO_HANDLE then (p, b)
      else (begun.0, b.(handle := begun.1, inflight := b.next, state := BootBusy, next := b.next + 1))
  }

  /** tick_proxy_bootsync. */
  function BootTick(p: Pipe, b: Boot, x: Proxy, now: nat): (r: (Pipe, Boot, Proxy))
    requires p.Valid() && b.Valid() && x.Valid()
    ensures r.0.Valid() && r.1.Valid() && r.2.Valid()
  {
    var woken := Wake(b, now);
    if !woken.1 then (p, woken.0, x)
    else
      var drained := BootDrain(p, woken.0, x);
      var started := BootStart(drained.0, drained.1, now);
      (started.0, started.1, drained.2)
  }

  /** A resync read never overwrites a value the operator set and the motor has not got. */
  lemma ResyncKeepsPending(p: Pipe, b: Boot, x: Proxy, now: nat, k: nat)
    requires p.Valid() && b.Valid() && x.Valid() && k < SLOT_COUNT && x.slots[k].dirty
    ensures BootTick(p, b, x, now).2.slots[k] == x.slots[k]
  {
  }

  /** When a pass over the slots begins, goes on and ends: 500 ms after boot the first read goes
      out, each answer starts the next read in the same tick, and the last ends the pass; 5 s
      later, or on request, a new one begins at slot 0. */
  lemma ResyncWhenDue(p: Pipe, b: Boot, x: Proxy, now: nat)
    requires p.Valid() && b.Valid() && x.Valid() && b.state != BootDone && (b.state == BootBusy || b.startMs != 0)
    ensures var r := BootTick(p, b, x, now);
      var collected := b.state == BootBusy && b.handle != NO_HANDLE && b.handle == p.slot.handle && p.slot.phase == Complete;
      if b.state == BootIdle && Elapsed(now, b.startMs) < 500 then r == (p, b, x)
      else if b.state == BootBusy && !collected then r == (p, b, x)
      else if b.next == 7 then r.1.state == BootDone && r.1.lastDoneMs == Clock(now)
      else if collected || p.slot.phase == Idle then
        r.1.state == BootBusy && r.1.inflight == b.next && r.1.next == b.next + 1 && r.1.handle == r.0.slot.handle
        && r.0.slot.phase == Pending && r.0.slot.req == ReadOf(b.next)
      else r == (p, b, x)
  {
    hide Adopt, Elapsed;
  }

  /** The next pass begins as if the first 500 ms were over, and the first as if boot were at its
      first tick; a clock reading of 500 at the restart makes the new pass wait once more. */
  lemma ResyncAgain(p: Pipe, b: Boot, x: Proxy, now: nat)
    requires p.Valid() && b.Valid() && x.Valid()
    ensures var c := b.(state := BootIdle, next := 0, startMs := (Clock(now) - 500) % TWO_32);
      b.state == BootDone ==>
        && RequestResync(b, now) == c && Elapsed(now, c.startMs) == 500
        && BootTick(p, b, x, now) == if Elapsed(now, b.lastDoneMs) < 5000 then (p, b, x)
                                     else if Clock(now) == 500 then (p, c.(startMs := 500), x) else BootTick(p, c, x, now)
    ensures b.state != BootDone ==> RequestResync(b, now) == b
    ensures b.state == BootIdle && b.startMs == 0 ==> BootTick(p, b, x, now) == (p, b.(startMs := Clock(now)), x)
  {
    hide BootStart, BootDrain, Elapsed;
    FiveHundred(now);
    NothingElapsed(now);
  }

  lemma NothingElapsed(now: nat)
    ensures Elapsed(now, Clock(now)) == 0
  {
  }

  lemma FiveHundred(now: nat)
    ensures Elapsed(now, (Clock(now) - 500) % TWO_32) == 500
    ensures (Clock(now) - 500) % TWO_32 == 0 <==> Clock(now) == 500
  {
  }

  // ----- The mirrors -----

  /** A touched slot and its mirror say the same: finite_or_zero of a position limit, or the
      setting itself, is the slot's value. */
  ghost predicate Mirrored(e: Entry, k: nat) {
    if (k == POS_LIMIT_LO || k == POS_LIMIT_HI) && IsFinite(e.value)
    then FiniteOrZero(e.mirror) == e.value || (IsZero(e.value) && IsZero(FiniteOrZero(e.mirror)))
    else e.mirror == e.value
  }

  lemma SetMirrors(x: Proxy, k: nat, v: f32)
    requires k < SLOT_COUNT && Settable(k, v)
    ensures Mirrored(Set(x, k, v).slots[k], k)
  {
    ZeroIsFinite(v);
  }

  /** A setting is refused if it is no number, or negative and not a position limit; accepted,
      it is mirrored as it is and waits to be written: itself, or zero for an infinite position
      limit. No other slot changes. */
  lemma SettingIsKept(x: Proxy, k: nat, v: f32)
    requires k < SLOT_COUNT
    ensures var y, n := Set(x, k, v), Decode(v);
      if n.NaN? || (k < 5 && Less(n, Fin(0.0))) then y == x
      else y == x.(slots := x.slots[k := Entry(if k >= 5 && !n.Fin? then 0 else v, true, v)])
  {
    hide Decode, IsFinite, IsNan, IsNegative;
    SignOfNumber(v);
  }

  lemma SignOfNumber(v: f32)
    ensures Decode(v).NaN? <==> IsNan(v)
    ensures Decode(v).Fin? <==> IsFinite(v)
    ensures Less(Decode(v), Fin(0.0)) <==> IsNegative(v)
  {
    hide MagnitudeOf;
    FieldsOfZero(v);
    MagnitudePositive(((v >> 23) & 0xFF) as nat, (v & 0x007F_FFFF) as nat);
  }

  lemma FieldsOfZero(v: f32)
    ensures IsZero(v) <==> ((v >> 23) & 0xFF) as nat == 0 && (v & 0x007F_FFFF) as nat == 0
    ensures IsNan(v) ==> !IsFinite(v)
  {
    ZeroFields(v);
    ZeroPattern((v >> 23) & 0xFF);
    ZeroPattern(v & 0x007F_FFFF);
  }

  lemma ZeroFields(v: f32)
    ensures IsZero(v) <==> (v >> 23) & 0xFF == 0 && v & 0x007F_FFFF == 0
  {
  }

  lemma ZeroPattern(b: bv32)
    ensures b as nat == 0 <==> b == 0
  {
  }

  lemma ZeroIsFinite(v: f32)
    ensures IsFinite(0) && IsZero(0) && (IsZero(v) ==> IsFinite(v))
    ensures !IsFinite(PLUS_INFINITY) && !IsFinite(MINUS_INFINITY)
    ensures IsFinite(FiniteOrZero(v))
  {
  }

  lemma AdoptMirrors(x: Proxy, k: nat, polled: Polled)
    requires k < SLOT_COUNT && Usable(polled) && !x.slots[k].dirty
    ensures Mirrored(Adopt(x, k, polled).slots[k], k)
  {
    hide Join32;
    var v := Join32(polled.data);
    ZeroIsFinite(v);
  }

  // ----- No starvation -----

  /** How many slots the scan passes before it reaches slot k. */
  function Distance(inflight: nat, k: nat): (d: nat)
    requires inflight < SLOT_COUNT && k < SLOT_COUNT
    ensures d < SLOT_COUNT
  {
    (k - inflight - 1) % SLOT_COUNT
  }

  lemma DistanceIsOffset(inflight: nat, k: nat)
    requires inflight < SLOT_COUNT && k < SLOT_COUNT
    ensures RoundRobin(inflight, Distance(inflight, k)) == k
  {
  }

  lemma {:induction false} ScanTakesNearest(x: Proxy, i: nat, d: nat)
    requires x.Valid() && i <= d < SLOT_COUNT && x.slots[RoundRobin(x.inflight, d)].dirty
    ensures exists j :: i <= j <= d && NextDirty(x, i) == RoundRobin(x.inflight, j)
    decreases d - i
  {
    if x.slots[RoundRobin(x.inflight, i)].dirty {
      assert NextDirty(x, i) == RoundRobin(x.inflight, i);
    } else {
      ScanTakesNearest(x, i + 1, d);
    }
  }

  /** A write is granted in this tick. */
  predicate Grants(p: Pipe, x: Proxy)
    requires p.Valid() && x.Valid()
  {
    var d := Drain(p, x);
    !d.1.pending && Start(d.0, d.1).1.pending
  }

  /** Each grant either issues a dirty slot or brings the scan closer to it. */
  lemma GrantApproaches(p: Pipe, x: Proxy, k: nat)
    requires p.Valid() && x.Valid() && k < SLOT_COUNT && x.slots[k].dirty && Grants(p, x)
    ensures var y := Tick(p, x).1;
      y.inflight == k || (y.slots[k].dirty && Distance(y.inflight, k) < Distance(x.inflight, k))
  {
    var d := Distance(x.inflight, k);
    DistanceIsOffset(x.inflight, k);
    var y := Drain(p, x).1;
    ScanTakesNearest(y, 0, d);
    var j :| 0 <= j <= d && NextDirty(y, 0) == RoundRobin(y.inflight, j);
    CloserBy(x.inflight, k, j);
  }

  lemma CloserBy(inflight: nat, k: nat, j: nat)
    requires inflight < SLOT_COUNT && k < SLOT_COUNT && j <= Distance(inflight, k)
    ensures var n := RoundRobin(inflight, j);
      n == k || Distance(n, k) == Distance(inflight, k) - j - 1
  {
    hide Distance, RoundRobin;
    DistanceCases(inflight, k);
    RoundRobinCases(inflight, j);
    DistanceCases(RoundRobin(inflight, j), k);
  }

  lemma DistanceCases(inflight: nat, k: nat)
    requires inflight < SLOT_COUNT && k < SLOT_COUNT
    ensures Distance(inflight, k) == if k > inflight then k - inflight - 1 else k - inflight - 1 + SLOT_COUNT
  {
  }

  lemma RoundRobinCases(inflight: nat, j: nat)
    requires inflight < SLOT_COUNT && j < SLOT_COUNT
    ensures var sum := inflight + 1 + j; RoundRobin(inflight, j) == if sum < SLOT_COUNT then sum else sum - SLOT_COUNT
  {
  }

  /** A step of the proxy's life: a tick in some pipeline state, any setter, any resync read. */
  datatype Turn = TickTurn(pipe: Pipe) | SetTurn(slot: nat, value: f32) | AdoptTurn(slot: nat, polled: Polled)

  ghost predicate ValidTurn(t: Turn) {
    match t
    case TickTurn(p) => p.Valid()
    case SetTurn(k, _) => k < SLOT_COUNT
    case AdoptTurn(k, _) => k < SLOT_COUNT
  }

  function TurnTaken(x: Proxy, t: Turn): (y: Proxy)
    requires x.Valid() && ValidTurn(t)
    ensures y.Valid()
  {
    match t
    case TickTurn(p) => Tick(p, x).1
    case SetTurn(k, v) => Set(x, k, v)
    case AdoptTurn(k, polled) => Adopt(x, k, polled)
  }

  predicate Granting(x: Proxy, t: Turn)
    requires x.Valid() && ValidTurn(t)
  {
    t.TickTurn? && Grants(t.pipe, x)
  }

  /** Number of grants in a run that do not issue slot k, up to the first that does. */
  function GrantsBefore(x: Proxy, run: seq<Turn>, k: nat): nat
    requires x.Valid() && forall i :: 0 <= i < |run| ==> ValidTurn(run[i])
    decreases |run|
  {
    if run == [] then 0
    else
      assert ValidTurn(run[0]);
      var y := TurnTaken(x, run[0]);
      if !Granting(x, run[0]) then GrantsBefore(y, run[1..], k)
      else if y.inflight == k then 0
      else 1 + GrantsBefore(y, run[1..], k)
  }

  /** No starvation: a dirty slot is issued after at most six other grants, however often
      the other slots (and it) are set again, whatever the pipeline does and the resync reads
      in between. */
  lemma {:induction false} NoStarvation(x: Proxy, run: seq<Turn>, k: nat)
    requires x.Valid() && k < SLOT_COUNT && x.slots[k].dirty
    requires forall i :: 0 <= i < |run| ==> ValidTurn(run[i])
    ensures GrantsBefore(x, run, k) <= Distance(x.inflight, k) <= 6
    decreases |run|
  {
    hide Grants, Distance, Tick;
    if run != [] {
      assert ValidTurn(run[0]);
      var y := TurnTaken(x, run[0]);
      if Granting(x, run[0]) {
        GrantApproaches(run[0].pipe, x, k);
        if y.inflight != k { NoStarvation(y, run[1..], k); }
      } else {
        StaysDirty(x, run[0], k);
        NoStarvation(y, run[1..], k);
      }
    }
    DistanceBound(x.inflight, k);
  }

  lemma DistanceBound(inflight: nat, k: nat)
    requires inflight < SLOT_COUNT && k < SLOT_COUNT
    ensures Distance(inflight, k) <= 6
  {
  }

  lemma StaysDirty(x: Proxy, t: Turn, k: nat)
    requires x.Valid() && ValidTurn(t) && k < SLOT_COUNT && x.slots[k].dirty && !Granting(x, t)
    ensures TurnTaken(x, t).slots[k].dirty && TurnTaken(x, t).inflight == x.inflight
  {
  }
}
