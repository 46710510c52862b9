/**
 * The SDO setup sequencer of app/axis_manager: one write at a time, it brings the motor's
 * seven setup parameters to their desired values and remembers what was acknowledged.
 */
module SetupSequencer {
  import opened Bytes
  import opened Pipeline
  import opened Scaling
  import opened Time

  const IDLE_STEP := 0
  const LAST_STEP := 7

  /** s_seq_step (0 idle, else the parameter being written), s_seq_handle and s_applied. */
  datatype Sequencer = Sequencer(step: nat, handle: int, applied: Setup) {
    ghost predicate Valid() { step <= LAST_STEP && (step == IDLE_STEP ==> handle == NO_HANDLE) }

    /** The handle it waits for, if a write is in flight. */
    function Hold(): int { if step == IDLE_STEP then NO_HANDLE else handle }
  }

  // MC_IfOdType_t
  const T_U8 := 0
  const T_U16 := 1
  const T_U32 := 2
  const T_I8 := 3
  const T_I32 := 5
  const T_F32 := 6

  /** Index in the motor's object dictionary; the subindex is zero. */
  function SetupIndex(k: nat): (i: nat)
    requires 1 <= k <= LAST_STEP
    ensures 0x6000 <= i < 0x7000
  {
    if k == MODE then 0x6060 else if k == POSITION then 0x607A else if k == TIME then 0x607B
    else if k == CURRENT then 0x6071 else if k == VELOCITY then 0x6081
    else if k == ACCELERATION then 0x6083 else 0x6084
  }

  lemma SetupIndexInjective(j: nat, k: nat)
    requires 1 <= j <= LAST_STEP && 1 <= k <= LAST_STEP && SetupIndex(j) == SetupIndex(k)
    ensures j == k
  {
  }

  /** The bytes of a parameter value: one byte for the mode, four for the others. */
  function Encode(k: nat, v: int): (d: seq<byte>)
    ensures |d| <= 4
  {
    if k == MODE then [ByteOf(v % 256)] else Wr32(v % TWO_32)
  }

  function SetupType(k: nat): nat {
    if k == MODE then T_I8 else if k == POSITION || k == CURRENT then T_I32 else T_U32
  }

  function WriteOf(k: nat, desired: Setup): Request
    requires 1 <= k <= LAST_STEP
  {
    Request(false, SetupIndex(k), 0, SetupType(k), Encode(k, desired[k]))
  }

  /** The first parameter whose desired and acknowledged values differ, or 0. */
  function FirstDiff(desired: Setup, applied: Setup): (k: nat)
    ensures k <= LAST_STEP
    ensures k > 0 ==> desired[k] != applied[k] && forall j :: 1 <= j < k ==> desired[j] == applied[j]
    ensures k == 0 ==> forall j :: 1 <= j <= LAST_STEP ==> desired[j] == applied[j]
  {
    if desired[MODE] != applied[MODE] then MODE
    else if desired[POSITION] != applied[POSITION] then POSITION
    else if desired[TIME] != applied[TIME] then TIME
    else if desired[CURRENT] != applied[CURRENT] then CURRENT
    else if desired[VELOCITY] != applied[VELOCITY] then VELOCITY
    else if desired[ACCELERATION] != applied[ACCELERATION] then ACCELERATION
    else if desired[DECELERATION] != applied[DECELERATION] then DECELERATION
    else 0
  }

  /** setup_sequencer_busy. */
  predicate Busy(q: Sequencer, desired: Setup) {
    q.step != IDLE_STEP || FirstDiff(desired, q.applied) != 0
  }

  /** Stage 1 of setup_sequencer_tick. The acknowledged value it records is the one desired
      now, not the one that was sent. */
  function Drain(p: Pipe, q: Sequencer, desired: Setup): (r: (Pipe, Sequencer))
    requires p.Valid() && q.Valid()
    ensures r.0.Valid() && r.1.Valid()
  {
    if q.step == IDLE_STEP then (p, q)
    else
      var polled := Poll(p, q.handle);
      match polled.1
      case NotYet => (p, q)
      case Done(result, _) =>
        (polled.0, Sequencer(IDLE_STEP, NO_HANDLE,
                             if result == OD_OK then q.applied[q.step := desired[q.step]] else q.applied))
  }

  /** Stage 2: start the write of the first difference, if the slot is free. */
  function Start(p: Pipe, q: Sequencer, desired: Setup): (r: (Pipe, Sequencer))
    requires p.Valid() && q.Valid()
    ensures r.0.Valid() && r.1.Valid()
  {
    var k := FirstDiff(desired, q.applied);
    if q.step != IDLE_STEP || k == 0 then (p, q)
    else
      var begun := Begin(p, WriteOf(k, desired));
      if begun.1 == NO_HANDLE then (p, q) else (begun.0, q.(step := k, handle := begun.1))
  }

  /** setup_sequencer_tick. */
  function Tick(p: Pipe, q: Sequencer, desired: Setup): (r: (Pipe, Sequencer))
    requires p.Valid() && q.Valid()
    ensures r.0.Valid() && r.1.Valid()
  {
    var drained := Drain(p, q, desired);
    Start(drained.0, drained.1, desired)
  }

  // ----- Convergence -----

  /** How many parameters from k on differ. */
  function DiffsFrom(desired: Setup, applied: Setup, k: nat): (n: nat)
    requires k <= LAST_STEP + 1
    ensures n <= LAST_STEP + 1 - k
    decreases LAST_STEP + 1 - k
  {
    if k > LAST_STEP then 0
    else (if desired[k] != applied[k] then 1 else 0) + DiffsFrom(desired, applied, k + 1)
  }

  function Diffs(desired: Setup, applied: Setup): (n: nat)
    ensures n <= 7
  {
    DiffsFrom(desired, applied, 1)
  }

  lemma {:induction false} DiffsAfterAck(desired: Setup, applied: Setup, j: nat, k: nat)
    requires 1 <= k <= LAST_STEP + 1 && 1 <= j <= LAST_STEP && desired[j] != applied[j]
    ensures DiffsFrom(desired, applied, k) == DiffsFrom(desired, applied[j := desired[j]], k) + if k <= j then 1 else 0
    decreases LAST_STEP + 1 - k
  {
    if k <= LAST_STEP { DiffsAfterAck(desired, applied, j, k + 1); }
  }

  lemma {:induction false} NoDiffs(desired: Setup, applied: Setup, k: nat)
    requires 1 <= k <= LAST_STEP + 1
    ensures DiffsFrom(desired, applied, k) == 0 <==> forall j :: k <= j <= LAST_STEP ==> desired[j] == applied[j]
    decreases LAST_STEP + 1 - k
  {
    if k <= LAST_STEP { NoDiffs(desired, applied, k + 1); }
  }

  /** The parameter being written still differs; true while the desired values are fixed. */
  ghost predicate WritesDifference(q: Sequencer, desired: Setup)
    requires q.Valid()
  {
    q.step != IDLE_STEP ==> desired[q.step] != q.applied[q.step]
  }

  /** An acknowledged write with OK, seen by Drain. */
  predicate Acked(p: Pipe, q: Sequencer)
    requires p.Valid()
  {
    q.step != IDLE_STEP && Poll(p, q.handle).1.Done? && Poll(p, q.handle).1.result == OD_OK
  }

  /** One tick with fixed desired values: an acknowledgement removes exactly one difference,
      nothing else changes their number, and after the tick the sequencer is busy exactly
      when differences are left; it then has a write in flight unless the slot was taken. */
  lemma TickConverges(p: Pipe, q: Sequencer, desired: Setup)
    requires p.Valid() && q.Valid() && WritesDifference(q, desired)
    ensures var r := Tick(p, q, desired);
      && WritesDifference(r.1, desired)
      && Diffs(desired, r.1.applied) + (if Acked(p, q) then 1 else 0) == Diffs(desired, q.applied)
      && (Busy(r.1, desired) <==> Diffs(desired, r.1.applied) > 0)
      && (r.1.step == IDLE_STEP && Busy(r.1, desired) ==> !Drain(p, q, desired).0.slot.phase.Idle?)
  {
    hide Encode, DiffsFrom;
    if Acked(p, q) { DiffsAfterAck(desired, q.applied, q.step, 1); }
    NoDiffs(desired, Tick(p, q, desired).1.applied, 1);
  }

  /** The range of the C type that holds the parameter. */
  predicate InRange(k: nat, v: int) {
    if k == MODE then -128 <= v < 128
    else if k == POSITION || k == CURRENT then -TWO_31 <= v < TWO_31
    else 0 <= v < TWO_32
  }

  lemma DesiredInRange(t: Targets, l: Limits, k: nat)
    requires 1 <= k <= LAST_STEP
    ensures InRange(k, ComputeDesired(t, l)[k])
  {
    hide Decode, ToScaledI32, ToScaledU32, ClampRange, TimeMs;
  }

  lemma ResidueInjective(k: nat, a: int, b: int)
    requires InRange(k, a) && InRange(k, b)
    ensures k == MODE ==> (a % 256 == b % 256 <==> a == b)
    ensures k != MODE ==> (a % TWO_32 == b % TWO_32 <==> a == b)
  {
  }

  lemma EncodeInjective(k: nat, a: int, b: int)
    requires InRange(k, a) && InRange(k, b)
    ensures Encode(k, a) == Encode(k, b) <==> a == b
  {
    hide InRange;
    ResidueInjective(k, a, b);
    if k == MODE { EncodeMode(a, b); } else { EncodeOther(k, a, b); }
  }

  lemma EncodeMode(a: int, b: int)
    ensures Encode(MODE, a) == Encode(MODE, b) <==> a % 256 == b % 256
  {
    hide ByteOf;
    ValueOfByteOf(a % 256);
    ValueOfByteOf(b % 256);
    assert Encode(MODE, a)[0] == ByteOf(a % 256) && Encode(MODE, b)[0] == ByteOf(b % 256);
  }

  lemma EncodeOther(k: nat, a: int, b: int)
    requires k != MODE
    ensures Encode(k, a) == Encode(k, b) <==> a % TWO_32 == b % TWO_32
  {
    hide Wr32, Rd32;
    Rd32OfWr32(a % TWO_32);
    Rd32OfWr32(b % TWO_32);
  }

  /** When a write is acknowledged, the value recorded is the value the motor was sent if
      and only if the desired value did not change while the write was in flight. */
  lemma AckFaithful(p: Pipe, q: Sequencer, begun: Setup, now: Setup)
    requires p.Valid() && q.Valid() && Acked(p, q) && p.slot.req == WriteOf(q.step, begun)
    requires InRange(q.step, begun[q.step]) && InRange(q.step, now[q.step])
    ensures Encode(q.step, Drain(p, q, now).1.applied[q.step]) == p.slot.req.data <==> now[q.step] == begun[q.step]
  {
    hide Encode, InRange;
    EncodeInjective(q.step, now[q.step], begun[q.step]);
  }
}
