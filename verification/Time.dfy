/**
 * The millisecond clock of bsp/time: a natural number of which the firmware sees 32 bits.
 */
module Time {

  const TWO_32 := 0x1_0000_0000
  const TWO_31 := 0x8000_0000

  /** time_ms. */
  function Clock(now: nat): (c: nat)
    ensures c < TWO_32
  {
    now % TWO_32
  }

  /** time_elapsed_ms. */
  function Elapsed(now: nat, since: nat): nat { (Clock(now) - since) % TWO_32 }

  /** time_after. */
  predicate TimeAfter(a: nat, b: nat) {
    0 < (a - b) % TWO_32 < TWO_31
  }

  /** Elapsed time and the wrap-around comparison agree for intervals below 2^31 ms. */
  lemma TimeAfterIsLater(now: nat, then_: nat)
    requires now < then_ + TWO_31 && then_ < now + TWO_31
    ensures TimeAfter(Clock(now), Clock(then_)) <==> now > then_
  {
    hide Clock;
    DifferenceOfClocks(now, then_);
  }

  lemma DifferenceOfClocks(a: nat, b: nat)
    ensures (Clock(a) - Clock(b)) % TWO_32 == (a - b) % TWO_32
  {
  }

  lemma ElapsedIsAtMostReal(since: nat, now: nat)
    requires since <= now
    ensures Elapsed(now, Clock(since)) <= now - since
  {
    hide Clock;
    DifferenceOfClocks(now, since);
  }

  lemma ElapsedIsReal(since: nat, now: nat)
    requires since <= now < since + TWO_32
    ensures Elapsed(now, Clock(since)) == now - since
  {
    hide Clock;
    DifferenceOfClocks(now, since);
  }
}
