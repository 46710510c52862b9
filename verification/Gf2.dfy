/**
 * Polynomials over the two-element field as bit sequences, the highest coefficient first, and
 * their remainder by long division. A shift register that takes a message in bit by bit holds
 * such a remainder.
 */
module Gf2 {

  type Bits = seq<bool>

  function Zeros(n: nat): Bits { seq(n, _ => false) }

  function Ones(n: nat): Bits { seq(n, _ => true) }

  /** p with its leading coefficients changed by those of q. */
  function Plus(p: Bits, q: Bits): (r: Bits)
    requires |q| <= |p|
    ensures |r| == |p|
  {
    seq(|p|, i requires 0 <= i < |p| => if i < |q| then p[i] != q[i] else p[i])
  }

  /** The sum of the powers of x with these exponents. */
  function Powers(degree: nat, exponents: set<nat>): (g: Bits)
    ensures |g| == degree + 1
  {
    seq(degree + 1, i requires 0 <= i <= degree => (degree - i) in exponents)
  }

  /** The remainder of p by g, by long division: as long as p is no shorter than g, its leading
      coefficient is cancelled with a multiple of g. */
  function Remainder(p: Bits, g: Bits): (r: Bits)
    requires |g| > 0 && g[0]
    ensures |r| == if |p| < |g| then |p| else |g| - 1
    decreases |p|
  {
    if |p| < |g| then p
    else Remainder(if p[0] then Plus(p, g)[1..] else p[1..], g)
  }

  // ----- The shift register -----

  /** The register takes in one bit and is reduced by g. */
  function Shift(r: Bits, bit: bool, g: Bits): (t: Bits)
    requires |g| == |r| + 1 && |r| > 0
    ensures |t| == |r|
  {
    var next := r[1..] + [false];
    if r[0] != bit then Plus(next, g[1..]) else next
  }

  function Feed(r: Bits, message: Bits, g: Bits): (t: Bits)
    requires |g| == |r| + 1 && |r| > 0
    ensures |t| == |r|
    decreases |message|
  {
    if message == [] then r else Feed(Shift(r, message[0], g), message[1..], g)
  }

  /** The register after a message is the remainder of the message, followed by as many zeros
      as the register has bits, with the initial register added to the leading coefficients. */
  lemma {:induction false} FeedIsRemainder(r: Bits, message: Bits, g: Bits)
    requires |g| == |r| + 1 && |r| > 0 && g[0]
    ensures Feed(r, message, g) == Remainder(Plus(message + Zeros(|r|), r), g)
    decreases |message|
  {
    hide Plus, Shift;
    var p := Plus(message + Zeros(|r|), r);
    if message == [] {
      AddedToZeros(r);
      assert [] + Zeros(|r|) == Zeros(|r|);
    } else {
      FeedIsRemainder(Shift(r, message[0], g), message[1..], g);
      DivisionStep(r, message, g);
    }
  }

  lemma AddedToZeros(r: Bits)
    ensures Plus(Zeros(|r|), r) == r
  {
  }

  /** One step of the long division is one shift of the register. */
  lemma DivisionStep(r: Bits, message: Bits, g: Bits)
    requires |g| == |r| + 1 && |r| > 0 && g[0] && message != []
    ensures var p := Plus(message + Zeros(|r|), r);
      (if p[0] then Plus(p, g)[1..] else p[1..]) == Plus(message[1..] + Zeros(|r|), Shift(r, message[0], g))
  {
    var long := message + Zeros(|r|);
    var p, t := Plus(long, r), Shift(r, message[0], g);
    var q := if p[0] then Plus(p, g)[1..] else p[1..];
    var rest := message[1..] + Zeros(|r|);
    forall i | 0 <= i < |q| ensures q[i] == Plus(rest, t)[i] {
      assert rest[i] == long[i + 1];
    }
  }

  lemma {:induction false} FeedConcat(r: Bits, a: Bits, b: Bits, g: Bits)
    requires |g| == |r| + 1 && |r| > 0
    ensures Feed(r, a + b, g) == Feed(Feed(r, a, g), b, g)
    decreases |a|
  {
    if a == [] {
      assert a + b == b;
    } else {
      assert (a + b)[0] == a[0] && (a + b)[1..] == a[1..] + b;
      FeedConcat(Shift(r, a[0], g), a[1..], b, g);
    }
  }

  lemma FeedOne(r: Bits, bit: bool, g: Bits)
    requires |g| == |r| + 1 && |r| > 0
    ensures Feed(r, [bit], g) == Shift(r, bit, g)
  {
  }

  /** Bits may as well be added to the register at once before it is shifted. */
  lemma {:induction false} FeedAtOnce(r: Bits, message: Bits, g: Bits)
    requires |g| == |r| + 1 && |message| <= |r| && |r| > 0
    ensures Feed(r, message, g) == Feed(Plus(r, message), Zeros(|message|), g)
    decreases |message|
  {
    hide Plus, Shift;
    if message == [] {
      NothingAdded(r);
    } else {
      FeedAtOnce(Shift(r, message[0], g), message[1..], g);
      ShiftAtOnce(r, message, g);
      assert Zeros(|message|)[1..] == Zeros(|message| - 1);
    }
  }

  lemma PlusShort(p: Bits, q: Bits, n: nat)
    requires n <= |q| <= |p| && forall i :: n <= i < |q| ==> !q[i]
    ensures Plus(p, q) == Plus(p, q[..n])
  {
  }

  lemma NothingAdded(r: Bits)
    ensures Plus(r, []) == r
  {
  }

  lemma ShiftAtOnce(r: Bits, message: Bits, g: Bits)
    requires |g| == |r| + 1 && 0 < |message| <= |r|
    ensures Shift(Plus(r, message), false, g) == Plus(Shift(r, message[0], g), message[1..])
  {
    var s, t := Shift(Plus(r, message), false, g), Plus(Shift(r, message[0], g), message[1..]);
    forall i | 0 <= i < |s| ensures s[i] == t[i] {
    }
  }
}
