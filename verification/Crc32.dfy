/**
 * The frame check sequence of IEEE 802.3, section 3.2.9, as crc32_calc computes it:
 * reflected polynomial 0xEDB88320, initial value and final complement all ones.
 */
module Crc32 {
  import opened Bytes
  import opened Gf2

  const INIT: bv32 := 0xFFFF_FFFF

  function Step(crc: bv32): bv32 {
    if crc & 1 != 0 then (crc >> 1) ^ 0xEDB8_8320 else crc >> 1
  }

  function Steps(crc: bv32, n: nat): bv32 {
    if n == 0 then crc else Step(Steps(crc, n - 1))
  }

  function Xor(x: bv32, y: bv32): bv32 { x ^ y }

  function Wide(b: byte): bv32 { b as bv32 }

  function AddByte(crc: bv32, b: byte): bv32 { Steps(Xor(crc, Wide(b)), 8) }

  function Run(crc: bv32, s: seq<byte>): bv32 {
    if s == [] then crc else AddByte(Run(crc, s[..|s| - 1]), s[|s| - 1])
  }

  function Crc(s: seq<byte>): bv32 { !Run(INIT, s) }

  /** The branch-free form of the step that the loop uses. */
  lemma MaskedStep(crc: bv32)
    ensures (crc >> 1) ^ (0xEDB8_8320 & (0 - (crc & 1))) == Step(crc)
  {
    if crc & 1 == 0 {
      assert 0 - (crc & 1) == 0;
    } else {
      LowBit(crc);
      assert 0 - (crc & 1) == 0xFFFF_FFFF;
    }
  }

  lemma LowBit(crc: bv32)
    requires crc & 1 != 0
    ensures crc & 1 == 1
  {
  }

  /** crc32_calc. */
  method Crc32Calc(buf: seq<byte>) returns (r: bv32)
    ensures r == Crc(buf)
  {
    hide Step, Xor, Wide;
    var crc: bv32 := 0xFFFF_FFFF;
    for i := 0 to |buf|
      invariant crc == Run(INIT, buf[..i])
    {
      crc := Xor(crc, Wide(buf[i]));
      ghost var mixed := crc;
      for b := 0 to 8
        invariant crc == Steps(mixed, b)
      {
        MaskedStep(crc);
        crc := (crc >> 1) ^ (0xEDB8_8320 & (0 - (crc & 1)));
      }
      assert buf[..i + 1][..i] == buf[..i];
    }
    assert buf[..|buf|] == buf;
    r := !crc;
  }

  lemma {:induction false} RunConcat(crc: bv32, a: seq<byte>, b: seq<byte>)
    ensures Run(crc, a + b) == Run(Run(crc, a), b)
  {
    hide AddByte;
    if b == [] {
      assert a + b == a;
    } else {
      RunConcat(crc, a, b[..|b| - 1]);
      assert (a + b)[..|a + b| - 1] == a + b[..|b| - 1];
    }
  }

  /** Injective, because the reflected polynomial has its top bit set. */
  lemma StepInjective(x: bv32, y: bv32)
    requires Step(x) == Step(y)
    ensures x == y
  {
  }

  lemma {:induction false} StepsInjective(x: bv32, y: bv32, n: nat)
    requires Steps(x, n) == Steps(y, n)
    ensures x == y
  {
    hide Step;
    if n > 0 {
      StepInjective(Steps(x, n - 1), Steps(y, n - 1));
      StepsInjective(x, y, n - 1);
    }
  }

  lemma XorInjective(x: bv32, y: bv32, c: bv32)
    requires Xor(x, c) == Xor(y, c)
    ensures x == y
  {
  }

  /** Different registers stay different, whatever bytes follow. */
  lemma {:induction false} RunInjective(x: bv32, y: bv32, s: seq<byte>)
    requires Run(x, s) == Run(y, s)
    ensures x == y
  {
    hide Step, Steps, Xor, Wide;
    if s != [] {
      var p, b := s[..|s| - 1], Wide(s[|s| - 1]);
      StepsInjective(Xor(Run(x, p), b), Xor(Run(y, p), b), 8);
      XorInjective(Run(x, p), Run(y, p), b);
      RunInjective(x, y, p);
    }
  }

  /** A bit below the top only moves down one place, whatever else is in the register. */
  lemma StepXor(x: bv32, y: bv32)
    requires y & 0x8000_0000 == 0
    ensures Step(x) ^ y == Step(x ^ (y << 1))
  {
  }

  function Double(y: bv32): bv32 { y << 1 }

  function Up(y: bv32, n: nat): bv32 {
    if n == 0 then y else Double(Up(y, n - 1))
  }

  lemma DoubleShifts(y: bv32)
    ensures Double(y) == y << 1 && Double(y << 1) == y << 2 && Double(y << 2) == y << 3 && Double(y << 3) == y << 4
    ensures Double(y << 4) == y << 5 && Double(y << 5) == y << 6 && Double(y << 6) == y << 7 && Double(y << 7) == y << 8
  {
  }

  lemma UpValues(y: bv32)
    ensures Up(y, 0) == y && Up(y, 1) == y << 1 && Up(y, 2) == y << 2 && Up(y, 3) == y << 3 && Up(y, 4) == y << 4
    ensures Up(y, 5) == y << 5 && Up(y, 6) == y << 6 && Up(y, 7) == y << 7 && Up(y, 8) == y << 8
  {
    DoubleShifts(y);
    hide Double;
    assert Up(y, 1) == Double(Up(y, 0));
    assert Up(y, 2) == Double(Up(y, 1));
    assert Up(y, 3) == Double(Up(y, 2));
    assert Up(y, 4) == Double(Up(y, 3));
    assert Up(y, 5) == Double(Up(y, 4));
    assert Up(y, 6) == Double(Up(y, 5));
    assert Up(y, 7) == Double(Up(y, 6));
  }

  /** The top byte of y is clear. */
  predicate Low(y: bv32) { y & 0xFF00_0000 == 0 }

  lemma LowBelowTop(y: bv32)
    requires y & 0xFF00_0000 == 0
    ensures y & 0x8000_0000 == 0 && (y << 1) & 0x8000_0000 == 0 && (y << 2) & 0x8000_0000 == 0 && (y << 3) & 0x8000_0000 == 0
    ensures (y << 4) & 0x8000_0000 == 0 && (y << 5) & 0x8000_0000 == 0 && (y << 6) & 0x8000_0000 == 0 && (y << 7) & 0x8000_0000 == 0
  {
  }

  lemma UpBelowTop(y: bv32, n: nat)
    requires Low(y) && n <= 7
    ensures Up(y, n) & 0x8000_0000 == 0
  {
    hide Up;
    UpValues(y);
    LowBelowTop(y);
  }

  lemma StepDouble(x: bv32, y: bv32)
    requires y & 0x8000_0000 == 0
    ensures Xor(Step(x), y) == Step(Xor(x, Double(y)))
  {
    hide Step;
    StepXor(x, y);
  }

  lemma StepUp(x: bv32, y: bv32, n: nat)
    requires Low(y) && n <= 7
    ensures Xor(Step(x), Up(y, n)) == Step(Xor(x, Up(y, n + 1)))
  {
    hide Step, Xor, Double, Low;
    UpBelowTop(y, n);
    StepDouble(x, Up(y, n));
  }

  /** A word added after eight steps may be added, one byte up, before them. */
  lemma {:induction false} StepsShift(x: bv32, y: bv32, n: nat)
    requires Low(y) && n <= 8
    ensures Steps(Xor(x, Up(y, 8)), n) == Xor(Steps(x, n), Up(y, 8 - n))
  {
    hide Step, Xor, Up, Low;
    if n > 0 {
      StepsShift(x, y, n - 1);
      StepUp(Steps(x, n - 1), y, 8 - n);
    }
  }

  function ByteUp(y: bv32): bv32 { y << 8 }

  lemma ShiftByte(x: bv32, y: bv32)
    requires Low(y)
    ensures Xor(Steps(x, 8), y) == Steps(Xor(x, ByteUp(y)), 8)
  {
    hide Step, Steps, Xor, Double, Low;
    UpValues(y);
    StepsShift(x, y, 8);
  }

  lemma LowBytes(b: byte)
    ensures Low(Wide(b)) && Low(ByteUp(Wide(b))) && Low(ByteUp(ByteUp(Wide(b))))
  {
  }

  lemma {:induction false} StepsAdd(x: bv32, m: nat, n: nat)
    ensures Steps(Steps(x, m), n) == Steps(x, m + n)
  {
    hide Step;
    if n > 0 { StepsAdd(x, m, n - 1); }
  }

  /** The register just before the steps of a byte, with that byte placed ahead of all the
      steps of its predecessors. */
  lemma AheadOf1(x: bv32, b: byte)
    ensures AddByte(Steps(x, 8), b) == Steps(Xor(x, ByteUp(Wide(b))), 16)
  {
    hide Step, Steps, Xor, ByteUp, Wide, Low;
    LowBytes(b);
    ShiftByte(x, Wide(b));
    StepsAdd(Xor(x, ByteUp(Wide(b))), 8, 8);
  }

  lemma AheadOf2(x: bv32, b: byte)
    ensures AddByte(Steps(x, 16), b) == Steps(Xor(x, ByteUp(ByteUp(Wide(b)))), 24)
  {
    hide Step, Steps, Xor, ByteUp, Wide, Low;
    LowBytes(b);
    StepsAdd(x, 8, 8);
    var y := ByteUp(Wide(b));
    ShiftByte(Steps(x, 8), Wide(b));
    ShiftByte(x, y);
    StepsAdd(Xor(x, ByteUp(y)), 8, 8);
    StepsAdd(Xor(x, ByteUp(y)), 16, 8);
  }

  lemma AheadOf3(x: bv32, b: byte)
    ensures AddByte(Steps(x, 24), b) == Steps(Xor(x, ByteUp(ByteUp(ByteUp(Wide(b))))), 32)
  {
    hide Step, Steps, Xor, ByteUp, Wide, Low;
    LowBytes(b);
    StepsAdd(x, 16, 8);
    StepsAdd(x, 8, 8);
    var y := ByteUp(Wide(b));
    ShiftByte(Steps(x, 16), Wide(b));
    ShiftByte(Steps(x, 8), y);
    ShiftByte(x, ByteUp(y));
    var z := Xor(x, ByteUp(ByteUp(y)));
    StepsAdd(z, 8, 8);
    StepsAdd(z, 16, 8);
    StepsAdd(z, 24, 8);
  }

  lemma XorWord(c: bv32, s: seq<byte>)
    requires |s| == 4
    ensures var x := Xor(c, Wide(s[0])); var y := Xor(x, ByteUp(Wide(s[1]))); var z := Xor(y, ByteUp(ByteUp(Wide(s[2]))));
      Xor(z, ByteUp(ByteUp(ByteUp(Wide(s[3]))))) == Xor(c, Join32(s))
  {
    hide Xor, Wide, ByteUp, Join32;
    var b0, b1, b2, b3 := Wide(s[0]), ByteUp(Wide(s[1])), ByteUp(ByteUp(Wide(s[2]))), ByteUp(ByteUp(ByteUp(Wide(s[3]))));
    XorMoves(c, b0, b1);
    XorMoves(c, Xor(b0, b1), b2);
    XorMoves(c, Xor(Xor(b0, b1), b2), b3);
    JoinIsXor(s);
  }

  lemma XorMoves(a: bv32, b: bv32, c: bv32)
    ensures Xor(Xor(a, b), c) == Xor(a, Xor(b, c))
  {
  }

  lemma JoinIsXor(s: seq<byte>)
    requires |s| == 4
    ensures Xor(Xor(Xor(Wide(s[0]), ByteUp(Wide(s[1]))), ByteUp(ByteUp(Wide(s[2])))), ByteUp(ByteUp(ByteUp(Wide(s[3]))))) == Join32(s)
  {
    XorBytes(s[0], s[1], s[2], s[3]);
  }

  lemma XorBytes(b0: byte, b1: byte, b2: byte, b3: byte)
    ensures (((b0 as bv32) ^ ((b1 as bv32) << 8)) ^ (((b2 as bv32) << 8) << 8)) ^ ((((b3 as bv32) << 8) << 8) << 8)
      == (b0 as bv32) | ((b1 as bv32) << 8) | ((b2 as bv32) << 16) | ((b3 as bv32) << 24)
  {
  }

  /** Four bytes act as one 32-bit word followed by 32 steps. */
  lemma RunFour(c: bv32, s: seq<byte>)
    requires |s| == 4
    ensures Run(c, s) == Steps(Xor(c, Join32(s)), 32)
  {
    hide Step, Steps, Xor, ByteUp, Wide, Join32;
    assert s[..3][..2] == s[..2] && s[..2][..1] == s[..1] && s[..1][..0] == [];
    var x := Xor(c, Wide(s[0]));
    var y := Xor(x, ByteUp(Wide(s[1])));
    var z := Xor(y, ByteUp(ByteUp(Wide(s[2]))));
    assert Run(c, s[..1]) == Steps(x, 8);
    AheadOf1(x, s[1]);
    assert Run(c, s[..2]) == Steps(y, 16);
    AheadOf2(y, s[2]);
    assert Run(c, s[..3]) == Steps(z, 24);
    AheadOf3(z, s[3]);
    XorWord(c, s);
  }

  lemma WordInjective(x: bv32, s: seq<byte>, t: seq<byte>)
    requires |s| == |t| == 4 && Xor(x, Join32(s)) == Xor(x, Join32(t))
    ensures s == t
  {
    hide Xor, Join32, Split32;
    XorRight(x, Join32(s), Join32(t));
    SplitOfJoin(s);
    SplitOfJoin(t);
  }

  lemma XorRight(x: bv32, y: bv32, z: bv32)
    requires Xor(x, y) == Xor(x, z)
    ensures y == z
  {
  }

  /** Error detection: two sequences that differ, but only inside one window of four
      adjacent bytes, have different check values. */
  lemma WindowDetected(s: seq<byte>, t: seq<byte>, w: nat)
    requires w + 4 <= |s| && SameOutside(s, t, w, 4) && s != t
    ensures Crc(s) != Crc(t)
  {
    hide Step, Steps, Xor, Join32, Run;
    var p, q := Run(INIT, s[..w]), s[w + 4..];
    assert t[..w] == s[..w] && t[w + 4..] == q;
    RunSplit(s, w);
    RunSplit(t, w);
    var x, y := Xor(p, Join32(s[w..w + 4])), Xor(p, Join32(t[w..w + 4]));
    assert s == s[..w] + s[w..w + 4] + q && t == t[..w] + t[w..w + 4] + q;
    if Run(INIT, s) == Run(INIT, t) {
      RunInjective(Steps(x, 32), Steps(y, 32), q);
      StepsInjective(x, y, 32);
      WordInjective(p, s[w..w + 4], t[w..w + 4]);
    }
  }

  /** The four bytes at w as one word within the run. */
  lemma RunSplit(s: seq<byte>, w: nat)
    requires w + 4 <= |s|
    ensures Run(INIT, s) == Run(Steps(Xor(Run(INIT, s[..w]), Join32(s[w..w + 4])), 32), s[w + 4..])
  {
    hide Step, Steps, Xor, Join32, Run;
    RunConcat(INIT, s[..w + 4], s[w + 4..]);
    assert s == s[..w + 4] + s[w + 4..];
    RunConcat(INIT, s[..w], s[w..w + 4]);
    assert s[..w + 4] == s[..w] + s[w..w + 4];
    RunFour(Run(INIT, s[..w]), s[w..w + 4]);
  }

  /** The window may also reach past the end, so the sequences may be shorter than four. */
  lemma EndWindowDetected(s: seq<byte>, t: seq<byte>, w: nat)
    requires w < |s| && SameOutside(s, t, w, 4) && s != t
    ensures Crc(s) != Crc(t)
  {
    hide Run;
    var pad := Fill(0, 3);
    PadKeeps(s, t, w, pad);
    WindowDetected(s + pad, t + pad, w);
    RunConcat(INIT, s, pad);
    RunConcat(INIT, t, pad);
  }

  lemma PadKeeps(s: seq<byte>, t: seq<byte>, w: nat, pad: seq<byte>)
    requires SameOutside(s, t, w, 4) && s != t
    ensures SameOutside(s + pad, t + pad, w, 4) && s + pad != t + pad
  {
    forall i | 0 <= i < |s + pad| && !(w <= i < w + 4) ensures (s + pad)[i] == (t + pad)[i] {
      if i < |s| { assert s[i] == t[i]; }
    }
    assert s == (s + pad)[..|s|] && t == (t + pad)[..|t|];
  }

  // ----- The register as a remainder -----

  /** The generator polynomial. */
  function Generator(): (g: Bits)
    ensures |g| == 33 && g[0]
  {
    Powers(32, {32, 26, 23, 22, 16, 12, 11, 10, 8, 7, 5, 4, 2, 1, 0})
  }

  function Mask(i: nat): bv32 { if i == 0 then 1 else Mask(i - 1) << 1 }

  predicate Bit(w: bv32, mask: bv32) { w & mask != 0 }

  predicate Single(mask: bv32) { mask & (mask - 1) == 0 }

  /** The register's bits, the lowest first: in the reflected form it is the highest coefficient. */
  function RegisterBits(w: bv32): (s: Bits)
    ensures |s| == 32
  {
    seq(32, i requires 0 <= i < 32 => Bit(w, Mask(i)))
  }

  /** The bits of a byte in the order in which they enter, the lowest first. */
  function ByteBits(b: byte): (s: Bits)
    ensures |s| == 8
  {
    RegisterBits(Wide(b))[..8]
  }

  function MessageBits(s: seq<byte>): Bits {
    if s == [] then [] else MessageBits(s[..|s| - 1]) + ByteBits(s[|s| - 1])
  }

  lemma RawXorBit(x: bv32, y: bv32, mask: bv32)
    requires mask & (mask - 1) == 0
    ensures ((x ^ y) & mask != 0) == ((x & mask != 0) != (y & mask != 0))
  {
  }

  lemma XorBit(x: bv32, y: bv32, mask: bv32)
    requires Single(mask)
    ensures Bit(Xor(x, y), mask) == (Bit(x, mask) != Bit(y, mask))
  {
    RawXorBit(x, y, mask);
  }

  lemma ShiftBit(x: bv32, mask: bv32)
    requires Single(mask)
    ensures Bit(x >> 1, mask) == Bit(x, mask << 1)
  {
  }

  lemma SingleDoubles(mask: bv32)
    requires Single(mask)
    ensures Single(mask << 1)
  {
  }

  lemma OneIsSingle()
    ensures Single(1)
  {
  }

  lemma {:induction false} MaskSingle(i: nat)
    ensures Single(Mask(i))
  {
    hide Single;
    if i == 0 {
      OneIsSingle();
    } else {
      MaskSingle(i - 1);
      SingleDoubles(Mask(i - 1));
    }
  }

  lemma Masks()
    ensures Mask(0) == 0x1 && Mask(1) == 0x2 && Mask(2) == 0x4 && Mask(3) == 0x8 && Mask(4) == 0x10 && Mask(5) == 0x20
    ensures Mask(6) == 0x40 && Mask(7) == 0x80 && Mask(8) == 0x100 && Mask(9) == 0x200 && Mask(10) == 0x400 && Mask(11) == 0x800
    ensures Mask(12) == 0x1000 && Mask(13) == 0x2000 && Mask(14) == 0x4000 && Mask(15) == 0x8000 && Mask(16) == 0x10000 && Mask(17) == 0x20000
    ensures Mask(18) == 0x40000 && Mask(19) == 0x80000 && Mask(20) == 0x100000 && Mask(21) == 0x200000 && Mask(22) == 0x400000 && Mask(23) == 0x800000
    ensures Mask(24) == 0x1000000 && Mask(25) == 0x2000000 && Mask(26) == 0x4000000 && Mask(27) == 0x8000000 && Mask(28) == 0x10000000 && Mask(29) == 0x20000000
    ensures Mask(30) == 0x40000000 && Mask(31) == 0x80000000 && Mask(32) == 0
  {
    assert Mask(0) == 0x1;
    assert Mask(1) == 0x2;
    assert Mask(2) == 0x4;
    assert Mask(3) == 0x8;
    assert Mask(4) == 0x10;
    assert Mask(5) == 0x20;
    assert Mask(6) == 0x40;
    assert Mask(7) == 0x80;
    assert Mask(8) == 0x100;
    assert Mask(9) == 0x200;
    assert Mask(10) == 0x400;
    assert Mask(11) == 0x800;
    assert Mask(12) == 0x1000;
    assert Mask(13) == 0x2000;
    assert Mask(14) == 0x4000;
    assert Mask(15) == 0x8000;
    assert Mask(16) == 0x10000;
    assert Mask(17) == 0x20000;
    assert Mask(18) == 0x40000;
    assert Mask(19) == 0x80000;
    assert Mask(20) == 0x100000;
    assert Mask(21) == 0x200000;
    assert Mask(22) == 0x400000;
    assert Mask(23) == 0x800000;
    assert Mask(24) == 0x1000000;
    assert Mask(25) == 0x2000000;
    assert Mask(26) == 0x4000000;
    assert Mask(27) == 0x8000000;
    assert Mask(28) == 0x10000000;
    assert Mask(29) == 0x20000000;
    assert Mask(30) == 0x40000000;
    assert Mask(31) == 0x80000000;
  }

  lemma XorAdds(x: bv32, y: bv32)
    ensures RegisterBits(Xor(x, y)) == Plus(RegisterBits(x), RegisterBits(y))
  {
    hide Bit, Mask, Single, Xor;
    forall i | 0 <= i < 32 ensures Bit(Xor(x, y), Mask(i)) == (Bit(x, Mask(i)) != Bit(y, Mask(i))) {
      MaskSingle(i);
      XorBit(x, y, Mask(i));
    }
  }

  lemma HalfShifts(x: bv32)
    ensures RegisterBits(x >> 1) == RegisterBits(x)[1..] + [false]
  {
    hide Bit, Single;
    forall i | 0 <= i < 32 ensures Bit(x >> 1, Mask(i)) == Bit(x, Mask(i + 1)) {
      MaskSingle(i);
      ShiftBit(x, Mask(i));
    }
    Masks();
    NoBit(x);
  }

  lemma NoBit(x: bv32)
    ensures !Bit(x, 0)
  {
  }

  lemma PolynomialBits0(i: nat)
    requires 0 <= i < 8
    ensures Bit(0xEDB8_8320, Mask(i)) == ((31 - i) in {32, 26, 23, 22, 16, 12, 11, 10, 8, 7, 5, 4, 2, 1, 0})
  {
    Masks();
  }

  lemma PolynomialBits8(i: nat)
    requires 8 <= i < 16
    ensures Bit(0xEDB8_8320, Mask(i)) == ((31 - i) in {32, 26, 23, 22, 16, 12, 11, 10, 8, 7, 5, 4, 2, 1, 0})
  {
    Masks();
  }

  lemma PolynomialBits16(i: nat)
    requires 16 <= i < 24
    ensures Bit(0xEDB8_8320, Mask(i)) == ((31 - i) in {32, 26, 23, 22, 16, 12, 11, 10, 8, 7, 5, 4, 2, 1, 0})
  {
    Masks();
  }

  lemma PolynomialBits24(i: nat)
    requires 24 <= i < 32
    ensures Bit(0xEDB8_8320, Mask(i)) == ((31 - i) in {32, 26, 23, 22, 16, 12, 11, 10, 8, 7, 5, 4, 2, 1, 0})
  {
    Masks();
  }

  lemma GeneratorBits()
    ensures RegisterBits(0xEDB8_8320) == Generator()[1..]
  {
    hide Bit, Mask;
    var r, g := RegisterBits(0xEDB8_8320), Generator()[1..];
    forall i | 0 <= i < 32 ensures r[i] == g[i] {
      assert g[i] == ((31 - i) in {32, 26, 23, 22, 16, 12, 11, 10, 8, 7, 5, 4, 2, 1, 0});
      if i < 8 {
        PolynomialBits0(i);
      } else if i < 16 {
        PolynomialBits8(i);
      } else if i < 24 {
        PolynomialBits16(i);
      } else if i < 32 {
        PolynomialBits24(i);
      }
    }
  }

  lemma LowBitFirst(w: bv32)
    ensures RegisterBits(w)[0] == (w & 1 != 0)
  {
    assert Mask(0) == 1;
  }

  /** One turn of the bit loop shifts the register and reduces it by the generator. */
  lemma StepShifts(w: bv32)
    ensures RegisterBits(Step(w)) == Shift(RegisterBits(w), false, Generator())
  {
    hide RegisterBits, Generator, Plus, Xor, Step;
    StepIsXor(w);
    LowBitFirst(w);
    HalfShifts(w);
    XorAdds(w >> 1, 0xEDB8_8320);
    GeneratorBits();
  }

  lemma StepIsXor(w: bv32)
    ensures Step(w) == if w & 1 != 0 then Xor(w >> 1, 0xEDB8_8320) else w >> 1
  {
  }

  lemma {:induction false} StepsFeed(w: bv32, n: nat)
    ensures RegisterBits(Steps(w, n)) == Feed(RegisterBits(w), Zeros(n), Generator())
  {
    hide RegisterBits, Generator, Shift, Step;
    if n > 0 {
      StepsFeed(w, n - 1);
      assert Zeros(n) == Zeros(n - 1) + [false];
      FeedConcat(RegisterBits(w), Zeros(n - 1), [false], Generator());
      FeedOne(RegisterBits(Steps(w, n - 1)), false, Generator());
      StepShifts(Steps(w, n - 1));
    }
  }

  lemma {:induction false} MaskHigh(i: nat)
    requires i >= 8
    ensures Mask(i) & 0xFF == 0
  {
    Masks();
    if i > 8 {
      MaskHigh(i - 1);
      HighDoubles(Mask(i - 1));
    }
  }

  lemma HighDoubles(mask: bv32)
    requires mask & 0xFF == 0
    ensures (mask << 1) & 0xFF == 0
  {
  }

  lemma HighBit(b: byte, mask: bv32)
    requires mask & 0xFF == 0
    ensures !Bit(Wide(b), mask)
  {
  }

  lemma ByteIsShort(b: byte)
    ensures var r := RegisterBits(Wide(b)); forall i :: 8 <= i < |r| ==> !r[i]
  {
    hide Bit, Mask, Wide;
    forall i | 8 <= i < 32 ensures !Bit(Wide(b), Mask(i)) {
      MaskHigh(i);
      HighBit(b, Mask(i));
    }
  }

  lemma ByteAdds(w: bv32, b: byte)
    ensures RegisterBits(Xor(w, Wide(b))) == Plus(RegisterBits(w), ByteBits(b))
  {
    hide RegisterBits, Xor, Wide;
    XorAdds(w, Wide(b));
    ByteIsShort(b);
    PlusShort(RegisterBits(w), RegisterBits(Wide(b)), 8);
  }

  /** A turn of the byte loop takes in the byte's eight bits. */
  lemma ByteFeeds(w: bv32, b: byte)
    ensures RegisterBits(AddByte(w, b)) == Feed(RegisterBits(w), ByteBits(b), Generator())
  {
    hide RegisterBits, Generator, Steps, ByteBits, Feed, Wide, Xor;
    ByteAdds(w, b);
    FeedAtOnce(RegisterBits(w), ByteBits(b), Generator());
    StepsFeed(Xor(w, Wide(b)), 8);
  }

  lemma {:induction false} RunFeeds(w: bv32, s: seq<byte>)
    ensures RegisterBits(Run(w, s)) == Feed(RegisterBits(w), MessageBits(s), Generator())
  {
    hide RegisterBits, Generator, AddByte, ByteBits;
    if s != [] {
      var p, b := s[..|s| - 1], s[|s| - 1];
      RunFeeds(w, p);
      ByteFeeds(Run(w, p), b);
      FeedConcat(RegisterBits(w), MessageBits(p), ByteBits(b), Generator());
    }
  }

  lemma InitIsOnes()
    ensures RegisterBits(INIT) == Ones(32)
  {
    Masks();
  }

  lemma NotFlips(w: bv32)
    ensures forall i :: 0 <= i < 32 ==> RegisterBits(!w)[i] == !RegisterBits(w)[i]
  {
    hide Bit, Single;
    Masks();
    forall i | 0 <= i < 32 ensures Bit(!w, Mask(i)) == !Bit(w, Mask(i)) {
      MaskSingle(i);
      NotBit(w, Mask(i));
    }
  }

  lemma NotBit(w: bv32, mask: bv32)
    requires Single(mask) && mask != 0
    ensures Bit(!w, mask) == !Bit(w, mask)
  {
  }

  /** The check sequence is the complement of the remainder of the message polynomial by the
      generator of IEEE 802.3: the bits of the bytes, lowest first, 32 zeros behind them, and
      the initial ones added to the first 32. */
  lemma CrcIsRemainder(s: seq<byte>)
    ensures Plus(RegisterBits(Crc(s)), Ones(32)) == Remainder(Plus(MessageBits(s) + Zeros(32), Ones(32)), Generator())
  {
    hide RegisterBits, Run, MessageBits, Feed, Remainder;
    RunFeeds(INIT, s);
    InitIsOnes();
    FeedIsRemainder(Ones(32), MessageBits(s), Generator());
    NotFlips(Run(INIT, s));
    assert Plus(RegisterBits(Crc(s)), Ones(32)) == RegisterBits(Run(INIT, s));
  }
}
