/**
 * CRC-16/Modbus (section 6.2 of "MODBUS over Serial Line", V1.02): reflected
 * polynomial 0xA001, initial value 0xFFFF, sent low byte first.
 *
 * The specification is a function of the byte sequence; the firmware's two nested
 * loops are proved to compute it, and the error-detection results are about it.
 */
module Crc16 {
  import opened Bytes
  import opened Gf2

  const INIT: bv16 := 0xFFFF

  /** One turn of the bit loop. */
  function Step(crc: bv16): bv16 {
    if crc & 1 != 0 then (crc >> 1) ^ 0xA001 else crc >> 1
  }

  function Steps(crc: bv16, n: nat): bv16 {
    if n == 0 then crc else Step(Steps(crc, n - 1))
  }

  function Mix(crc: bv16, b: byte): bv16 { crc ^ (b as bv16) }

  /** A whole turn of the byte loop. */
  function AddByte(crc: bv16, b: byte): bv16 { Steps(Mix(crc, b), 8) }

  /** The register after the bytes of s. */
  function Run(crc: bv16, s: seq<byte>): bv16 {
    if s == [] then crc else AddByte(Run(crc, s[..|s| - 1]), s[|s| - 1])
  }

  function Crc(s: seq<byte>): bv16 { Run(INIT, s) }

  /** The two bytes in which a register value is sent, low byte first. */
  function Wire(crc: bv16): seq<byte> { [(crc & 0xFF) as bv8, (crc >> 8) as bv8] }

  function Word(a: byte, b: byte): bv16 { (a as bv16) | ((b as bv16) << 8) }

  /** crc16_modbus over buf[from .. from + len). */
  method Crc16Modbus(buf: array<byte>, from: nat, len: nat) returns (crc: bv16)
    requires from + len <= buf.Length
    ensures crc == Crc(buf[from..from + len])
  {
    crc := 0xFFFF;
    for i := 0 to len
      invariant crc == Crc(buf[from..from + i])
    {
      ghost var before := crc;
      crc := crc ^ (buf[from + i] as bv16);
      for b := 0 to 8
        invariant crc == Steps(before ^ (buf[from + i] as bv16), b)
      {
        if crc & 1 != 0 { crc := (crc >> 1) ^ 0xA001; } else { crc := crc >> 1; }
      }
      assert buf[from..from + i + 1][..i] == buf[from..from + i];
    }
  }

  lemma {:induction false} RunConcat(crc: bv16, a: seq<byte>, b: seq<byte>)
    ensures Run(crc, a + b) == Run(Run(crc, a), b)
  {
    if b == [] {
      assert a + b == a;
    } else {
      RunConcat(crc, a, b[..|b| - 1]);
      assert (a + b)[..|a + b| - 1] == a + b[..|b| - 1];
    }
  }

  /** The bit step is injective: the reflected polynomial has its top bit set, so the
      bit shifted out can be read back from the top of the result. */
  lemma StepInjective(x: bv16, y: bv16)
    requires Step(x) == Step(y)
    ensures x == y
  {
  }

  lemma {:induction false} StepsInjective(x: bv16, y: bv16, n: nat)
    requires Steps(x, n) == Steps(y, n)
    ensures x == y
  {
    if n > 0 {
      StepInjective(Steps(x, n - 1), Steps(y, n - 1));
      StepsInjective(x, y, n - 1);
    }
  }

  lemma MixInjective(x: bv16, y: bv16, b: byte)
    requires Mix(x, b) == Mix(y, b)
    ensures x == y
  {
  }

  lemma AddByteInjective(x: bv16, y: bv16, b: byte)
    requires AddByte(x, b) == AddByte(y, b)
    ensures x == y
  {
    hide Step, Steps, Mix;
    StepsInjective(Mix(x, b), Mix(y, b), 8);
    MixInjective(x, y, b);
  }

  /** Different registers stay different, whatever bytes follow. */
  lemma {:induction false} RunInjective(x: bv16, y: bv16, s: seq<byte>)
    requires Run(x, s) == Run(y, s)
    ensures x == y
  {
    hide AddByte;
    if s != [] {
      var p := s[..|s| - 1];
      AddByteInjective(Run(x, p), Run(y, p), s[|s| - 1]);
      RunInjective(x, y, p);
    }
  }

  lemma {:induction false} StepsAdd(x: bv16, m: nat, n: nat)
    ensures Steps(Steps(x, m), n) == Steps(x, m + n)
  {
    if n > 0 { StepsAdd(x, m, n - 1); }
  }

  function Xor(x: bv16, y: bv16): bv16 { x ^ y }

  /** A bit below the top only moves down one place, whatever else is in the register. */
  lemma StepXor(x: bv16, y: bv16)
    requires y & 0x8000 == 0
    ensures Step(x) ^ y == Step(x ^ (y << 1))
  {
  }

  function Double(y: bv16): bv16 { y << 1 }

  /** A byte moved up n places. */
  function Up(b: byte, n: nat): bv16 {
    if n == 0 then b as bv16 else Double(Up(b, n - 1))
  }

  lemma DoubleShifts(y: bv16)
    ensures Double(y) == y << 1 && Double(y << 1) == y << 2 && Double(y << 2) == y << 3 && Double(y << 3) == y << 4
    ensures Double(y << 4) == y << 5 && Double(y << 5) == y << 6 && Double(y << 6) == y << 7 && Double(y << 7) == y << 8
  {
  }

  lemma UpValues(b: byte)
    ensures var y := b as bv16;
      && Up(b, 0) == y && Up(b, 1) == y << 1 && Up(b, 2) == y << 2 && Up(b, 3) == y << 3 && Up(b, 4) == y << 4
      && Up(b, 5) == y << 5 && Up(b, 6) == y << 6 && Up(b, 7) == y << 7 && Up(b, 8) == y << 8
  {
    var y := b as bv16;
    DoubleShifts(y);
    hide Double;
    assert Up(b, 1) == Double(Up(b, 0));
    assert Up(b, 2) == Double(Up(b, 1));
    assert Up(b, 3) == Double(Up(b, 2));
    assert Up(b, 4) == Double(Up(b, 3));
    assert Up(b, 5) == Double(Up(b, 4));
    assert Up(b, 6) == Double(Up(b, 5));
    assert Up(b, 7) == Double(Up(b, 6));
  }

  lemma ByteBelowTop(y: bv16)
    requires y & 0xFF00 == 0
    ensures y & 0x8000 == 0 && (y << 1) & 0x8000 == 0 && (y << 2) & 0x8000 == 0 && (y << 3) & 0x8000 == 0
    ensures (y << 4) & 0x8000 == 0 && (y << 5) & 0x8000 == 0 && (y << 6) & 0x8000 == 0 && (y << 7) & 0x8000 == 0
  {
  }

  lemma UpBelowTop(b: byte, n: nat)
    requires n <= 7
    ensures Up(b, n) & 0x8000 == 0
  {
    hide Up;
    UpValues(b);
    ByteBelowTop(b as bv16);
  }

  lemma StepDouble(x: bv16, y: bv16)
    requires y & 0x8000 == 0
    ensures Xor(Step(x), y) == Step(Xor(x, Double(y)))
  {
    hide Step;
    StepXor(x, y);
  }

  lemma StepUp(x: bv16, b: byte, n: nat)
    requires n <= 7
    ensures Xor(Step(x), Up(b, n)) == Step(Xor(x, Up(b, n + 1)))
  {
    hide Step, Xor, Double;
    UpBelowTop(b, n);
    StepDouble(x, Up(b, n));
  }

  /** A byte added after eight steps may be added, eight places up, before them. */
  lemma {:induction false} StepsShift(x: bv16, b: byte, n: nat)
    requires n <= 8
    ensures Steps(Xor(x, Up(b, 8)), n) == Xor(Steps(x, n), Up(b, 8 - n))
  {
    hide Step, Xor, Up;
    if n > 0 {
      StepsShift(x, b, n - 1);
      StepUp(Steps(x, n - 1), b, 8 - n);
    }
  }

  function MixWord(crc: bv16, a: byte, b: byte): bv16 { crc ^ Word(a, b) }

  lemma MixTwo(crc: bv16, a: byte, b: byte)
    ensures Xor(Mix(crc, a), Up(b, 8)) == MixWord(crc, a, b)
  {
    UpValues(b);
  }

  lemma MixIsXor(x: bv16, b: byte)
    ensures Mix(x, b) == Xor(x, Up(b, 0))
  {
  }

  /** Two bytes act as one 16-bit word followed by sixteen steps. */
  lemma RunTwo(crc: bv16, a: byte, b: byte)
    ensures Run(crc, [a, b]) == Steps(MixWord(crc, a, b), 16)
  {
    hide Step, Steps, Mix, MixWord, Xor;
    assert [a, b][..1] == [a] && [a][..0] == [];
    assert Run(crc, [a]) == AddByte(crc, a);
    MixIsXor(Steps(Mix(crc, a), 8), b);
    StepsShift(Mix(crc, a), b, 8);
    MixTwo(crc, a, b);
    StepsAdd(MixWord(crc, a, b), 8, 8);
  }

  lemma WordInjective(x: bv16, a: byte, b: byte, c: byte, d: byte)
    requires MixWord(x, a, b) == MixWord(x, c, d)
    ensures a == c && b == d
  {
  }

  lemma {:induction false} StepsOfZero(n: nat)
    ensures Steps(0, n) == 0
  {
    if n > 0 { StepsOfZero(n - 1); }
  }

  lemma MixWordZero(c: bv16, a: byte, b: byte)
    ensures MixWord(c, a, b) == 0 <==> Word(a, b) == c
  {
    hide Word;
    XorZero(c, Word(a, b));
  }

  lemma XorZero(x: bv16, y: bv16)
    ensures x ^ y == 0 <==> x == y
  {
  }

  lemma WordOfWire(c: bv16)
    ensures Word(Wire(c)[0], Wire(c)[1]) == c
  {
  }

  /** Residue: a sequence followed by two bytes has register zero exactly when those two
      bytes are its check value, low byte first. */
  lemma Residue(s: seq<byte>, a: byte, b: byte)
    ensures Crc(s + [a, b]) == 0 <==> Word(a, b) == Crc(s)
  {
    hide Step, Steps, MixWord, Word;
    var c := Crc(s);
    RunConcat(INIT, s, [a, b]);
    RunTwo(c, a, b);
    StepsOfZero(16);
    if Steps(MixWord(c, a, b), 16) == 0 {
      StepsInjective(MixWord(c, a, b), 0, 16);
    }
    MixWordZero(c, a, b);
  }

  /** Error detection: two sequences that differ, but only inside one window of two
      adjacent bytes, have different check values. */
  lemma WindowDetected(s: seq<byte>, t: seq<byte>, w: nat)
    requires w + 2 <= |s| && SameOutside(s, t, w, 2) && s != t
    ensures Crc(s) != Crc(t)
  {
    hide Step, Steps, MixWord, Run;
    var p, q := Crc(s[..w]), s[w + 2..];
    assert t[..w] == s[..w] && t[w + 2..] == q;
    assert s == s[..w] + [s[w], s[w + 1]] + q && t == t[..w] + [t[w], t[w + 1]] + q;
    RunSplit(s, w);
    RunSplit(t, w);
    if Crc(s) == Crc(t) {
      var x, y := MixWord(p, s[w], s[w + 1]), MixWord(p, t[w], t[w + 1]);
      RunInjective(Steps(x, 16), Steps(y, 16), q);
      StepsInjective(x, y, 16);
      WordInjective(p, s[w], s[w + 1], t[w], t[w + 1]);
    }
  }

  /** The two bytes at w as one word within the run. */
  lemma RunSplit(s: seq<byte>, w: nat)
    requires w + 2 <= |s|
    ensures Crc(s) == Run(Steps(MixWord(Crc(s[..w]), s[w], s[w + 1]), 16), s[w + 2..])
  {
    hide Step, Steps, MixWord, Run;
    RunConcat(INIT, s[..w + 2], s[w + 2..]);
    assert s == s[..w + 2] + s[w + 2..];
    RunConcat(INIT, s[..w], [s[w], s[w + 1]]);
    assert s[..w + 2] == s[..w] + [s[w], s[w + 1]];
    RunTwo(Crc(s[..w]), s[w], s[w + 1]);
  }

  // ----- The register as a remainder -----

  function Wide(b: byte): bv16 { b as bv16 }

  /** The generator polynomial. */
  function Generator(): (g: Bits)
    ensures |g| == 17 && g[0]
  {
    Powers(16, {16, 15, 2, 0})
  }

  function Mask(i: nat): bv16 { if i == 0 then 1 else Mask(i - 1) << 1 }

  predicate Bit(w: bv16, mask: bv16) { w & mask != 0 }

  predicate Single(mask: bv16) { mask & (mask - 1) == 0 }

  /** The register's bits, the lowest first: in the reflected form it is the highest coefficient. */
  function RegisterBits(w: bv16): (s: Bits)
    ensures |s| == 16
  {
    seq(16, i requires 0 <= i < 16 => Bit(w, Mask(i)))
  }

  /** The bits of a byte in the order in which they enter, the lowest first. */
  function ByteBits(b: byte): (s: Bits)
    ensures |s| == 8
  {
    RegisterBits(Wide(b))[..8]
  }

  function MessageBits(s: seq<byte>): Bits {
    if s == [] then [] else MessageBits(s[..|s| - 1]) + ByteBits(s[|s| - 1])
  }

  lemma RawXorBit(x: bv16, y: bv16, mask: bv16)
    requires mask & (mask - 1) == 0
    ensures ((x ^ y) & mask != 0) == ((x & mask != 0) != (y & mask != 0))
  {
  }

  lemma XorBit(x: bv16, y: bv16, mask: bv16)
    requires Single(mask)
    ensures Bit(Xor(x, y), mask) == (Bit(x, mask) != Bit(y, mask))
  {
    RawXorBit(x, y, mask);
  }

  lemma ShiftBit(x: bv16, mask: bv16)
    requires Single(mask)
    ensures Bit(x >> 1, mask) == Bit(x, mask << 1)
  {
  }

  lemma SingleDoubles(mask: bv16)
    requires Single(mask)
    ensures Single(mask << 1)
  {
  }

  lemma OneIsSingle()
    ensures Single(1)
  {
  }

  lemma {:induction false} MaskSingle(i: nat)
    ensures Single(Mask(i))
  {
    hide Single;
    if i == 0 {
      OneIsSingle();
    } else {
      MaskSingle(i - 1);
      SingleDoubles(Mask(i - 1));
    }
  }

  lemma Masks()
    ensures Mask(0) == 0x1 && Mask(1) == 0x2 && Mask(2) == 0x4 && Mask(3) == 0x8 && Mask(4) == 0x10 && Mask(5) == 0x20
    ensures Mask(6) == 0x40 && Mask(7) == 0x80 && Mask(8) == 0x100 && Mask(9) == 0x200 && Mask(10) == 0x400 && Mask(11) == 0x800
    ensures Mask(12) == 0x1000 && Mask(13) == 0x2000 && Mask(14) == 0x4000 && Mask(15) == 0x8000 && Mask(16) == 0
  {
    assert Mask(0) == 0x1;
    assert Mask(1) == 0x2;
    assert Mask(2) == 0x4;
    assert Mask(3) == 0x8;
    assert Mask(4) == 0x10;
    assert Mask(5) == 0x20;
    assert Mask(6) == 0x40;
    assert Mask(7) == 0x80;
    assert Mask(8) == 0x100;
    assert Mask(9) == 0x200;
    assert Mask(10) == 0x400;
    assert Mask(11) == 0x800;
    assert Mask(12) == 0x1000;
    assert Mask(13) == 0x2000;
    assert Mask(14) == 0x4000;
    assert Mask(15) == 0x8000;
  }

  lemma XorAdds(x: bv16, y: bv16)
    ensures RegisterBits(Xor(x, y)) == Plus(RegisterBits(x), RegisterBits(y))
  {
    hide Bit, Mask, Single, Xor;
    forall i | 0 <= i < 16 ensures Bit(Xor(x, y), Mask(i)) == (Bit(x, Mask(i)) != Bit(y, Mask(i))) {
      MaskSingle(i);
      XorBit(x, y, Mask(i));
    }
  }

  lemma HalfShifts(x: bv16)
    ensures RegisterBits(x >> 1) == RegisterBits(x)[1..] + [false]
  {
    hide Bit, Single;
    forall i | 0 <= i < 16 ensures Bit(x >> 1, Mask(i)) == Bit(x, Mask(i + 1)) {
      MaskSingle(i);
      ShiftBit(x, Mask(i));
    }
    Masks();
    NoBit(x);
  }

  lemma NoBit(x: bv16)
    ensures !Bit(x, 0)
  {
  }

  lemma PolynomialBits0(i: nat)
    requires 0 <= i < 8
    ensures Bit(0xA001, Mask(i)) == ((15 - i) in {16, 15, 2, 0})
  {
    Masks();
  }

  lemma PolynomialBits8(i: nat)
    requires 8 <= i < 16
    ensures Bit(0xA001, Mask(i)) == ((15 - i) in {16, 15, 2, 0})
  {
    Masks();
  }

  lemma GeneratorBits()
    ensures RegisterBits(0xA001) == Generator()[1..]
  {
    hide Bit, Mask;
    var r, g := RegisterBits(0xA001), Generator()[1..];
    forall i | 0 <= i < 16 ensures r[i] == g[i] {
      assert g[i] == ((15 - i) in {16, 15, 2, 0});
      if i < 8 {
        PolynomialBits0(i);
      } else if i < 16 {
        PolynomialBits8(i);
      }
    }
  }

  lemma LowBitFirst(w: bv16)
    ensures RegisterBits(w)[0] == (w & 1 != 0)
  {
    assert Mask(0) == 1;
  }

  /** One turn of the bit loop shifts the register and reduces it by the generator. */
  lemma StepShifts(w: bv16)
    ensures RegisterBits(Step(w)) == Shift(RegisterBits(w), false, Generator())
  {
    hide RegisterBits, Generator, Plus, Xor, Step;
    StepIsXor(w);
    LowBitFirst(w);
    HalfShifts(w);
    XorAdds(w >> 1, 0xA001);
    GeneratorBits();
  }

  lemma StepIsXor(w: bv16)
    ensures Step(w) == if w & 1 != 0 then Xor(w >> 1, 0xA001) else w >> 1
  {
  }

  lemma {:induction false} StepsFeed(w: bv16, n: nat)
    ensures RegisterBits(Steps(w, n)) == Feed(RegisterBits(w), Zeros(n), Generator())
  {
    hide RegisterBits, Generator, Shift, Step;
    if n > 0 {
      StepsFeed(w, n - 1);
      assert Zeros(n) == Zeros(n - 1) + [false];
      FeedConcat(RegisterBits(w), Zeros(n - 1), [false], Generator());
      FeedOne(RegisterBits(Steps(w, n - 1)), false, Generator());
      StepShifts(Steps(w, n - 1));
    }
  }

  lemma {:induction false} MaskHigh(i: nat)
    requires i >= 8
    ensures Mask(i) & 0xFF == 0
  {
    Masks();
    if i > 8 {
      MaskHigh(i - 1);
      HighDoubles(Mask(i - 1));
    }
  }

  lemma HighDoubles(mask: bv16)
    requires mask & 0xFF == 0
    ensures (mask << 1) & 0xFF == 0
  {
  }

  lemma HighBit(b: byte, mask: bv16)
    requires mask & 0xFF == 0
    ensures !Bit(Wide(b), mask)
  {
  }

  lemma ByteIsShort(b: byte)
    ensures var r := RegisterBits(Wide(b)); forall i :: 8 <= i < |r| ==> !r[i]
  {
    hide Bit, Mask, Wide;
    forall i | 8 <= i < 16 ensures !Bit(Wide(b), Mask(i)) {
      MaskHigh(i);
      HighBit(b, Mask(i));
    }
  }

  lemma ByteAdds(w: bv16, b: byte)
    ensures RegisterBits(Xor(w, Wide(b))) == Plus(RegisterBits(w), ByteBits(b))
  {
    hide RegisterBits, Xor, Wide;
    XorAdds(w, Wide(b));
    ByteIsShort(b);
    PlusShort(RegisterBits(w), RegisterBits(Wide(b)), 8);
  }

  lemma MixAdds(w: bv16, b: byte)
    ensures Mix(w, b) == Xor(w, Wide(b))
  {
  }

  /** A turn of the byte loop takes in the byte's eight bits. */
  lemma ByteFeeds(w: bv16, b: byte)
    ensures RegisterBits(AddByte(w, b)) == Feed(RegisterBits(w), ByteBits(b), Generator())
  {
    hide RegisterBits, Generator, Steps, ByteBits, Feed, Wide, Xor, Mix;
    ByteAdds(w, b);
    FeedAtOnce(RegisterBits(w), ByteBits(b), Generator());
    MixAdds(w, b);
    StepsFeed(Xor(w, Wide(b)), 8);
  }

  lemma {:induction false} RunFeeds(w: bv16, s: seq<byte>)
    ensures RegisterBits(Run(w, s)) == Feed(RegisterBits(w), MessageBits(s), Generator())
  {
    hide RegisterBits, Generator, AddByte, ByteBits;
    if s != [] {
      var p, b := s[..|s| - 1], s[|s| - 1];
      RunFeeds(w, p);
      ByteFeeds(Run(w, p), b);
      FeedConcat(RegisterBits(w), MessageBits(p), ByteBits(b), Generator());
    }
  }

  lemma InitIsOnes()
    ensures RegisterBits(INIT) == Ones(16)
  {
    Masks();
  }

  /** The CRC is the remainder of the message polynomial by x^16 + x^15 + x^2 + 1: the bits of
      the bytes, lowest first, sixteen zeros behind them, and the initial ones added to the
      first sixteen. */
  lemma CrcIsRemainder(s: seq<byte>)
    ensures RegisterBits(Crc(s)) == Remainder(Plus(MessageBits(s) + Zeros(16), Ones(16)), Generator())
  {
    hide RegisterBits, Run, MessageBits, Feed, Remainder;
    RunFeeds(INIT, s);
    InitIsOnes();
    FeedIsRemainder(Ones(16), MessageBits(s), Generator());
  }
}
