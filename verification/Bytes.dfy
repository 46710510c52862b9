/** Bytes on the wire and in flash, and the little-endian fields built from them. */
module Bytes {

  type byte = bv8

  datatype Option<+T> = None | Some(value: T)

  /** The value of a byte as a number. */
  function Value(b: byte): nat { b as nat }

  /** The byte with a given value, put together from its two hexadecimal digits. */
  function ByteOf(n: nat): byte
    requires n < 256
  {
    Join((n / 16) as bv4, (n % 16) as bv4)
  }

  function Join(hi: bv4, lo: bv4): byte { ((hi as bv8) << 4) | (lo as bv8) }

  lemma ValueOfJoin(hi: bv4, lo: bv4)
    ensures Value(Join(hi, lo)) == 16 * (hi as nat) + (lo as nat)
  {
  }

  lemma ValueOfDigit(n: nat)
    requires n < 16
    ensures (n as bv4) as nat == n
  {
  }

  lemma ValueOfByteOf(n: nat)
    requires n < 256
    ensures Value(ByteOf(n)) == n
  {
    ValueOfDigit(n / 16);
    ValueOfDigit(n % 16);
    ValueOfJoin((n / 16) as bv4, (n % 16) as bv4);
  }

  /** Reads and writes of an unsigned little-endian field of two bytes. */
  function Rd16(s: seq<byte>): nat
    requires |s| == 2
  {
    Value(s[0]) + 256 * Value(s[1])
  }

  function Wr16(n: nat): (s: seq<byte>)
    requires n < 0x1_0000
    ensures |s| == 2
  {
    [ByteOf(n % 256), ByteOf(n / 256)]
  }

  lemma Rd16OfWr16(n: nat)
    requires n < 0x1_0000
    ensures Rd16(Wr16(n)) == n
  {
    ValueOfByteOf(n % 256);
    ValueOfByteOf(n / 256);
  }

  /** The same for four bytes. */
  function Rd32(s: seq<byte>): nat
    requires |s| == 4
  {
    Rd16(s[..2]) + 0x1_0000 * Rd16(s[2..])
  }

  function Wr32(n: nat): (s: seq<byte>)
    requires n < 0x1_0000_0000
    ensures |s| == 4
  {
    Wr16(n % 0x1_0000) + Wr16(n / 0x1_0000)
  }

  lemma Rd32OfWr32(n: nat)
    requires n < 0x1_0000_0000
    ensures Rd32(Wr32(n)) == n
  {
    var s := Wr32(n);
    assert s[..2] == Wr16(n % 0x1_0000) && s[2..] == Wr16(n / 0x1_0000);
    Rd16OfWr16(n % 0x1_0000);
    Rd16OfWr16(n / 0x1_0000);
  }

  /** Different bytes read as different numbers. */
  lemma ValueInjective(a: byte, b: byte)
    requires Value(a) == Value(b)
    ensures a == b
  {
  }

  lemma Rd16Injective(s: seq<byte>, t: seq<byte>)
    requires |s| == |t| == 2
    ensures Rd16(s) == Rd16(t) <==> s == t
  {
    hide Value;
    if Rd16(s) == Rd16(t) {
      ValueRange(s[0]);
      ValueRange(t[0]);
      ValueInjective(s[0], t[0]);
      ValueInjective(s[1], t[1]);
    }
  }

  lemma ValueRange(b: byte)
    ensures Value(b) < 256
  {
  }

  lemma Rd32Injective(s: seq<byte>, t: seq<byte>)
    requires |s| == |t| == 4
    ensures Rd32(s) == Rd32(t) <==> s == t
  {
    hide Value;
    Rd16Injective(s[..2], t[..2]);
    Rd16Injective(s[2..], t[2..]);
    ValueRange(s[0]);
    ValueRange(s[1]);
    ValueRange(t[0]);
    ValueRange(t[1]);
    assert s == s[..2] + s[2..] && t == t[..2] + t[2..];
  }

  /** A 32-bit pattern in memory, low byte first, and back. */
  function Split32(b: bv32): (s: seq<byte>)
    ensures |s| == 4
  {
    [(b & 0xFF) as bv8, ((b >> 8) & 0xFF) as bv8, ((b >> 16) & 0xFF) as bv8, (b >> 24) as bv8]
  }

  function Join32(s: seq<byte>): bv32
    requires |s| == 4
  {
    (s[0] as bv32) | ((s[1] as bv32) << 8) | ((s[2] as bv32) << 16) | ((s[3] as bv32) << 24)
  }

  lemma JoinOfSplit(b: bv32)
    ensures Join32(Split32(b)) == b
  {
  }

  lemma SplitOfJoin(s: seq<byte>)
    requires |s| == 4
    ensures Split32(Join32(s)) == s
  {
    hide Split32;
    SplitOfBytes(s[0], s[1], s[2], s[3]);
  }

  lemma SplitOfBytes(a: byte, b: byte, c: byte, d: byte)
    ensures Split32((a as bv32) | ((b as bv32) << 8) | ((c as bv32) << 16) | ((d as bv32) << 24)) == [a, b, c, d]
  {
  }

  lemma Slice<T>(s: seq<T>, a: nat, b: nat, c: nat, d: nat)
    requires a <= b <= |s| && c <= d <= b - a
    ensures s[a..b][c..d] == s[a + c..a + d]
  {
    forall i | 0 <= i < d - c ensures s[a..b][c..d][i] == s[a + c..a + d][i] {
      assert s[a..b][c + i] == s[a + (c + i)];
    }
  }

  /** n copies of one byte. */
  function Fill(b: byte, n: nat): (s: seq<byte>) { seq(n, _ => b) }

  /** a and b have the same length and agree everywhere outside [w, w + n). */
  ghost predicate SameOutside<T>(a: seq<T>, b: seq<T>, w: nat, n: nat) {
    |a| == |b| && forall i :: 0 <= i < |a| && !(w <= i < w + n) ==> a[i] == b[i]
  }
}
