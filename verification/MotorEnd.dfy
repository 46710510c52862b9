/**
 * The motor's end of the link, as the shared contract in Interface/mc_if_protocol.h and
 * Interface/mc_if_od.h lays it down: how it reads a frame, and its dictionary. Nothing here
 * uses the sender's own definitions.
 */
module MotorEnd {
  import opened Bytes
  import opened Crc16

  /** What a frame says. */
  datatype Heard =
    | Garbled
    | Command(enable: bool, running: bool, newSetpoint: bool, faultReset: bool, halt: bool, velocity: int, counter: nat)
    | ReadRequest(index: nat, sub: nat, typ: nat)
    | WriteRequest(index: nat, sub: nat, typ: nat, data: seq<byte>)

  predicate Has(word: nat, bit: nat)
    requires bit > 0
  {
    word / bit % 2 == 1
  }

  /** Two's complement. */
  function Signed(n: nat, modulus: nat): int { if 2 * n < modulus then n else n - modulus }

  /** A frame of 64 bytes with its sync word, version and both check values right. */
  predicate Sound(f: seq<byte>)
    requires |f| == 64
  {
    var n := Rd16(f[4..6]);
    && f[0] == 0x5A && f[1] == 0xA5 && f[2] == 4 && n <= 52
    && Word(f[8], f[9]) == Crc(f[0..8]) && Word(f[10 + n], f[11 + n]) == Crc(f[10..10 + n])
  }

  function Hear(f: seq<byte>): Heard
    requires |f| == 64
  {
    if !Sound(f) then Garbled else Read(f[3], f[10..10 + Rd16(f[4..6])])
  }

  /** The three messages the motor takes from the CMC: cyclic command, read and write. */
  function Read(typ: byte, p: seq<byte>): Heard {
    if typ == 0x01 && |p| == 10 then
      var word := Rd16(p[0..2]);
      Command(Has(word, 0x0001), Has(word, 0x0002), Has(word, 0x0010), Has(word, 0x0080), Has(word, 0x0100),
              Signed(Rd32(p[2..6]), 0x1_0000_0000), Rd32(p[6..10]))
    else if typ == 0x10 && |p| == 4 then ReadRequest(Rd16(p[0..2]), Value(p[2]), Value(p[3]))
    else if typ == 0x12 && |p| == 14 && Value(p[4]) <= 8 then
      WriteRequest(Rd16(p[0..2]), Value(p[2]), Value(p[3]), p[6..6 + Value(p[4])])
    else Garbled
  }

  /** The number of a frame, which its answer repeats. */
  function NumberOf(f: seq<byte>): nat
    requires |f| == 64
  {
    Rd16(f[6..8])
  }

  // ----- The dictionary -----

  datatype Entry =
    | ModesOfOperation | TargetPosition | TargetPositionTimeMs | TargetTorque
    | ProfileVelocity | ProfileAcceleration | ProfileDeceleration
    | VelLoadFactor | VelAccelUp | VelAccelDn | VelAccelJerk
    | FaultFlags | MaxVelocityRadS | MaxAccelRadS2 | PosLimitLoRad | PosLimitHiRad
    | HomeCommand | HomeStatus | StoreSaveCommand

  // MC_IfOdType_t
  const U8 := 0
  const U16 := 1
  const U32 := 2
  const I8 := 3
  const I16 := 4
  const I32 := 5
  const F32 := 6

  // MC_IF_MODE_*
  const MODE_DISABLED := 0
  const MODE_PROFILE_POSITION := 1
  const MODE_PROFILE_VELOCITY := 3
  const MODE_TORQUE := 4

  /** Index, subindex and type of an entry. */
  function Key(e: Entry): (nat, nat, nat) {
    match e
    case ModesOfOperation => (0x6060, 0, I8)
    case TargetPosition => (0x607A, 0, I32)
    case TargetPositionTimeMs => (0x607B, 0, U32)
    case TargetTorque => (0x6071, 0, I32)
    case ProfileVelocity => (0x6081, 0, U32)
    case ProfileAcceleration => (0x6083, 0, U32)
    case ProfileDeceleration => (0x6084, 0, U32)
    case VelLoadFactor => (0x2300, 5, F32)
    case VelAccelUp => (0x2300, 6, F32)
    case VelAccelDn => (0x2300, 7, F32)
    case VelAccelJerk => (0x2300, 8, F32)
    case FaultFlags => (0x2600, 1, U32)
    case MaxVelocityRadS => (0x2600, 4, F32)
    case MaxAccelRadS2 => (0x2600, 5, F32)
    case PosLimitLoRad => (0x2600, 6, F32)
    case PosLimitHiRad => (0x2600, 7, F32)
    case HomeCommand => (0x2700, 8, U8)
    case HomeStatus => (0x2700, 9, U8)
    case StoreSaveCommand => (0x2800, 1, U16)
  }

  /** A value by its type: a number, or the bits of a float. */
  datatype Quantity = Whole(n: int) | Float(bits: bv32) | Malformed

  function Decoded(typ: nat, data: seq<byte>): Quantity {
    if typ == U8 && |data| == 1 then Whole(Value(data[0]))
    else if typ == I8 && |data| == 1 then Whole(Signed(Value(data[0]), 0x100))
    else if typ == U16 && |data| == 2 then Whole(Rd16(data))
    else if typ == I16 && |data| == 2 then Whole(Signed(Rd16(data), 0x1_0000))
    else if typ == U32 && |data| == 4 then Whole(Rd32(data))
    else if typ == I32 && |data| == 4 then Whole(Signed(Rd32(data), 0x1_0000_0000))
    else if typ == F32 && |data| == 4 then Float(Join32(data))
    else Malformed
  }

  /** The motor is told to set this entry to this value, or to tell its value. */
  predicate Sets(h: Heard, e: Entry, q: Quantity) {
    h.WriteRequest? && (h.index, h.sub, h.typ) == Key(e) && Decoded(h.typ, h.data) == q
  }

  predicate Asks(h: Heard, e: Entry) { h.ReadRequest? && (h.index, h.sub, h.typ) == Key(e) }
}
