/**
 * The PC's end of the bridge, as the UDP protocol document under Interface lays it down: the datagrams it
 * builds, and how it reads the ones it gets. Nothing here uses the bridge's own definitions.
 */
module UdpClient {
  import opened Bytes

  /** Magic 'MU', version 4, type, sequence number, payload length, payload. */
  function Wrapped(typ: byte, sequence: nat, payload: seq<byte>): seq<byte>
    requires sequence < 0x1_0000 && |payload| < 0x1_0000
  {
    [0x55, 0x4D, 4, typ] + Wr16(sequence) + Wr16(|payload|) + payload
  }

  function ReadRequest(sequence: nat, index: nat, sub: byte, typ: byte): seq<byte>
    requires sequence < 0x1_0000 && index < 0x1_0000
  {
    Wrapped(0x01, sequence, Wr16(index) + [sub, typ])
  }

  function WriteRequest(sequence: nat, index: nat, sub: byte, typ: byte, data: seq<byte>): seq<byte>
    requires sequence < 0x1_0000 && index < 0x1_0000 && |data| < 256
  {
    Wrapped(0x03, sequence, Wr16(index) + [sub, typ, ByteOf(|data|)] + data)
  }

  /** Bytes in a value of an MC_IfOdType_t: U8, U16, U32, I8, I16, I32, F32. */
  predicate HasSize(typ: byte, n: nat) {
    if typ <= 6 then n == [1, 2, 4, 1, 2, 4, 4][typ as nat] else n == 0
  }

  /** What a datagram tells the PC. */
  datatype Told =
    | Garbled
    | ReadDone(sequence: nat, index: nat, sub: nat, typ: nat, result: nat, data: seq<byte>)
    | WriteDone(sequence: nat, index: nat, sub: nat, result: nat)
    | Failed(sequence: nat, class_: nat, detail: nat, about: nat)
    | Samples(sequence: nat, mapVersion: byte, count: nat, recordBytes: nat, records: seq<byte>)

  function Hear(b: seq<byte>): Told {
    if |b| < 8 || b[0] != 0x55 || b[1] != 0x4D || b[2] != 4 || Rd16(b[6..8]) != |b| - 8 then Garbled
    else Read(b[3], Rd16(b[4..6]), b[8..])
  }

  function Read(typ: byte, sequence: nat, p: seq<byte>): Told {
    if typ == 0x02 && |p| >= 6 && |p| == 6 + Value(p[5]) then
      ReadDone(sequence, Rd16(p[0..2]), Value(p[2]), Value(p[3]), Value(p[4]), p[6..])
    else if typ == 0x04 && |p| == 4 then WriteDone(sequence, Rd16(p[0..2]), Value(p[2]), Value(p[3]))
    else if typ == 0x7F && |p| == 4 then Failed(sequence, Value(p[0]), Value(p[1]), Rd16(p[2..4]))
    else if typ == 0x20 && |p| >= 4 && |p| == 4 + Value(p[1]) * Value(p[2]) then
      Samples(sequence, p[0], Value(p[1]), Value(p[2]), p[4..])
    else Garbled
  }
}
