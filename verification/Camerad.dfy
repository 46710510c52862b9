/** The 64-byte CAMERAD header: recogniser and response builder of app/camerad. */
module Camerad {
  import opened Bytes

  const HEADER_SIZE := 64
  const MAX_BODY_SIZE := 164
  const MAX_FRAME_SIZE := HEADER_SIZE + MAX_BODY_SIZE

  // "CAMERAD" and "1.3", each with its terminating zero.
  const MAGIC: seq<byte> := [0x43, 0x41, 0x4D, 0x45, 0x52, 0x41, 0x44, 0]
  const VERSION: seq<byte> := [0x31, 0x2E, 0x33, 0]
  const DEV_CMC_BLDC := 20

  datatype Header = Header(
    msgCommand: nat, destDevice: nat, destDeviceNo: nat, returnAddress: seq<byte>, returnPort: nat,
    returnDevice: nat, returnDeviceNo: nat, messageLength: nat, messageId: nat, packetId: nat)

  /** The length field alone, which is what stream parsing depends on. */
  function LengthField(buf: seq<byte>): nat
    requires |buf| >= HEADER_SIZE
  {
    Rd32(buf[52..56])
  }

  /** camerad_parse_header accepts the first 64 bytes of buf. */
  predicate HeaderOk(buf: seq<byte>)
    requires |buf| >= HEADER_SIZE
  {
    buf[..8] == MAGIC && buf[8..12] == VERSION && HEADER_SIZE <= LengthField(buf) <= MAX_FRAME_SIZE
  }

  function Fields(buf: seq<byte>): Header
    requires |buf| >= HEADER_SIZE
  {
    Header(Rd32(buf[12..16]), Rd32(buf[16..20]), Rd32(buf[20..24]), buf[24..39] + [0], Rd32(buf[40..44]),
           Rd32(buf[44..48]), Rd32(buf[48..52]), LengthField(buf), Rd32(buf[56..60]), Rd32(buf[60..64]))
  }

  /** camerad_parse_header. */
  function ParseHeader(buf: seq<byte>): Option<Header> {
    if |buf| < HEADER_SIZE then None
    else if !HeaderOk(buf) then None
    else Some(Fields(buf))
  }

  /** strncpy of a C string into a field of 16 bytes whose last byte stays zero. */
  function AddressField(ip: seq<byte>): (a: seq<byte>)
    ensures |a| == 16 && a[15] == 0
  {
    var t := if |ip| > 15 then ip[..15] else ip;
    t + Fill(0, 16 - |t|)
  }

  /** camerad_build_response_header. */
  function BuildResponseHeader(request: Header, command: nat, bodyLen: nat, ip: seq<byte>, port: nat, deviceNo: nat): (h: seq<byte>)
    requires command < 0x1_0000_0000 && bodyLen < 0x1_0000 && port < 0x1_0000 && deviceNo < 0x1_0000_0000
    requires request.returnDevice < 0x1_0000_0000 && request.returnDeviceNo < 0x1_0000_0000 && request.messageId < 0x1_0000_0000
    ensures |h| == HEADER_SIZE
  {
    MAGIC + VERSION + Wr32(command) + Wr32(request.returnDevice) + Wr32(request.returnDeviceNo) + AddressField(ip)
    + Wr32(port) + Wr32(DEV_CMC_BLDC) + Wr32(deviceNo) + Wr32(HEADER_SIZE + bodyLen) + Wr32(request.messageId) + Wr32(0)
  }

  /** At most 15 characters of the address, and zeros. */
  lemma AddressBytes(ip: seq<byte>)
    ensures forall i :: 0 <= i < 16 ==> AddressField(ip)[i] == if i < |ip| && i < 15 then ip[i] else 0
  {
  }

  /** A header is accepted with the fields it has at these places, whatever built it. */
  lemma FieldsLie(buf: seq<byte>)
    ensures ParseHeader(buf) == None <==>
      |buf| < 64 || buf[..12] != [0x43, 0x41, 0x4D, 0x45, 0x52, 0x41, 0x44, 0, 0x31, 0x2E, 0x33, 0] || !(64 <= Rd32(buf[52..56]) <= 228)
    ensures ParseHeader(buf) != None ==>
      var f := ParseHeader(buf).value;
      && f.msgCommand == Rd32(buf[12..16]) && f.destDevice == Rd32(buf[16..20]) && f.destDeviceNo == Rd32(buf[20..24])
      && f.returnAddress == buf[24..39] + [0] && f.returnPort == Rd32(buf[40..44]) && f.returnDevice == Rd32(buf[44..48])
      && f.returnDeviceNo == Rd32(buf[48..52]) && f.messageLength == Rd32(buf[52..56]) && f.messageId == Rd32(buf[56..60])
      && f.packetId == Rd32(buf[60..64])
  {
    hide Rd32;
    if |buf| >= 64 {
      var m := buf[..12];
      assert m == buf[..8] + buf[8..12] && m[..8] == buf[..8] && m[8..] == buf[8..12];
      assert MAGIC + VERSION == [0x43, 0x41, 0x4D, 0x45, 0x52, 0x41, 0x44, 0, 0x31, 0x2E, 0x33, 0];
      assert (MAGIC + VERSION)[..8] == MAGIC && (MAGIC + VERSION)[8..] == VERSION;
    }
  }

  /** A response is recognised by the same parser exactly when its body is within the limit,
      and then it names the requester as destination and echoes the message number. */
  lemma ResponseIsRecognised(request: Header, command: nat, bodyLen: nat, ip: seq<byte>, port: nat, deviceNo: nat)
    requires command < 0x1_0000_0000 && bodyLen < 0x1_0000 && port < 0x1_0000 && deviceNo < 0x1_0000_0000
    requires request.returnDevice < 0x1_0000_0000 && request.returnDeviceNo < 0x1_0000_0000 && request.messageId < 0x1_0000_0000
    ensures ParseHeader(BuildResponseHeader(request, command, bodyLen, ip, port, deviceNo))
         == if bodyLen > 164 then None
            else Some(Header(command, request.returnDevice, request.returnDeviceNo, AddressField(ip), port,
                             20, deviceNo, 64 + bodyLen, request.messageId, 0))
  {
    hide Rd32, Wr32, AddressField;
    var h := BuildResponseHeader(request, command, bodyLen, ip, port, deviceNo);
    var a := AddressField(ip);
    assert h[..8] == MAGIC && h[8..12] == VERSION;
    assert h[12..16] == Wr32(command) && h[16..20] == Wr32(request.returnDevice) && h[20..24] == Wr32(request.returnDeviceNo);
    assert h[24..40] == a;
    assert h[24..39] + [0] == a by { assert h[24..39] == h[24..40][..15]; assert a == a[..15] + [a[15]]; }
    assert h[40..44] == Wr32(port) && h[44..48] == Wr32(DEV_CMC_BLDC) && h[48..52] == Wr32(deviceNo);
    assert h[52..56] == Wr32(HEADER_SIZE + bodyLen) && h[56..60] == Wr32(request.messageId) && h[60..64] == Wr32(0);
    Rd32OfWr32(command);
    Rd32OfWr32(request.returnDevice);
    Rd32OfWr32(request.returnDeviceNo);
    Rd32OfWr32(port);
    Rd32OfWr32(DEV_CMC_BLDC);
    Rd32OfWr32(deviceNo);
    Rd32OfWr32(HEADER_SIZE + bodyLen);
    Rd32OfWr32(request.messageId);
    Rd32OfWr32(0);
  }
}
