/**
 * The 64-byte SPI frame: header (sync, version, type, payload length, sequence) and its
 * CRC, payload and its CRC, zero padding.
 */
module Frame {
  import opened Bytes
  import opened Crc16

  const FRAME_BYTES := 64
  const MAX_PAYLOAD := 52
  const SYNC_WORD := 0xA55A
  const PROTOCOL_VERSION: byte := 4

  datatype Fault = BadSync | BadVersion | BadHeaderCrc | BadLength | BadPayloadCrc

  /** What validate_rx makes of a received frame. */
  datatype Rx = Rejected(fault: Fault) | Accepted(msgType: byte, sequence: nat, payload: seq<byte>)

  function Sync(): (s: seq<byte>)
    ensures |s| == 2
  {
    Wr16(SYNC_WORD)
  }

  function Header(msgType: byte, sequence: nat, plen: nat): (h: seq<byte>)
    requires sequence < 0x1_0000 && plen < 0x1_0000
    ensures |h| == 8
  {
    Sync() + [PROTOCOL_VERSION, msgType] + Wr16(plen) + Wr16(sequence)
  }

  /** A block followed by its check value. */
  function Protect(s: seq<byte>): seq<byte> { s + Wire(Crc(s)) }

  function FrameOf(msgType: byte, sequence: nat, payload: seq<byte>): (f: seq<byte>)
    requires sequence < 0x1_0000 && |payload| <= MAX_PAYLOAD
    ensures |f| == FRAME_BYTES
  {
    Protect(Header(msgType, sequence, |payload|)) + Protect(payload) + Fill(0, MAX_PAYLOAD - |payload|)
  }

  function Validate(f: seq<byte>): Rx
    requires |f| == FRAME_BYTES
  {
    if Rd16(f[0..2]) != SYNC_WORD then Rejected(BadSync)
    else if f[2] != PROTOCOL_VERSION then Rejected(BadVersion)
    else if Word(f[8], f[9]) != Crc(f[0..8]) then Rejected(BadHeaderCrc)
    else
      var plen := Rd16(f[4..6]);
      if plen > MAX_PAYLOAD then Rejected(BadLength)
      else if Word(f[10 + plen], f[11 + plen]) != Crc(f[10..10 + plen]) then Rejected(BadPayloadCrc)
      else Accepted(f[3], Rd16(f[6..8]), f[10..10 + plen])
  }

  /** wr_u16 into a buffer. */
  method Put16(buf: array<byte>, at: nat, lo: byte, hi: byte)
    requires at + 2 <= buf.Length
    modifies buf
    ensures buf[at] == lo && buf[at + 1] == hi
    ensures forall k :: 0 <= k < buf.Length && k != at && k != at + 1 ==> buf[k] == old(buf[k])
  {
    buf[at] := lo;
    buf[at + 1] := hi;
  }

  /** The first half of build_frame: padding, header and header CRC. */
  method BuildHeader(tx: array<byte>, msgType: byte, sequence: nat, plen: nat)
    requires tx.Length == FRAME_BYTES && sequence < 0x1_0000 && plen < 0x1_0000
    modifies tx
    ensures tx[..10] == Protect(Header(msgType, sequence, plen))
    ensures forall k :: 10 <= k < FRAME_BYTES ==> tx[k] == 0
  {
    hide Crc, Wr16;
    for i := 0 to FRAME_BYTES
      invariant forall k :: 0 <= k < i ==> tx[k] == 0
    {
      tx[i] := 0;
    }
    ghost var h := Header(msgType, sequence, plen);
    Put16(tx, 0, Sync()[0], Sync()[1]);
    tx[2] := PROTOCOL_VERSION;
    tx[3] := msgType;
    var len, sq := Wr16(plen), Wr16(sequence);
    Put16(tx, 4, len[0], len[1]);
    Put16(tx, 6, sq[0], sq[1]);
    assert tx[0..8] == h;
    var hcrc := Crc16Modbus(tx, 0, 8);
    Put16(tx, 8, Wire(hcrc)[0], Wire(hcrc)[1]);
    assert tx[..8] == h;
  }

  /** The second half: payload and payload CRC behind a finished header. */
  method BuildPayload(tx: array<byte>, payload: seq<byte>)
    requires tx.Length == FRAME_BYTES && |payload| <= MAX_PAYLOAD
    modifies tx
    ensures tx[..10] == old(tx[..10])
    ensures tx[10..12 + |payload|] == Protect(payload)
    ensures forall k :: 12 + |payload| <= k < FRAME_BYTES ==> tx[k] == old(tx[k])
  {
    hide Crc;
    var plen := |payload|;
    CopyPayload(tx, payload);
    var pcrc := Crc16Modbus(tx, 10, plen);
    ghost var before := tx[..];
    Put16(tx, 10 + plen, Wire(pcrc)[0], Wire(pcrc)[1]);
    assert tx[..10] == before[..10];
    assert tx[10..10 + plen] == before[10..10 + plen] == payload;
    assert tx[10..12 + plen] == tx[10..10 + plen] + [tx[10 + plen], tx[11 + plen]];
  }

  /** The memcpy of the payload. */
  method CopyPayload(tx: array<byte>, payload: seq<byte>)
    requires tx.Length == FRAME_BYTES && |payload| <= MAX_PAYLOAD
    modifies tx
    ensures tx[..10] == old(tx[..10]) && tx[10..10 + |payload|] == payload && tx[10 + |payload|..] == old(tx[10 + |payload|..])
  {
    for i := 0 to |payload|
      invariant forall k :: 0 <= k < FRAME_BYTES && (k < 10 || k >= 10 + i) ==> tx[k] == old(tx[k])
      invariant forall k :: 0 <= k < i ==> tx[10 + k] == payload[k]
    {
      tx[10 + i] := payload[i];
    }
  }

  /** build_frame: the transmit buffer becomes exactly the frame of its arguments. */
  method BuildFrame(tx: array<byte>, msgType: byte, sequence: nat, payload: seq<byte>)
    requires tx.Length == FRAME_BYTES && sequence < 0x1_0000 && |payload| <= MAX_PAYLOAD
    modifies tx
    ensures tx[..] == FrameOf(msgType, sequence, payload)
  {
    hide Crc, Header, Protect;
    BuildHeader(tx, msgType, sequence, |payload|);
    BuildPayload(tx, payload);
    assert tx[12 + |payload|..] == Fill(0, MAX_PAYLOAD - |payload|);
    assert tx[..] == tx[..10] + tx[10..12 + |payload|] + tx[12 + |payload|..];
  }

  /** validate_rx. */
  method ValidateRx(rx: array<byte>) returns (v: Rx)
    requires rx.Length == FRAME_BYTES
    ensures v == Validate(rx[..])
  {
    if Rd16(rx[0..2]) != SYNC_WORD { return Rejected(BadSync); }
    if rx[2] != PROTOCOL_VERSION { return Rejected(BadVersion); }
    var hcrc := Crc16Modbus(rx, 0, 8);
    if Word(rx[8], rx[9]) != hcrc { return Rejected(BadHeaderCrc); }
    var plen := Rd16(rx[4..6]);
    if plen > MAX_PAYLOAD { return Rejected(BadLength); }
    var pcrc := Crc16Modbus(rx, 10, plen);
    if Word(rx[10 + plen], rx[11 + plen]) != pcrc { return Rejected(BadPayloadCrc); }
    return Accepted(rx[3], Rd16(rx[6..8]), rx[10..10 + plen]);
  }

  /** The parts of a built frame. */
  lemma HeaderParts(msgType: byte, sequence: nat, payload: seq<byte>)
    requires sequence < 0x1_0000 && |payload| <= MAX_PAYLOAD
    ensures var f := FrameOf(msgType, sequence, payload);
      && f[0..8] == Header(msgType, sequence, |payload|) && Word(f[8], f[9]) == Crc(f[0..8])
      && f[0..2] == Sync() && f[2] == PROTOCOL_VERSION && f[3] == msgType
      && f[4..6] == Wr16(|payload|) && f[6..8] == Wr16(sequence)
  {
    hide Crc, Word, Wr16;
    var h := Header(msgType, sequence, |payload|);
    var f := FrameOf(msgType, sequence, payload);
    WordOfWire(Crc(h));
    assert f[0..8] == h;
    assert h[0..2] == Sync() && h[4..6] == Wr16(|payload|) && h[6..8] == Wr16(sequence);
    assert f[0..2] == f[0..8][0..2] && f[4..6] == f[0..8][4..6] && f[6..8] == f[0..8][6..8];
    assert f[2] == f[0..8][2] && f[3] == f[0..8][3];
  }

  lemma PayloadParts(msgType: byte, sequence: nat, payload: seq<byte>)
    requires sequence < 0x1_0000 && |payload| <= MAX_PAYLOAD
    ensures var f := FrameOf(msgType, sequence, payload); var n := |payload|;
      f[10..10 + n] == payload && Word(f[10 + n], f[11 + n]) == Crc(payload)
  {
    hide Crc, Word, Header;
    WordOfWire(Crc(payload));
  }

  /** Round trip: the receiver recovers type, sequence and payload of every built frame. */
  lemma RoundTrip(msgType: byte, sequence: nat, payload: seq<byte>)
    requires sequence < 0x1_0000 && |payload| <= MAX_PAYLOAD
    ensures Validate(FrameOf(msgType, sequence, payload)) == Accepted(msgType, sequence, payload)
  {
    hide Crc, Word, Header, FrameOf, Rd16, Wr16;
    HeaderParts(msgType, sequence, payload);
    PayloadParts(msgType, sequence, payload);
    Rd16OfWr16(SYNC_WORD);
    Rd16OfWr16(|payload|);
    Rd16OfWr16(sequence);
  }

  /** The header test of validate_rx is a residue test on the first ten bytes, and its
      payload test one on the payload and footer. */
  lemma AcceptedResidues(f: seq<byte>)
    requires |f| == FRAME_BYTES && Validate(f).Accepted?
    ensures var plen := Rd16(f[4..6]);
      plen <= MAX_PAYLOAD && Crc(f[..10]) == 0 && Crc(f[10..12 + plen]) == 0
  {
    hide Crc, Word;
    var plen := Rd16(f[4..6]);
    Residue(f[..8], f[8], f[9]);
    Residue(f[10..10 + plen], f[10 + plen], f[11 + plen]);
    assert f[..10] == f[..8] + [f[8], f[9]];
    assert f[10..12 + plen] == f[10..10 + plen] + [f[10 + plen], f[11 + plen]];
  }

  /** Two blocks that differ only inside a two-byte window do not both have residue zero,
      also when the window reaches past either end of the block. */
  lemma BlockDetected(a: seq<byte>, b: seq<byte>, w: int)
    requires |a| == |b| >= 2 && a != b
    requires forall i :: 0 <= i < |a| && !(w <= i < w + 2) ==> a[i] == b[i]
    ensures Crc(a) != Crc(b)
  {
    hide Crc;
    var v: nat := if w < 0 then 0 else if w > |a| - 2 then |a| - 2 else w;
    WindowDetected(a, b, v);
  }

  /**
   * Error detection over the whole used part of a frame: if the received frame differs
   * from the one built, and within the header, payload and both check values only inside
   * one window of two adjacent bytes, it is rejected. The padding may hold anything.
   */
  lemma CorruptionDetected(msgType: byte, sequence: nat, payload: seq<byte>, g: seq<byte>, w: nat)
    requires sequence < 0x1_0000 && |payload| <= MAX_PAYLOAD && |g| == FRAME_BYTES
    requires var f := FrameOf(msgType, sequence, payload); var used := 12 + |payload|;
      && SameOutside(f[..used], g[..used], w, 2) && f[..used] != g[..used]
    ensures Validate(g).Rejected?
  {
    hide Crc, Header, FrameOf, Rd16, Wr16, Validate;
    var f := FrameOf(msgType, sequence, payload);
    var n := |payload|;
    RoundTrip(msgType, sequence, payload);
    AcceptedResidues(f);
    HeaderParts(msgType, sequence, payload);
    Rd16OfWr16(n);
    if Validate(g).Accepted? {
      AcceptedResidues(g);
      DifferentResidues(f, g, n, w);
    }
  }

  /** Of two frames with the same length field that differ inside a two-byte window, one
      fails a residue test. */
  lemma DifferentResidues(f: seq<byte>, g: seq<byte>, n: nat, w: nat)
    requires |f| == |g| == FRAME_BYTES && n <= MAX_PAYLOAD
    requires SameOutside(f[..12 + n], g[..12 + n], w, 2) && f[..12 + n] != g[..12 + n]
    requires Crc(f[..10]) == 0 == Crc(f[10..12 + n]) && Rd16(f[4..6]) == n
    ensures var plen := Rd16(g[4..6]);
      plen <= MAX_PAYLOAD ==> Crc(g[..10]) != 0 || Crc(g[10..12 + plen]) != 0
  {
    hide Crc, Rd16;
    forall i | 0 <= i < 12 + n && !(w <= i < w + 2) ensures f[i] == g[i] {
      assert f[..12 + n][i] == g[..12 + n][i];
    }
    if f[..10] != g[..10] {
      BlockDetected(f[..10], g[..10], w);
    } else {
      assert f[4..6] == f[..10][4..6] == g[4..6];
      assert f[..12 + n] == f[..10] + f[10..12 + n] && g[..12 + n] == g[..10] + g[10..12 + n];
      BlockDetected(f[10..12 + n], g[10..12 + n], w - 10);
    }
  }
}
