/**
 * What the CMC puts on the wire, as the motor reads it: the composed word as a cyclic command,
 * and the request in the slot as a read or write of the entry its client means.
 */
module Wire {
  import opened Bytes
  import opened Frame
  import opened MotorEnd
  import opened Pipeline
  import opened Scaling
  import opened System
  import opened Time
  import Link = Cia402
  import Q = SetupSequencer
  import Proxy = ProxyCache
  import Seq = Sequencers

  // MC_IF_CW_*
  const CW_ENABLE := 0x0001
  const CW_QUICK_STOP := 0x0002
  const CW_NEW_SETPOINT := 0x0010
  const CW_FAULT_RESET := 0x0080
  const CW_HALT := 0x0100

  /** The command handed to the link for a composed word. */
  function CommandOf(w: Word): (c: Link.Command)
    ensures c.Valid()
  {
    Link.Command(
      (if w.enable then CW_ENABLE else 0) + (if w.notQuickStop then CW_QUICK_STOP else 0)
      + (if w.newSetpoint then CW_NEW_SETPOINT else 0) + (if w.faultReset then CW_FAULT_RESET else 0)
      + (if w.halt then CW_HALT else 0), w.velocity)
  }

  // ----- Frames -----

  /** The motor reads of a built frame its type, its payload and its number. */
  lemma FrameIsRead(msgType: byte, sequence: nat, payload: seq<byte>)
    requires sequence < TWO_16 && |payload| <= MAX_PAYLOAD
    ensures var f := FrameOf(msgType, sequence, payload);
      Hear(f) == MotorEnd.Read(msgType, payload) && NumberOf(f) == sequence
  {
    hide Crc16.Crc, Crc16.Word, Header, FrameOf, Wr16, Rd16, MotorEnd.Read;
    HeaderParts(msgType, sequence, payload);
    PayloadParts(msgType, sequence, payload);
    Rd16OfWr16(|payload|);
    Rd16OfWr16(sequence);
    SyncBytes();
    var f := FrameOf(msgType, sequence, payload);
    assert f[0] == f[0..2][0] && f[1] == f[0..2][1];
  }

  lemma SyncBytes()
    ensures Sync() == [0x5A, 0xA5]
  {
    var s := Sync();
    Rd16OfWr16(SYNC_WORD);
    assert Rd16([0x5A, 0xA5]) == SYNC_WORD;
    Rd16Injective(s, [0x5A, 0xA5]);
  }

  lemma SignedOf(v: int)
    requires -TWO_31 <= v < TWO_31
    ensures Signed(v % TWO_32, TWO_32) == v
  {
    if v < 0 { assert v % TWO_32 == v + TWO_32; }
  }

  lemma CommandBits(w: Word)
    ensures var n := CommandOf(w).controlword;
      && Has(n, 0x0001) == w.enable && Has(n, 0x0002) == w.notQuickStop && Has(n, 0x0010) == w.newSetpoint
      && Has(n, 0x0080) == w.faultReset && Has(n, 0x0100) == w.halt
  {
  }

  /** The motor reads of a cyclic command's payload exactly the word composed. */
  lemma CommandIsRead(w: Word, counter: nat)
    requires counter < TWO_32
    ensures MotorEnd.Read(0x01, Link.CyclicPayload(CommandOf(w), counter)) ==
      Command(w.enable, w.notQuickStop, w.newSetpoint, w.faultReset, w.halt, w.velocity, counter)
  {
    hide Wr16, Wr32, Rd16, Rd32, CommandOf, Has;
    var c := CommandOf(w);
    var p := Link.CyclicPayload(c, counter);
    assert p[0..2] == Wr16(c.controlword) && p[2..6] == Wr32(c.velocity % TWO_32) && p[6..10] == Wr32(counter);
    Rd16OfWr16(c.controlword);
    Rd32OfWr32(c.velocity % TWO_32);
    Rd32OfWr32(counter);
    CommandBits(w);
    CommandVelocity(w);
    SignedOf(w.velocity);
  }

  lemma CommandVelocity(w: Word)
    ensures CommandOf(w).velocity == w.velocity
  {
  }

  /** A request as it should be heard. */
  function Spoken(r: Request): Heard {
    if r.isRead then ReadRequest(r.index, r.sub, r.typ) else WriteRequest(r.index, r.sub, r.typ, r.data)
  }

  lemma ReadIsRead(r: Request)
    requires Link.SmallRequest(r) && r.isRead
    ensures MotorEnd.Read(0x10, Link.ReadReqPayload(r)) == Spoken(r)
  {
    hide Wr16, Rd16, ByteOf;
    var p := Link.ReadReqPayload(r);
    assert p[0..2] == Wr16(r.index);
    Rd16OfWr16(r.index);
    ValueOfByteOf(r.sub);
    ValueOfByteOf(r.typ);
  }

  lemma WriteIsRead(r: Request, field: seq<byte>)
    requires Link.SmallRequest(r) && !r.isRead && |r.data| <= DATA_MAX && |field| == DATA_MAX && r.data <= field
    ensures MotorEnd.Read(0x12, Link.WriteReqPayload(r, field)) == Spoken(r)
  {
    hide Wr16, Rd16, ByteOf;
    var p := Link.WriteReqPayload(r, field);
    assert p[0..2] == Wr16(r.index);
    Rd16OfWr16(r.index);
    ValueOfByteOf(r.sub);
    ValueOfByteOf(r.typ);
    ValueOfByteOf(|r.data|);
    assert p[6..6 + |r.data|] == field[..|r.data|];
  }

  /** What a transmitting tick makes the motor hear: the request in the slot if it waits to be
      sent, and otherwise the last word composed. */
  lemma FrameIsHeard(l: Link.Link, field: seq<byte>, w: Word)
    requires l.Valid() && Link.SmallRequest(l.pipe.slot.req) && |field| == DATA_MAX && l.cmd == CommandOf(w)
    requires l.pipe.slot.phase == Pending && !l.pipe.slot.req.isRead ==> l.pipe.slot.req.data <= field
    ensures var f := Link.FrameSent(l, field);
      && NumberOf(f) == (l.sequence + 1) % TWO_16
      && Hear(f) ==
        if l.pipe.slot.phase == Pending then Spoken(l.pipe.slot.req)
        else Command(w.enable, w.notQuickStop, w.newSetpoint, w.faultReset, w.halt, w.velocity, (l.counter + 1) % TWO_32)
  {
    hide FrameOf, Hear, MotorEnd.Read, NumberOf, Link.CyclicPayload, Link.ReadReqPayload, Link.WriteReqPayload, CommandOf;
    var sq, r, c := (l.sequence + 1) % TWO_16, l.pipe.slot.req, (l.counter + 1) % TWO_32;
    if l.pipe.slot.phase != Pending {
      FrameIsRead(Link.MSG_CYCLIC_CMD, sq, Link.CyclicPayload(l.cmd, c));
      CommandIsRead(w, c);
    } else if r.isRead {
      FrameIsRead(Link.MSG_OD_READ_REQ, sq, Link.ReadReqPayload(r));
      ReadIsRead(r);
    } else {
      FrameIsRead(Link.MSG_OD_WRITE_REQ, sq, Link.WriteReqPayload(r, field));
      WriteIsRead(r, field);
    }
  }

  /** What the next frame of the system makes the motor hear. */
  function Shown(s: Sys, counter: nat): Heard {
    if s.pipe.slot.phase == Pending then Spoken(s.pipe.slot.req)
    else
      var w := s.word;
      Command(w.enable, w.notQuickStop, w.newSetpoint, w.faultReset, w.halt, w.velocity, (counter + 1) % TWO_32)
  }

  /** The cyclic frame of a composed word. */
  function CommandFrame(w: Word, sequence: nat, counter: nat): (f: seq<byte>)
    requires sequence < TWO_16 && counter < TWO_32
    ensures |f| == FRAME_BYTES
  {
    FrameOf(Link.MSG_CYCLIC_CMD, sequence, Link.CyclicPayload(CommandOf(w), counter))
  }

  lemma CommandFrameIsHeard(w: Word, sequence: nat, counter: nat)
    requires sequence < TWO_16 && counter < TWO_32
    ensures Hear(CommandFrame(w, sequence, counter)) ==
      Command(w.enable, w.notQuickStop, w.newSetpoint, w.faultReset, w.halt, w.velocity, counter)
  {
    hide FrameOf, Hear, MotorEnd.Read, NumberOf, Link.CyclicPayload, CommandOf;
    FrameIsRead(Link.MSG_CYCLIC_CMD, sequence, Link.CyclicPayload(CommandOf(w), counter));
    CommandIsRead(w, counter);
  }

  // ----- What the motor sends -----

  /** Of 64 received bytes exactly the sound frames are accepted, with their own type, number
      and payload. */
  lemma SoundIsAccepted(f: seq<byte>)
    requires |f| == 64
    ensures Validate(f).Accepted? <==> Sound(f)
    ensures Sound(f) ==> Validate(f) == Accepted(f[3], NumberOf(f), f[10..10 + Rd16(f[4..6])])
  {
    hide Crc16.Crc, Crc16.Word, Rd16;
    assert f[0..2] == [f[0], f[1]];
    SyncBytes();
    Rd16OfWr16(SYNC_WORD);
    Rd16Injective(f[0..2], [0x5A, 0xA5]);
  }

  /** And a sound frame is taken for what its type says. */
  lemma TypesAreTaken(f: seq<byte>)
    requires |f| == 64
    ensures var reply := Link.Sort(Validate(f));
      if !Sound(f) then reply == Other
      else
        var p := f[10..10 + Rd16(f[4..6])];
        reply == if f[3] == 0x02 then StatusReport(p) else if f[3] == 0x11 then ReadResp(NumberOf(f), p)
                 else if f[3] == 0x13 then WriteResp(NumberOf(f), p) else if f[3] == 0x7F then ErrorReport(p) else Other
  {
    hide Validate, Sound, Rd16;
    SoundIsAccepted(f);
  }

  /** A status is kept as it was sent: its header of 18 bytes and the mapped bytes that byte 7
      announces; what is too short for a header changes nothing. */
  lemma StatusIsTaken(c: Link.Cyclic, header: seq<byte>, blob: seq<byte>, rest: seq<byte>)
    requires |header| == 18 && |blob| <= 34 && Value(header[7]) == |blob|
    ensures Link.TakeStatus(c, header + blob + rest) == Link.Cyclic(true, true, header, blob)
    ensures forall p: seq<byte> | |p| < 18 :: Link.TakeStatus(c, p) == c
  {
    var p := header + blob + rest;
    assert p[..18] == header && p[18..18 + |blob|] == blob;
  }

  // ----- What each client's requests mean to the motor -----

  function SetupEntry(k: nat): Entry
    requires 1 <= k <= Q.LAST_STEP
  {
    [ModesOfOperation, TargetPosition, TargetPositionTimeMs, TargetTorque, ProfileVelocity, ProfileAcceleration, ProfileDeceleration][k - 1]
  }

  /** The setup sequencer's write of parameter k sets the motor's parameter to its value. */
  lemma SetupWriteSets(k: nat, desired: Setup)
    requires 1 <= k <= Q.LAST_STEP && Q.InRange(k, desired[k])
    ensures Sets(Spoken(Q.WriteOf(k, desired)), SetupEntry(k), Whole(desired[k]))
  {
    hide Wr32, Rd32, ByteOf;
    if k == MODE {
      ValueOfByteOf(desired[k] % 256);
    } else {
      Rd32OfWr32(desired[k] % TWO_32);
      if k == POSITION || k == CURRENT { SignedOf(desired[k]); }
    }
  }

  function CacheEntry(k: nat): Entry
    requires k < Proxy.SLOT_COUNT
  {
    [VelAccelUp, VelAccelDn, VelAccelJerk, MaxVelocityRadS, MaxAccelRadS2, PosLimitLoRad, PosLimitHiRad][k]
  }

  /** The proxy writer sets the entry of its slot, the resync reader asks for it. */
  lemma ProxyRequestsMean(k: nat, v: f32)
    requires k < Proxy.SLOT_COUNT
    ensures Sets(Spoken(Proxy.WriteOf(k, v)), CacheEntry(k), Float(v)) && Asks(Spoken(Proxy.ReadOf(k)), CacheEntry(k))
  {
    hide Join32, Split32;
    JoinOfSplit(v);
  }

  /** Load factor, motor save and homing. */
  lemma OtherRequestsMean(v: f32)
    ensures Sets(Spoken(Seq.LoadWrite(v)), VelLoadFactor, Float(v))
    ensures Sets(Spoken(Seq.SaveWrite()), StoreSaveCommand, Whole(0x7376))
    ensures Sets(Spoken(Seq.HomeWrite()), HomeCommand, Whole(1))
    ensures Asks(Spoken(Seq.HomeRead()), HomeStatus) && Asks(Spoken(Seq.FaultRead()), FaultFlags)
  {
    hide Join32, Split32, Wr16, Rd16;
    JoinOfSplit(v);
    Rd16OfWr16(0x7376);
  }
}
