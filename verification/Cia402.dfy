/**
 * app/cia402: the cyclic exchange with the motor controller over SPI. Each transmitting
 * tick sends one frame, an OD request if one is pending and a cyclic command otherwise,
 * and handles the frame clocked in meanwhile.
 */
module Cia402 {
  import opened Bytes
  import opened Frame
  import opened Pipeline
  import opened Time

  const CYCLE_PERIOD_MS := 1
  const STATUS_HEADER_SIZE := 18
  const BLOB_MAX := 34

  // MC_IfMessageType_t
  const MSG_CYCLIC_CMD: byte := 0x01
  const MSG_CYCLIC_STATUS: byte := 0x02
  const MSG_OD_READ_REQ: byte := 0x10
  const MSG_OD_READ_RESP: byte := 0x11
  const MSG_OD_WRITE_REQ: byte := 0x12
  const MSG_OD_WRITE_RESP: byte := 0x13
  const MSG_ERROR: byte := 0x7F

  datatype Command = Command(controlword: nat, velocity: int) {
    ghost predicate Valid() { controlword < TWO_16 && -TWO_31 <= velocity < TWO_31 }
  }

  /** The last cyclic status: s_status_fresh, s_status_ever, header and blob. */
  datatype Cyclic = Cyclic(isFresh: bool, ever: bool, header: seq<byte>, blob: seq<byte>) {
    ghost predicate Valid() { (ever ==> |header| == STATUS_HEADER_SIZE) && |blob| <= BLOB_MAX && (isFresh ==> ever) }
  }

  datatype Link = Link(pipe: Pipe, sequence: nat, lastTick: nat, counter: nat, cmd: Command, status: Cyclic) {
    ghost predicate Valid() {
      pipe.Valid() && sequence < TWO_16 && lastTick < TWO_32 && counter < TWO_32 && cmd.Valid() && status.Valid()
    }
  }

  /** What a tick meets: the clock when it starts, when a request is built and when it ends,
      whether the SPI transfer worked, and the 64 bytes clocked in. */
  datatype TickIn = TickIn(now: nat, sendTime: nat, endTime: nat, spiOk: bool, wire: seq<byte>)

  /** A received frame by message type. */
  function Sort(rx: Rx): Reply {
    match rx
    case Rejected(_) => Other
    case Accepted(t, sq, p) =>
      if t == MSG_CYCLIC_STATUS then StatusReport(p)
      else if t == MSG_OD_READ_RESP then ReadResp(sq, p)
      else if t == MSG_OD_WRITE_RESP then WriteResp(sq, p)
      else if t == MSG_ERROR then ErrorReport(p)
      else Other
  }

  /** handle_cyclic_status. */
  function TakeStatus(c: Cyclic, p: seq<byte>): Cyclic {
    if |p| < STATUS_HEADER_SIZE then c
    else
      var n := Value(p[7]);
      var m := if n > BLOB_MAX then BLOB_MAX else n;
      var k := if STATUS_HEADER_SIZE + m > |p| then |p| - STATUS_HEADER_SIZE else m;
      Cyclic(true, true, p[..STATUS_HEADER_SIZE], p[STATUS_HEADER_SIZE..STATUS_HEADER_SIZE + k])
  }

  /** cia402_tick transmits: at least one millisecond passed since the last frame. */
  predicate Transmits(l: Link, now: nat) { (Clock(now) - l.lastTick) % TWO_32 >= CYCLE_PERIOD_MS }

  /** cia402_tick. */
  function Ticked(l: Link, t: TickIn): (m: Link)
    requires l.Valid() && |t.wire| == FRAME_BYTES
    ensures m.Valid()
  {
    if !Transmits(l, t.now) then l
    else
      var sq := (l.sequence + 1) % TWO_16;
      var reply := if t.spiOk then Sort(Validate(t.wire)) else Other;
      ExchangeValid(l.pipe, sq, t.sendTime, t.endTime, AnswerOf(reply));
      Link(l.pipe.(slot := Exchange(l.pipe.slot, sq, t.sendTime, t.endTime, AnswerOf(reply))),
           sq, Clock(t.now),
           if l.pipe.slot.phase == Pending then l.counter else (l.counter + 1) % TWO_32,
           l.cmd,
           if reply.StatusReport? then TakeStatus(l.status, reply.payload) else l.status)
  }

  // Payloads of the frames sent.

  function ReadReqPayload(r: Request): (p: seq<byte>)
    requires r.index < TWO_16 && r.sub < 256 && r.typ < 256
    ensures |p| == 4
  {
    Wr16(r.index) + [ByteOf(r.sub), ByteOf(r.typ)]
  }

  /** field is the whole 8-byte data field, of which the first |r.data| bytes count. */
  function WriteReqPayload(r: Request, field: seq<byte>): (p: seq<byte>)
    requires r.index < TWO_16 && r.sub < 256 && r.typ < 256 && |r.data| <= DATA_MAX && |field| == DATA_MAX
    ensures |p| == 14
  {
    Wr16(r.index) + [ByteOf(r.sub), ByteOf(r.typ), ByteOf(|r.data|), 0] + field
  }

  function CyclicPayload(c: Command, counter: nat): (p: seq<byte>)
    requires c.Valid() && counter < TWO_32
    ensures |p| == 10
  {
    Wr16(c.controlword) + Wr32(c.velocity % TWO_32) + Wr32(counter)
  }

  ghost predicate SmallRequest(r: Request) { r.index < TWO_16 && r.sub < 256 && r.typ < 256 }

  /** The frame a transmitting tick sends in state l. */
  ghost function FrameSent(l: Link, field: seq<byte>): seq<byte>
    requires l.Valid() && SmallRequest(l.pipe.slot.req) && |field| == DATA_MAX
  {
    var sq := (l.sequence + 1) % TWO_16;
    var r := l.pipe.slot.req;
    if l.pipe.slot.phase == Pending then
      if r.isRead then FrameOf(MSG_OD_READ_REQ, sq, ReadReqPayload(r))
      else FrameOf(MSG_OD_WRITE_REQ, sq, WriteReqPayload(r, field))
    else FrameOf(MSG_CYCLIC_CMD, sq, CyclicPayload(l.cmd, (l.counter + 1) % TWO_32))
  }

  class Cia402 {
    const tx: array<byte>
    const rx: array<byte>
    // s_od.tx_data: a request shorter than the field leaves older bytes behind its own.
    const txData: array<byte>
    var pipe: Pipe
    var sequence: nat
    var lastTickMs: nat
    var commandCounter: nat
    var cmd: Command
    var status: Cyclic

    ghost function State(): Link
      reads this
    {
      Link(pipe, sequence, lastTickMs, commandCounter, cmd, status)
    }

    ghost predicate Valid()
      reads this, txData
    {
      && State().Valid() && SmallRequest(pipe.slot.req)
      && tx.Length == FRAME_BYTES && rx.Length == FRAME_BYTES && txData.Length == DATA_MAX
      && tx != rx && tx != txData && rx != txData
      && (!pipe.slot.req.isRead ==> pipe.slot.req.data <= txData[..])
    }

    /** cia402_init. */
    constructor (now: nat)
      ensures Valid() && fresh(tx) && fresh(rx) && fresh(txData)
      ensures State() == Link(EmptyPipe(), 0, Clock(now), 0, Command(0, 0), Cyclic(false, false, [], []))
    {
      tx := new byte[FRAME_BYTES];
      rx := new byte[FRAME_BYTES];
      txData := new byte[DATA_MAX];
      pipe, sequence, lastTickMs, commandCounter := EmptyPipe(), 0, Clock(now), 0;
      cmd, status := Command(0, 0), Cyclic(false, false, [], []);
    }

    /** cia402_od_read_begin. */
    method OdReadBegin(index: nat, sub: nat, typ: nat) returns (h: int)
      requires Valid() && index < TWO_16 && sub < 256 && typ < 256
      modifies `pipe
      ensures Valid() && (pipe, h) == Begin(old(pipe), Request(true, index, sub, typ, []))
    {
      if pipe.slot.phase != Idle { return NO_HANDLE; }
      h := pipe.nextHandle;
      pipe := Pipe(pipe.slot.(handle := h, req := Request(true, index, sub, typ, []), phase := Pending), NextHandle(h));
    }

    /** cia402_od_write_begin. */
    method OdWriteBegin(index: nat, sub: nat, typ: nat, data: seq<byte>) returns (h: int)
      requires Valid() && index < TWO_16 && sub < 256 && typ < 256
      modifies `pipe, txData
      ensures Valid() && (pipe, h) == Begin(old(pipe), Request(false, index, sub, typ, data))
    {
      if pipe.slot.phase != Idle { return NO_HANDLE; }
      if |data| > DATA_MAX { return NO_HANDLE; }
      h := pipe.nextHandle;
      for i := 0 to |data|
        modifies txData
        invariant txData[..i] == data[..i]
      {
        txData[i] := data[i];
      }
      pipe := Pipe(pipe.slot.(handle := h, req := Request(false, index, sub, typ, data), phase := Pending), NextHandle(h));
      assert data[..|data|] == data;
    }

    /** cia402_od_poll, with room for all eight data bytes. */
    method OdPoll(h: int) returns (r: Polled)
      requires Valid()
      modifies `pipe
      ensures Valid() && (pipe, r) == Poll(old(pipe), h)
    {
      if h == NO_HANDLE || h != pipe.slot.handle { return NotYet; }
      if pipe.slot.phase != Complete { return NotYet; }
      r := Done(pipe.slot.result, pipe.slot.resp);
      pipe := pipe.(slot := pipe.slot.(phase := Idle, handle := NO_HANDLE));
    }

    /** cia402_set_cyclic_cmd. */
    method SetCyclicCmd(c: Command)
      requires Valid() && c.Valid()
      modifies `cmd
      ensures Valid() && cmd == c
    {
      cmd := c;
    }

    /** cia402_take_cyclic_status. */
    method TakeCyclicStatus() returns (taken: bool)
      requires Valid()
      modifies `status
      ensures Valid() && taken == old(status).isFresh && status == old(status).(isFresh := false)
    {
      taken := status.isFresh;
      status := status.(isFresh := false);
    }

    /** Composing the outgoing frame: the OD request if one is pending. */
    method Compose(sq: nat, sendTime: nat)
      requires Valid() && sq < TWO_16
      modifies `pipe, `commandCounter, tx
      ensures Valid()
      ensures old(pipe).slot.phase == Pending ==>
        pipe == old(pipe).(slot := Sent(old(pipe).slot, sq, sendTime)) && commandCounter == old(commandCounter)
      ensures old(pipe).slot.phase != Pending ==>
        pipe == old(pipe) && commandCounter == (old(commandCounter) + 1) % TWO_32
      ensures sq == (sequence + 1) % TWO_16 ==> tx[..] == FrameSent(old(State()), txData[..])
    {
      hide FrameOf, Wr16, Wr32;
      var r := pipe.slot.req;
      if pipe.slot.phase == Pending {
        if r.isRead {
          BuildFrame(tx, MSG_OD_READ_REQ, sq, ReadReqPayload(r));
        } else {
          BuildFrame(tx, MSG_OD_WRITE_REQ, sq, WriteReqPayload(r, txData[..]));
        }
        pipe := pipe.(slot := Sent(pipe.slot, sq, sendTime));
      } else {
        commandCounter := (commandCounter + 1) % TWO_32;
        BuildFrame(tx, MSG_CYCLIC_CMD, sq, CyclicPayload(cmd, commandCounter));
      }
    }

    /** The response half of a tick. */
    method HandleReply(reply: Reply)
      requires Valid()
      modifies `pipe, `status
      ensures Valid()
      ensures pipe == old(pipe).(slot := Handle(old(pipe).slot, AnswerOf(reply)))
      ensures status == if reply.StatusReport? then TakeStatus(old(status), reply.payload) else old(status)
    {
      if reply.StatusReport? {
        status := TakeStatus(status, reply.payload);
      } else {
        var a := AnswerOf(reply);
        if a.Answer? && pipe.slot.phase == Awaiting && a.sequence == pipe.slot.reqSeq {
          pipe := pipe.(slot := Completed(pipe.slot, a.result, a.data));
        }
      }
    }

    /** The SPI transfer: the receive buffer takes the bytes clocked in. */
    method Transfer(wire: seq<byte>)
      requires Valid() && |wire| == FRAME_BYTES
      modifies rx
      ensures Valid() && rx[..] == wire
    {
      for i := 0 to FRAME_BYTES
        modifies rx
        invariant rx[..i] == wire[..i]
      {
        rx[i] := wire[i];
      }
      assert rx[..] == wire;
    }

    /** Transfer, validation and dispatch of one received frame. */
    method Receive(spiOk: bool, wire: seq<byte>)
      requires Valid() && |wire| == FRAME_BYTES
      modifies `pipe, `status, rx
      ensures Valid()
      ensures var reply := if spiOk then Sort(Validate(wire)) else Other;
        && pipe == old(pipe).(slot := Handle(old(pipe).slot, AnswerOf(reply)))
        && status == if reply.StatusReport? then TakeStatus(old(status), reply.payload) else old(status)
    {
      hide Sort, AnswerOf, Validate, Handle, TakeStatus;
      var reply := Other;
      if spiOk {
        Transfer(wire);
        var v := ValidateRx(rx);
        reply := Sort(v);
      }
      HandleReply(reply);
    }

    /** cia402_tick. */
    method Tick(t: TickIn)
      requires Valid() && |t.wire| == FRAME_BYTES
      modifies this, tx, rx
      ensures Valid() && State() == Ticked(old(State()), t)
      ensures Transmits(old(State()), t.now) ==> tx[..] == FrameSent(old(State()), old(txData[..]))
    {
      hide FrameOf, FrameSent, Sort, AnswerOf, Validate, Handle, TakeStatus;
      var gap := (Clock(t.now) - lastTickMs) % TWO_32;
      if gap < CYCLE_PERIOD_MS { return; }
      lastTickMs := Clock(t.now);
      SameFrame(old(State()), State(), txData[..]);
      var sq := (sequence + 1) % TWO_16;
      Compose(sq, t.sendTime);
      sequence := sq;
      Receive(t.spiOk, t.wire);
      if pipe.slot.phase == Awaiting && TimeAfter(Clock(t.endTime), pipe.slot.deadline) {
        pipe := pipe.(slot := Completed(pipe.slot, ERR_NOT_READY, []));
      }
    }
  }

  lemma SameFrame(l: Link, m: Link, field: seq<byte>)
    requires l.Valid() && m.Valid() && SmallRequest(l.pipe.slot.req) && |field| == DATA_MAX
    requires m == l.(lastTick := m.lastTick)
    ensures FrameSent(l, field) == FrameSent(m, field)
  {
    hide FrameOf, CyclicPayload, ReadReqPayload, WriteReqPayload;
  }
}
