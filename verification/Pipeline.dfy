/**
 * The single SDO request slot of app/cia402 as a value: allocation of handles, begin and
 * poll, transmission, the response handlers and the response timeout.
 */
module Pipeline {
  import opened Bytes
  import opened Time

  const TWO_16 := 0x1_0000
  const OD_RESPONSE_TIMEOUT_MS := 30
  const NO_HANDLE := 0
  const DATA_MAX := 8

  // MC_IfOdResult_t
  const OD_OK := 0
  const ERR_SIZE := 6
  const ERR_CALLBACK := 7
  const ERR_NOT_READY := 8
  // MC_IfErrorClass_t
  const CLASS_OD := 8

  datatype Phase = Idle | Pending | Awaiting | Complete

  datatype Request = Request(isRead: bool, index: nat, sub: nat, typ: nat, data: seq<byte>)

  /** s_od. Fields keep their last value where the source does not overwrite them. */
  datatype Slot = Slot(phase: Phase, handle: int, req: Request, reqSeq: nat, deadline: nat, result: nat, resp: seq<byte>)

  /** The slot and the handle allocator. */
  datatype Pipe = Pipe(slot: Slot, nextHandle: int) {
    ghost predicate Valid() {
      && IsHandle(nextHandle) && (slot.handle == NO_HANDLE <==> slot.phase.Idle?)
      && (slot.handle == NO_HANDLE || IsHandle(slot.handle))
      && |slot.req.data| <= DATA_MAX && |slot.resp| <= DATA_MAX
    }
  }

  /** Handles are the nonzero values of a 16-bit signed integer. */
  predicate IsHandle(h: int) { -0x8000 <= h < 0x8000 && h != NO_HANDLE }

  /** alloc_handle's next value: incremented with 16-bit wrap-around, skipping zero. */
  function NextHandle(h: int): (n: int)
    requires IsHandle(h)
    ensures IsHandle(n) && n != h
  {
    if h == 0x7FFF then -0x8000 else if h == -1 then 1 else h + 1
  }

  /** Where a handle stands in the round of the 65535 that there are. */
  function Place(h: int): (n: nat)
    requires IsHandle(h)
    ensures n < 0xFFFF
  {
    if h > 0 then h - 1 else h + 0xFFFF
  }

  function LaterHandle(h: int, k: nat): (n: int)
    requires IsHandle(h)
    ensures IsHandle(n)
  {
    if k == 0 then h else NextHandle(LaterHandle(h, k - 1))
  }

  /** A handle comes back after exactly 65535 allocations, and no sooner. */
  lemma HandlesComeRound(h: int, k: nat)
    requires IsHandle(h)
    ensures LaterHandle(h, k) == h <==> k % 0xFFFF == 0
  {
    PlacesFollow(h, k);
    SamePlace(Place(h), k);
  }

  lemma {:induction false} PlacesFollow(h: int, k: nat)
    requires IsHandle(h)
    ensures Place(LaterHandle(h, k)) == (Place(h) + k) % 0xFFFF
  {
    if k > 0 { PlacesFollow(h, k - 1); }
  }

  lemma SamePlace(p: nat, k: nat)
    requires p < 0xFFFF
    ensures (p + k) % 0xFFFF == p <==> k % 0xFFFF == 0
  {
  }

  function EmptyPipe(): (p: Pipe)
    ensures p.Valid() && p.slot.phase == Idle
  {
    Pipe(Slot(Idle, NO_HANDLE, Request(false, 0, 0, 0, []), 0, 0, 0, []), 1)
  }

  /** cia402_od_read_begin and cia402_od_write_begin: the new state and the handle. */
  function Begin(p: Pipe, req: Request): (r: (Pipe, int))
    requires p.Valid()
    ensures r.0.Valid()
    ensures r.1 != NO_HANDLE <==> p.slot.phase.Idle? && |req.data| <= DATA_MAX
    ensures r.1 == NO_HANDLE ==> r.0 == p
    ensures r.1 != NO_HANDLE ==> r.0.slot.phase == Pending && r.0.slot.handle == r.1 && r.0.slot.req == req
  {
    if !p.slot.phase.Idle? || |req.data| > DATA_MAX then (p, NO_HANDLE)
    else (Pipe(p.slot.(phase := Pending, handle := p.nextHandle, req := req), NextHandle(p.nextHandle)), p.nextHandle)
  }

  /** A request gets the handle whose turn it is, and the next request the next one. */
  lemma BeginAllocates(p: Pipe, req: Request)
    requires p.Valid() && p.slot.phase.Idle? && |req.data| <= DATA_MAX
    ensures var r := Begin(p, req); r.1 == p.nextHandle && r.0.nextHandle == NextHandle(p.nextHandle) != r.1
  {
  }

  datatype Polled = NotYet | Done(result: nat, data: seq<byte>)

  /** cia402_od_poll. */
  function Poll(p: Pipe, h: int): (r: (Pipe, Polled))
    requires p.Valid()
    ensures r.0.Valid()
    ensures r.1.Done? <==> h != NO_HANDLE && h == p.slot.handle && p.slot.phase == Complete
    ensures r.1.NotYet? ==> r.0 == p
    ensures r.1.Done? ==> r.0.slot.phase == Idle && r.1 == Done(p.slot.result, p.slot.resp)
  {
    if h == NO_HANDLE || h != p.slot.handle || p.slot.phase != Complete then (p, NotYet)
    else (p.(slot := p.slot.(phase := Idle, handle := NO_HANDLE)), Done(p.slot.result, p.slot.resp))
  }

  /** send_od_read_req and send_od_write_req. */
  function Sent(s: Slot, sequence: nat, now: nat): Slot {
    s.(reqSeq := sequence, phase := Awaiting, deadline := Clock(now + OD_RESPONSE_TIMEOUT_MS))
  }

  /** complete_od. */
  function Completed(s: Slot, result: nat, data: seq<byte>): (t: Slot)
    ensures |data| <= DATA_MAX ==> t == s.(phase := Complete, result := result, resp := data)
  {
    s.(phase := Complete, result := result, resp := if |data| > DATA_MAX then data[..DATA_MAX] else data)
  }

  /** A received frame, sorted by message type; everything else is Other. */
  datatype Reply =
    | ReadResp(sequence: nat, payload: seq<byte>)
    | WriteResp(sequence: nat, payload: seq<byte>)
    | ErrorReport(payload: seq<byte>)
    | StatusReport(payload: seq<byte>)
    | Other

  /** The OD response carried by a reply, if any: the sequence number it refers to, its
      result and its data. */
  datatype Answer = NoAnswer | Answer(sequence: nat, result: nat, data: seq<byte>)

  /** The data of a read response: data_length bytes, capped at eight, of a field that is
      zero where the payload ends early. */
  function ReadData(payload: seq<byte>): (d: seq<byte>)
    requires |payload| >= 6
    ensures |d| == if Value(payload[5]) > DATA_MAX then DATA_MAX else Value(payload[5])
    ensures forall i :: 0 <= i < |d| ==> d[i] == if 6 + i < |payload| then payload[6 + i] else 0
  {
    var field := payload[6..] + Fill(0, DATA_MAX);
    field[..if Value(payload[5]) > DATA_MAX then DATA_MAX else Value(payload[5])]
  }

  /** The parsing part of handle_od_read_resp, handle_od_write_resp and handle_error. */
  function AnswerOf(r: Reply): (a: Answer)
    ensures a.Answer? ==> |a.data| <= DATA_MAX
  {
    match r
    case ReadResp(sq, p) => if |p| < 6 then Answer(sq, ERR_SIZE, []) else Answer(sq, Value(p[4]), ReadData(p))
    case WriteResp(sq, p) => if |p| < 4 then Answer(sq, ERR_SIZE, []) else Answer(sq, Value(p[3]), [])
    case ErrorReport(p) =>
      if |p| < 8 then NoAnswer
      else Answer(Rd16(p[2..4]), if Value(p[0]) == CLASS_OD then Value(p[1]) else ERR_CALLBACK, [])
    case StatusReport(_) => NoAnswer
    case Other => NoAnswer
  }

  /** What the motor's answers decode to: a read response as the interface lays it out gives
      its data, result and sequence number; a write response its result; an error report the
      sequence number it refers to, and its detail as the result if its class says so. */
  lemma AnswersDecode(sequence: nat, index: nat, sub: byte, typ: byte, result: byte, data: seq<byte>)
    requires sequence < TWO_16 && index < TWO_16 && |data| <= DATA_MAX
    ensures var zeros := Fill(0, DATA_MAX - |data|);
      && AnswerOf(ReadResp(sequence, Wr16(index) + [sub, typ, result, ByteOf(|data|)] + data + zeros))
         == Answer(sequence, Value(result), data)
      && AnswerOf(WriteResp(sequence, Wr16(index) + [sub, result])) == Answer(sequence, Value(result), [])
    ensures forall class_: byte, tail: seq<byte> | |tail| >= 4 ::
      AnswerOf(ErrorReport([class_, result] + Wr16(sequence) + tail))
         == Answer(sequence, if Value(class_) == 8 then Value(result) else 7, [])
  {
    hide Rd16, Wr16, ByteOf;
    DecodedRead(sequence, index, sub, typ, result, data);
    forall class_: byte, tail: seq<byte> | |tail| >= 4
      ensures AnswerOf(ErrorReport([class_, result] + Wr16(sequence) + tail))
           == Answer(sequence, if Value(class_) == CLASS_OD then Value(result) else ERR_CALLBACK, [])
    {
      var p := [class_, result] + Wr16(sequence) + tail;
      assert p[2..4] == Wr16(sequence);
      Rd16OfWr16(sequence);
    }
  }

  lemma DecodedRead(sequence: nat, index: nat, sub: byte, typ: byte, result: byte, data: seq<byte>)
    requires index < TWO_16 && |data| <= DATA_MAX
    ensures var p := Wr16(index) + [sub, typ, result, ByteOf(|data|)] + data + Fill(0, DATA_MAX - |data|);
      AnswerOf(ReadResp(sequence, p)) == Answer(sequence, Value(result), data)
  {
    hide Rd16, Wr16, ByteOf;
    var p := Wr16(index) + [sub, typ, result, ByteOf(|data|)] + data + Fill(0, DATA_MAX - |data|);
    ValueOfByteOf(|data|);
    assert p[4] == result && p[5] == ByteOf(|data|);
    forall i | 0 <= i < |data| ensures p[6 + i] == data[i] {}
    assert ReadData(p) == data;
  }

  /** Responses too short for their result are size errors, and error reports too short to
      name a request answer nothing. */
  lemma ShortAnswers(sequence: nat, payload: seq<byte>)
    ensures |payload| < 6 ==> AnswerOf(ReadResp(sequence, payload)) == Answer(sequence, 6, [])
    ensures |payload| < 4 ==> AnswerOf(WriteResp(sequence, payload)) == Answer(sequence, 6, [])
    ensures |payload| < 8 ==> AnswerOf(ErrorReport(payload)) == NoAnswer
  {
  }

  /** The three response handlers on the slot. */
  function Handle(s: Slot, a: Answer): Slot {
    if s.phase == Awaiting && a.Answer? && a.sequence == s.reqSeq then Completed(s, a.result, a.data) else s
  }

  /** The timeout at the end of cia402_tick. */
  function Expire(s: Slot, now: nat): Slot {
    if s.phase == Awaiting && TimeAfter(Clock(now), s.deadline) then Completed(s, ERR_NOT_READY, []) else s
  }

  /** The slot after one transmitted frame numbered `sequence`: sendTime is the clock when
      the request was built, endTime the clock after the reply was handled. */
  function Exchange(s: Slot, sequence: nat, sendTime: nat, endTime: nat, answer: Answer): Slot {
    Expire(Handle(if s.phase == Pending then Sent(s, sequence, sendTime) else s, answer), endTime)
  }

  lemma ExchangeKeeps(s: Slot, sequence: nat, sendTime: nat, endTime: nat, answer: Answer)
    ensures var t := Exchange(s, sequence, sendTime, endTime, answer);
      && t.handle == s.handle && t.req == s.req && (t.phase.Idle? <==> s.phase.Idle?)
      && (s.phase == Complete ==> t == s) && (s.phase == Idle ==> t == s)
      && (s.phase != Idle && s.phase != Complete ==> t.phase == Awaiting || t.phase == Complete)
  {
  }

  lemma ExchangeValid(p: Pipe, sequence: nat, sendTime: nat, endTime: nat, answer: Answer)
    requires p.Valid() && (answer.Answer? ==> |answer.data| <= DATA_MAX)
    ensures p.(slot := Exchange(p.slot, sequence, sendTime, endTime, answer)).Valid()
  {
  }

  /** The timeout, across the wrap of the clock: a request sent at sendTime and not answered
      is complete after the first later frame handled more than 30 ms (and less than 2^31 ms
      and 30 ms) after that, and not before. */
  lemma TimeoutIsExact(s: Slot, sendTime: nat, sequence: nat, buildTime: nat, endTime: nat)
    requires s.phase == Awaiting && s.deadline == Clock(sendTime + OD_RESPONSE_TIMEOUT_MS)
    requires sendTime <= endTime < sendTime + TWO_31
    ensures var t := Exchange(s, sequence, buildTime, endTime, NoAnswer);
      if endTime > sendTime + 30 then t.phase == Complete && t.result == 8 && t.resp == []
      else t == s
  {
    hide TimeAfter;
    TimeAfterIsLater(endTime, sendTime + OD_RESPONSE_TIMEOUT_MS);
  }

  /** Frame numbers below 65536 apart have different sequence numbers. */
  lemma SequenceUnique(a: nat, b: nat)
    requires a < b + TWO_16 && b < a + TWO_16
    ensures a % TWO_16 == b % TWO_16 <==> a == b
  {
  }
}
