/**
 * app/od on its pending-request record and its telemetry subscription: each handler is proved
 * to do to the slot, the record, the batch and the network what the specifications of the
 * bridge and of the telemetry say.
 */
module Od {
  import opened Bytes
  import opened Bridge
  import opened Pipeline
  import opened Time
  import Link = Cia402
  import PC = UdpClient
  import Tlm = Telemetry

  // udp_msg_type_t and udp_err_class_t
  const MSG_OD_READ_REQ: byte := 0x01
  const MSG_OD_WRITE_REQ: byte := 0x03
  const MSG_TLM_SUBSCRIBE: byte := 0x10
  const MSG_TLM_UNSUBSCRIBE: byte := 0x11
  const ERR_BAD_MAGIC := 1
  const ERR_BAD_VERSION := 2
  const ERR_UNKNOWN_MSG := 6

  /** A datagram received, with what the local dictionary would answer. */
  datatype Packet = Packet(peer: Peer, bytes: seq<byte>, local: LocalResult)

  /** What a datagram is: too short to answer, refused with an error, or for a handler. */
  datatype Message =
    | Dropped
    | Refused(peer: Peer, sequence: nat, class_: nat, detail: nat)
    | Asks(peer: Peer, sequence: nat, body: Incoming, local: LocalResult)
    | Subscribes(peer: Peer, sequence: nat, payload: seq<byte>)
    | Unsubscribes

  /** The header tests of service_access_socket. */
  function Meaning(p: Packet): Message {
    var b := p.bytes;
    if |b| < UDP_HEADER_BYTES then Dropped
    else
      var sequence, payload := Rd16(b[4..6]), b[UDP_HEADER_BYTES..];
      if Rd16(b[0..2]) != UDP_MAGIC then Refused(p.peer, sequence, ERR_BAD_MAGIC, 0)
      else if b[2] != PROTOCOL_VERSION then Refused(p.peer, sequence, ERR_BAD_VERSION, Value(b[2]))
      else if Rd16(b[6..8]) != |payload| then Refused(p.peer, sequence, ERR_BAD_LENGTH, 0)
      else if b[3] == MSG_OD_READ_REQ then Asks(p.peer, sequence, ReadReq(payload), p.local)
      else if b[3] == MSG_OD_WRITE_REQ then Asks(p.peer, sequence, WriteReq(payload), p.local)
      else if b[3] == MSG_TLM_SUBSCRIBE then Subscribes(p.peer, sequence, payload)
      else if b[3] == MSG_TLM_UNSUBSCRIBE then Unsubscribes
      else Refused(p.peer, sequence, ERR_UNKNOWN_MSG, Value(b[3]))
  }

  /** Every datagram built by the PC's rules reaches the handler of its type with its sequence
      number and payload; another type is refused with that type. */
  lemma DatagramsAreUnderstood(peer: Peer, typ: byte, sequence: nat, payload: seq<byte>, local: LocalResult)
    requires sequence < TWO_16 && |payload| < TWO_16
    ensures var m := Meaning(Packet(peer, PC.Wrapped(typ, sequence, payload), local));
      && (typ == 0x01 ==> m == Asks(peer, sequence, ReadReq(payload), local))
      && (typ == 0x03 ==> m == Asks(peer, sequence, WriteReq(payload), local))
      && (typ == 0x10 ==> m == Subscribes(peer, sequence, payload))
      && (typ == 0x11 ==> m == Unsubscribes)
      && (typ !in {0x01, 0x03, 0x10, 0x11} ==> m == Refused(peer, sequence, 6, Value(typ)))
  {
    hide Rd16, Wr16;
    var b := PC.Wrapped(typ, sequence, payload);
    MagicBytes();
    assert b[0..2] == [0x55, 0x4D] && b[4..6] == Wr16(sequence) && b[6..8] == Wr16(|payload|);
    assert b[3] == typ && b[UDP_HEADER_BYTES..] == payload;
    Rd16OfWr16(sequence);
    Rd16OfWr16(|payload|);
  }

  /** And nothing else reaches a handler: whatever is neither dropped nor refused was built by
      those rules. A datagram of eight bytes or more with another magic, version or length is
      refused with the class of the first test it fails. */
  lemma OnlyThoseAreUnderstood(p: Packet)
    ensures Meaning(p).Dropped? <==> |p.bytes| < 8
    ensures |p.bytes| >= 8 ==>
      var b, sequence := p.bytes, Rd16(p.bytes[4..6]);
      if b[..2] != [0x55, 0x4D] then Meaning(p) == Refused(p.peer, sequence, 1, 0)
      else if b[2] != 4 then Meaning(p) == Refused(p.peer, sequence, 2, Value(b[2]))
      else if Rd16(b[6..8]) != |b| - 8 then Meaning(p) == Refused(p.peer, sequence, 5, 0)
      else |b[8..]| < TWO_16 && sequence < TWO_16 && b == PC.Wrapped(b[3], sequence, b[8..])
  {
    hide Rd16, Wr16;
    var b := p.bytes;
    if |b| >= 8 {
      MagicBytes();
      Rd16Injective(b[0..2], [0x55, 0x4D]);
      Wr16OfRd16(b[4..6]);
      Wr16OfRd16(b[6..8]);
      if b[..2] == [0x55, 0x4D] && b[2] == 4 && Rd16(b[6..8]) == |b| - 8 {
        assert b == [b[0], b[1], b[2], b[3]] + b[4..6] + b[6..8] + b[8..];
        assert b[..2][0] == 0x55 && b[..2][1] == 0x4D;
      }
    }
  }

  lemma Wr16OfRd16(s: seq<byte>)
    requires |s| == 2
    ensures Rd16(s) < TWO_16 && Wr16(Rd16(s)) == s
  {
    hide Value;
    ValueRange(s[0]);
    ValueRange(s[1]);
    Rd16OfWr16(Rd16(s));
    Rd16Injective(Wr16(Rd16(s)), s);
  }

  // ----- Requests and responses -----

  function Routed(req: Request): Decoded { if 0x3000 <= req.index <= 0x30FF then Local(req) else ForMotor(req) }

  /** A read request built by the PC's rules asks for its own entry, here or at the motor. */
  lemma ReadIsUnderstood(peer: Peer, sequence: nat, index: nat, sub: byte, typ: byte, local: LocalResult)
    requires sequence < TWO_16 && index < TWO_16
    ensures var m := Meaning(Packet(peer, PC.ReadRequest(sequence, index, sub, typ), local));
      && m.Asks? && (m.peer, m.sequence, m.local) == (peer, sequence, local)
      && DecodeReq(m.body) == Routed(Request(true, index, Value(sub), Value(typ), []))
  {
    hide Rd16, Wr16, Meaning, PC.Wrapped;
    var p := Wr16(index) + [sub, typ];
    DatagramsAreUnderstood(peer, 0x01, sequence, p, local);
    assert p[0..2] == Wr16(index);
    Rd16OfWr16(index);
  }

  /** A write request carries its own data to its own entry if they have the size of its type,
      and is refused with a size error if not. */
  lemma WriteIsUnderstood(peer: Peer, sequence: nat, index: nat, sub: byte, typ: byte, data: seq<byte>, local: LocalResult)
    requires sequence < TWO_16 && index < TWO_16 && |data| < 256
    ensures var m := Meaning(Packet(peer, PC.WriteRequest(sequence, index, sub, typ, data), local));
      && m.Asks? && (m.peer, m.sequence, m.local) == (peer, sequence, local)
      && DecodeReq(m.body) ==
        if PC.HasSize(typ, |data|) then Routed(Request(false, index, Value(sub), Value(typ), data)) else Malformed(8, 6)
  {
    hide Rd16, Wr16, Meaning, PC.Wrapped, ByteOf;
    var p := Wr16(index) + [sub, typ, ByteOf(|data|)] + data;
    DatagramsAreUnderstood(peer, 0x03, sequence, p, local);
    assert p[0..2] == Wr16(index) && p[5..] == data;
    Rd16OfWr16(index);
    ValueOfByteOf(|data|);
    SizeOfType(typ, |data|);
  }

  lemma SizeOfType(typ: byte, n: nat)
    ensures PC.HasSize(typ, n) <==> n == TypeSize(Value(typ))
  {
  }

  /** A payload of any other length is refused as such. */
  lemma WrongLengths(p: seq<byte>)
    ensures |p| != 4 ==> DecodeReq(ReadReq(p)) == Malformed(5, 0)
    ensures |p| < 5 || |p| != 5 + Value(p[4]) ==> DecodeReq(WriteReq(p)) == Malformed(5, 0)
  {
  }

  /** What service_telemetry finds at the link. */
  function Arrived(c: Link.Cyclic): Tlm.Input {
    if c.isFresh then Tlm.Fresh(Tlm.Status(c.header, c.blob)) else Tlm.Quiet
  }

  /** A status arrives if it has not been taken, as it was received, and only once. */
  lemma StatusArrivesOnce(c: Link.Cyclic)
    ensures c.isFresh ==> Arrived(c) == Tlm.Fresh(Tlm.Status(c.header, c.blob))
    ensures Arrived(c.(isFresh := false)) == Tlm.Quiet
  {
  }

  /** Neither a subscription nor an unsubscription takes effect. */
  predicate SameSubscriber(arrivals: seq<Packet>) {
    arrivals == [] ||
    match Meaning(arrivals[0])
    case Subscribes(_, _, payload) => |payload| != 5
    case Unsubscribes => false
    case _ => true
  }

  /** The datagram starts a subscription. */
  predicate Begins(p: Packet) { Meaning(p).Subscribes? && |Meaning(p).payload| == 5 }

  /** What is sent at once on a message that is no request: an error, if it is owed one. */
  function ReplyTo(m: Message): seq<Datagram> {
    match m
    case Refused(peer, sequence, class_, detail) => [ErrorResponse(peer, sequence, class_, detail)]
    case Subscribes(peer, sequence, payload) => if |payload| != 5 then [ErrorResponse(peer, sequence, ERR_BAD_LENGTH, 0)] else []
    case _ => []
  }

  class Od {
    const cia: Link.Cia402
    const sub: Tlm.Subscription
    // s_pending
    var pending: Queue
    // s_sub.peer
    var subscriber: Peer

    ghost predicate Valid()
      reads this, cia, cia.txData, sub, sub.sampleBuf
    {
      && cia.Valid() && cia.pipe.Valid() && cia.status.Valid() && sub.Valid()
      && sub.sampleBuf != cia.txData && sub.sampleBuf != cia.tx && sub.sampleBuf != cia.rx
    }

    /** od_init. */
    constructor (cia: Link.Cia402)
      requires cia.Valid()
      ensures Valid() && this.cia == cia && !pending.inFlight && fresh(sub) && fresh(sub.sampleBuf) && !sub.active
    {
      this.cia := cia;
      sub := new Tlm.Subscription();
      pending := Queue(false, NO_HANDLE, Ticket(Peer([], 0), 0, Request(false, 0, 0, 0, [])));
      subscriber := Peer([], 0);
    }

    /** is_retransmit_of_in_flight. */
    method IsRetransmitOfInFlight(peer: Peer, sequence: nat) returns (repeats: bool)
      ensures repeats == Retransmit(pending, peer, sequence)
    {
      if !pending.inFlight { return false; }
      if pending.ticket.sequence != sequence { return false; }
      if pending.ticket.peer.addr != peer.addr { return false; }
      if pending.ticket.peer.port != peer.port { return false; }
      return true;
    }

    /** handle_od_read. `local` is what the local dictionary would answer. */
    method HandleOdRead(peer: Peer, sequence: nat, payload: seq<byte>, local: LocalResult) returns (out: seq<Datagram>)
      requires Valid()
      modifies `pending, cia`pipe
      ensures Valid() && (cia.pipe, pending, out) == Receive(old(cia.pipe), old(pending), peer, sequence, ReadReq(payload), local)
    {
      hide Link.Cia402.Valid, LocalResponse;
      if |payload| != 4 { return [ErrorResponse(peer, sequence, ERR_BAD_LENGTH, 0)]; }
      var req := Request(true, Rd16(payload[0..2]), Value(payload[2]), Value(payload[3]), []);
      if OwnedByCmc(req.index) { return [LocalResponse(Ticket(peer, sequence, req), local)]; }
      var repeats := IsRetransmitOfInFlight(peer, sequence);
      if repeats { return []; }
      if pending.inFlight { return [ErrorResponse(peer, sequence, ERR_INTERNAL, DETAIL_QUEUE_FULL)]; }
      var h := cia.OdReadBegin(req.index, req.sub, req.typ);
      if h == NO_HANDLE { return [ErrorResponse(peer, sequence, ERR_INTERNAL, DETAIL_QUEUE_FULL)]; }
      pending := Queue(true, h, Ticket(peer, sequence, req));
      return [];
    }

    /** handle_od_write. */
    method HandleOdWrite(peer: Peer, sequence: nat, payload: seq<byte>, local: LocalResult) returns (out: seq<Datagram>)
      requires Valid()
      modifies `pending, cia`pipe, cia.txData
      ensures Valid() && (cia.pipe, pending, out) == Receive(old(cia.pipe), old(pending), peer, sequence, WriteReq(payload), local)
    {
      hide Link.Cia402.Valid, LocalResponse;
      if |payload| < 5 { return [ErrorResponse(peer, sequence, ERR_BAD_LENGTH, 0)]; }
      var len := Value(payload[4]);
      if 5 + len != |payload| { return [ErrorResponse(peer, sequence, ERR_BAD_LENGTH, 0)]; }
      if len != TypeSize(Value(payload[3])) { return [ErrorResponse(peer, sequence, ERR_OD, ERR_SIZE)]; }
      var req := Request(false, Rd16(payload[0..2]), Value(payload[2]), Value(payload[3]), payload[5..]);
      if OwnedByCmc(req.index) { return [LocalResponse(Ticket(peer, sequence, req), local)]; }
      var repeats := IsRetransmitOfInFlight(peer, sequence);
      if repeats { return []; }
      if pending.inFlight { return [ErrorResponse(peer, sequence, ERR_INTERNAL, DETAIL_QUEUE_FULL)]; }
      var h := cia.OdWriteBegin(req.index, req.sub, req.typ, req.data);
      if h == NO_HANDLE { return [ErrorResponse(peer, sequence, ERR_INTERNAL, DETAIL_QUEUE_FULL)]; }
      pending := Queue(true, h, Ticket(peer, sequence, req));
      return [];
    }

    /** service_pending. */
    method ServicePending() returns (out: seq<Datagram>)
      requires Valid()
      modifies `pending, cia`pipe
      ensures Valid() && (cia.pipe, pending, out) == Service(old(cia.pipe), old(pending))
      ensures var p, u := old(cia.pipe), old(pending);
        if u.inFlight && Poll(p, u.handle).1.Done? then
          && |out| == 1 && Answers(out[0], u.ticket, u.ticket.req.typ, p.slot.result, p.slot.resp)
          && cia.pipe.slot.phase == Idle && pending == u.(inFlight := false)
        else out == [] && cia.pipe == p && pending == u
    {
      hide Link.Cia402.Valid;
      if !pending.inFlight { return []; }
      var r := cia.OdPoll(pending.handle);
      if r.NotYet? { return []; }
      out := [Response(pending.ticket, r.result, r.data)];
      pending := pending.(inFlight := false);
    }

    /** handle_subscribe: the stream goes to the sender's address, at the port it names, and
        the batch starts empty. */
    method HandleSubscribe(peer: Peer, sequence: nat, payload: seq<byte>, now: nat) returns (out: seq<Datagram>)
      requires Valid()
      modifies sub, `subscriber
      ensures Valid()
      ensures |payload| != 5 ==>
        && out == [ErrorResponse(peer, sequence, ERR_BAD_LENGTH, 0)]
        && sub.State() == old(sub.State()) && sub.active == old(sub.active) && subscriber == old(subscriber)
      ensures |payload| == 5 ==>
        out == [] && sub.active && Tlm.Subscribed(sub.State()) && subscriber == Peer(peer.addr, Rd16(payload[0..2]))
    {
      hide Link.Cia402.Valid;
      if |payload| != 5 { return [ErrorResponse(peer, sequence, ERR_BAD_LENGTH, 0)]; }
      subscriber := Peer(peer.addr, Rd16(payload[0..2]));
      sub.Subscribe(Rd16(payload[2..4]), Value(payload[4]), Clock(now));
      return [];
    }

    /** service_telemetry: a fresh status is taken from the link only for a subscriber. */
    method ServeTelemetry(now: nat)
      requires Valid()
      modifies sub, sub.sampleBuf, cia`status
      ensures Valid() && sub.active == old(sub.active)
      ensures sub.State() == if sub.active then Tlm.Serve(old(sub.State()), Arrived(old(cia.status)), Clock(now)) else old(sub.State())
      ensures Arrived(old(cia.status)) ==
        if old(cia.status.isFresh) then Tlm.Fresh(Tlm.Status(old(cia.status.header), old(cia.status.blob))) else Tlm.Quiet
      ensures cia.status == if sub.active then old(cia.status).(isFresh := false) else old(cia.status)
    {
      hide Tlm.Serve;
      if !sub.active { return; }
      var input := Arrived(cia.status);
      var _ := cia.TakeCyclicStatus();
      sub.ServiceTelemetry(input, Clock(now));
    }

    /** The switch of service_access_socket, for a datagram that passed its tests. */
    method Dispatch(m: Message, now: nat) returns (out: seq<Datagram>)
      requires Valid()
      modifies `pending, `subscriber, cia`pipe, cia.txData, sub
      ensures Valid()
      ensures m.Asks? ==> (cia.pipe, pending, out) == Receive(old(cia.pipe), old(pending), m.peer, m.sequence, m.body, m.local)
      ensures !m.Asks? ==> cia.pipe == old(cia.pipe) && pending == old(pending)
      ensures !(m.Subscribes? && |m.payload| == 5) ==> sub.State() == old(sub.State())
      ensures !(m.Subscribes? && |m.payload| == 5) && !m.Unsubscribes? ==> sub.active == old(sub.active)
      ensures m.Subscribes? && |m.payload| == 5 ==>
        sub.active && Tlm.Subscribed(sub.State()) && subscriber == Peer(m.peer.addr, Rd16(m.payload[0..2]))
      ensures m.Unsubscribes? ==> !sub.active
      ensures !m.Asks? ==> out == ReplyTo(m)
    {
      hide Link.Cia402.Valid, Receive;
      out := [];
      match m {
        case Dropped =>
        case Refused(peer, sequence, class_, detail) => out := [ErrorResponse(peer, sequence, class_, detail)];
        case Asks(peer, sequence, body, local) =>
          match body {
            case ReadReq(payload) => out := HandleOdRead(peer, sequence, payload, local);
            case WriteReq(payload) => out := HandleOdWrite(peer, sequence, payload, local);
          }
        case Subscribes(peer, sequence, payload) => out := HandleSubscribe(peer, sequence, payload, now);
        case Unsubscribes => sub.Unsubscribe();
      }
    }

    /** service_access_socket: at most one datagram is read in each tick. */
    method ServiceAccessSocket(arrivals: seq<Packet>, now: nat) returns (out: seq<Datagram>)
      requires Valid() && |arrivals| <= 1
      modifies `pending, `subscriber, cia`pipe, cia.txData, sub
      ensures Valid()
      ensures arrivals != [] && Meaning(arrivals[0]).Asks? ==>
        var m := Meaning(arrivals[0]);
        && (cia.pipe, pending, out) == Receive(old(cia.pipe), old(pending), m.peer, m.sequence, m.body, m.local)
      ensures arrivals == [] || !Meaning(arrivals[0]).Asks? ==> cia.pipe == old(cia.pipe) && pending == old(pending)
      ensures arrivals == [] ==> out == []
      ensures arrivals != [] && !Meaning(arrivals[0]).Asks? ==> out == ReplyTo(Meaning(arrivals[0]))
      ensures SameSubscriber(arrivals) ==> sub.State() == old(sub.State()) && sub.active == old(sub.active)
      ensures arrivals != [] && Meaning(arrivals[0]).Unsubscribes? ==> sub.State() == old(sub.State()) && !sub.active
      ensures arrivals != [] && Begins(arrivals[0]) ==> sub.active && Tlm.Subscribed(sub.State())
    {
      hide Link.Cia402.Valid, Receive, Rd16;
      if arrivals == [] { return []; }
      var p := arrivals[0];
      var b := p.bytes;
      if |b| < UDP_HEADER_BYTES { return []; }
      var sequence, payload := Rd16(b[4..6]), b[UDP_HEADER_BYTES..];
      if Rd16(b[0..2]) != UDP_MAGIC { return [ErrorResponse(p.peer, sequence, ERR_BAD_MAGIC, 0)]; }
      if b[2] != PROTOCOL_VERSION { return [ErrorResponse(p.peer, sequence, ERR_BAD_VERSION, Value(b[2]))]; }
      if Rd16(b[6..8]) != |payload| { return [ErrorResponse(p.peer, sequence, ERR_BAD_LENGTH, 0)]; }
      var typ := b[3];
      var m;
      if typ == MSG_OD_READ_REQ {
        m := Asks(p.peer, sequence, ReadReq(payload), p.local);
      } else if typ == MSG_OD_WRITE_REQ {
        m := Asks(p.peer, sequence, WriteReq(payload), p.local);
      } else if typ == MSG_TLM_SUBSCRIBE {
        m := Subscribes(p.peer, sequence, payload);
      } else if typ == MSG_TLM_UNSUBSCRIBE {
        m := Unsubscribes;
      } else {
        m := Refused(p.peer, sequence, ERR_UNKNOWN_MSG, Value(typ));
      }
      out := Dispatch(m, now);
    }

    /** od_tick: the pending request, one datagram, telemetry. `subscribed` and `before` are
        the subscription as the telemetry part finds it. */
    method Tick(arrivals: seq<Packet>, now: nat) returns (out: seq<Datagram>, ghost subscribed: bool, ghost before: Tlm.Tele)
      requires Valid() && |arrivals| <= 1
      modifies `pending, `subscriber, cia`pipe, cia`status, cia.txData, sub, sub.sampleBuf
      ensures Valid()
      ensures var served := Service(old(cia.pipe), old(pending));
        if arrivals == [] || !Meaning(arrivals[0]).Asks? then
          && cia.pipe == served.0 && pending == served.1
          && out == served.2 + if arrivals == [] then [] else ReplyTo(Meaning(arrivals[0]))
        else
          var m := Meaning(arrivals[0]);
          var received := Receive(served.0, served.1, m.peer, m.sequence, m.body, m.local);
          cia.pipe == received.0 && pending == received.1 && out == served.2 + received.2
      ensures SameSubscriber(arrivals) ==> before == old(sub.State()) && subscribed == old(sub.active)
      ensures arrivals != [] && Meaning(arrivals[0]).Unsubscribes? ==> before == old(sub.State()) && !subscribed
      ensures arrivals != [] && Begins(arrivals[0]) ==> subscribed && Tlm.Subscribed(before)
      ensures subscribed ==> before.Valid()
      ensures sub.active == subscribed
      ensures sub.State() == if subscribed then Tlm.Serve(before, Arrived(old(cia.status)), Clock(now)) else before
    {
      hide Link.Cia402.Valid, Service, Receive, Tlm.Serve, Meaning;
      out := ServicePending();
      var more := ServiceAccessSocket(arrivals, now);
      out := out + more;
      subscribed, before := sub.active, sub.State();
      ServeTelemetry(now);
    }
  }
}
