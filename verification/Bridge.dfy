/**
 * The UDP bridge of app/od: motor-owned object dictionary requests are queued into the SDO
 * slot, one at a time, and answered when their exchange completes.
 */
module Bridge {
  import opened Bytes
  import opened Pipeline
  import PC = UdpClient

  const UDP_MAGIC := 0x4D55
  const UDP_HEADER_BYTES := 8
  const PROTOCOL_VERSION: byte := 4

  // udp_msg_type_t and udp_err_class_t
  const MSG_OD_READ_RESP: byte := 0x02
  const MSG_OD_WRITE_RESP: byte := 0x04
  const MSG_ERROR: byte := 0x7F
  const ERR_BAD_LENGTH := 5
  const ERR_OD := 8
  const ERR_INTERNAL := 9
  const DETAIL_QUEUE_FULL := 1

  datatype Peer = Peer(addr: seq<byte>, port: nat)

  /** Datagrams the bridge sends to the access socket's clients. */
  datatype Datagram =
    | ReadResponse(to: Peer, sequence: nat, index: nat, sub: nat, typ: nat, result: nat, data: seq<byte>)
    | WriteResponse(to: Peer, sequence: nat, index: nat, sub: nat, result: nat)
    | ErrorResponse(to: Peer, sequence: nat, class_: nat, detail: nat)

  /** The fields fit the widths they have in C. */
  predicate Small(d: Datagram) {
    && d.sequence < TWO_16
    && match d
       case ReadResponse(_, _, index, sub, typ, result, data) =>
         index < TWO_16 && sub < 256 && typ < 256 && result < 256 && |data| <= DATA_MAX
       case WriteResponse(_, _, index, sub, result) => index < TWO_16 && sub < 256 && result < 256
       case ErrorResponse(_, _, class_, detail) => class_ < 256 && detail < 256
  }

  /** build_hdr. */
  function Header(typ: byte, sequence: nat, length: nat): seq<byte>
    requires sequence < TWO_16 && length < TWO_16
  {
    Wr16(UDP_MAGIC) + [PROTOCOL_VERSION, typ] + Wr16(sequence) + Wr16(length)
  }

  /** send_od_read_resp, send_od_write_resp and send_error. */
  function Encoded(d: Datagram): seq<byte>
    requires Small(d)
  {
    match d
    case ReadResponse(_, sequence, index, sub, typ, result, data) =>
      Header(MSG_OD_READ_RESP, sequence, 6 + |data|)
      + (Wr16(index) + [ByteOf(sub), ByteOf(typ), ByteOf(result), ByteOf(|data|)] + data)
    case WriteResponse(_, sequence, index, sub, result) =>
      Header(MSG_OD_WRITE_RESP, sequence, 4) + (Wr16(index) + [ByteOf(sub), ByteOf(result)])
    case ErrorResponse(_, sequence, class_, detail) =>
      Header(MSG_ERROR, sequence, 4) + ([ByteOf(class_), ByteOf(detail)] + Wr16(sequence))
  }

  lemma MagicBytes()
    ensures Rd16([0x55, 0x4D]) == UDP_MAGIC && Wr16(UDP_MAGIC) == [0x55, 0x4D]
  {
    Rd16OfWr16(UDP_MAGIC);
    assert Rd16([0x55, 0x4D]) == UDP_MAGIC;
    Rd16Injective(Wr16(UDP_MAGIC), [0x55, 0x4D]);
  }

  /** The PC reads of every datagram sent to it exactly what it was meant to say. */
  lemma ResponsesAreHeard(d: Datagram)
    requires Small(d)
    ensures PC.Hear(Encoded(d)) == match d
      case ReadResponse(_, sequence, index, sub, typ, result, data) => PC.ReadDone(sequence, index, sub, typ, result, data)
      case WriteResponse(_, sequence, index, sub, result) => PC.WriteDone(sequence, index, sub, result)
      case ErrorResponse(_, sequence, class_, detail) => PC.Failed(sequence, class_, detail, sequence)
  {
    hide Rd16, Wr16, ByteOf, Header, PC.Hear;
    match d
    case ReadResponse(_, sequence, index, sub, typ, result, data) =>
      var p := Wr16(index) + [ByteOf(sub), ByteOf(typ), ByteOf(result), ByteOf(|data|)] + data;
      WrappedIsHeard(MSG_OD_READ_RESP, sequence, p);
      assert p[0..2] == Wr16(index) && p[6..] == data;
      Rd16OfWr16(index);
      ValueOfByteOf(sub);
      ValueOfByteOf(typ);
      ValueOfByteOf(result);
      ValueOfByteOf(|data|);
    case WriteResponse(_, sequence, index, sub, result) =>
      var p := Wr16(index) + [ByteOf(sub), ByteOf(result)];
      WrappedIsHeard(MSG_OD_WRITE_RESP, sequence, p);
      assert p[0..2] == Wr16(index);
      Rd16OfWr16(index);
      ValueOfByteOf(sub);
      ValueOfByteOf(result);
    case ErrorResponse(_, sequence, class_, detail) =>
      var p := [ByteOf(class_), ByteOf(detail)] + Wr16(sequence);
      WrappedIsHeard(MSG_ERROR, sequence, p);
      assert p[2..4] == Wr16(sequence);
      Rd16OfWr16(sequence);
      ValueOfByteOf(class_);
      ValueOfByteOf(detail);
  }

  lemma WrappedIsHeard(typ: byte, sequence: nat, payload: seq<byte>)
    requires sequence < TWO_16 && |payload| < TWO_16
    ensures PC.Hear(Header(typ, sequence, |payload|) + payload) == PC.Read(typ, sequence, payload)
  {
    hide Rd16, Wr16, PC.Read;
    var b := Header(typ, sequence, |payload|) + payload;
    MagicBytes();
    assert b[4..6] == Wr16(sequence) && b[6..8] == Wr16(|payload|) && b[8..] == payload;
    Rd16OfWr16(sequence);
    Rd16OfWr16(|payload|);
  }

  /** A request taken from the network, as pending_od_t keeps it. */
  datatype Ticket = Ticket(peer: Peer, sequence: nat, req: Request)

  datatype Queue = Queue(inFlight: bool, handle: int, ticket: Ticket) {
    function Hold(): int { if inFlight then handle else NO_HANDLE }
  }

  /** A decoded datagram on the access socket: read and write requests that passed the
      length tests of service_access_socket, or anything else with the error it is owed. */
  datatype Incoming = ReadReq(payload: seq<byte>) | WriteReq(payload: seq<byte>)

  function TypeSize(typ: nat): nat {
    if typ == 0 || typ == 3 then 1 else if typ == 1 || typ == 4 then 2
    else if typ == 2 || typ == 5 || typ == 6 then 4 else 0
  }

  /** cmc_od_owns. */
  predicate OwnedByCmc(index: nat) { 0x3000 <= index <= 0x30FF }

  /** What handle_od_read and handle_od_write make of a payload before they look at their
      own state. */
  datatype Decoded = Malformed(class_: nat, detail: nat) | Local(req: Request) | ForMotor(req: Request)

  function DecodeReq(m: Incoming): (d: Decoded)
    ensures d.ForMotor? ==> |d.req.data| <= DATA_MAX && !OwnedByCmc(d.req.index)
  {
    match m
    case ReadReq(p) =>
      if |p| != 4 then Malformed(ERR_BAD_LENGTH, 0)
      else
        var r := Request(true, Rd16(p[0..2]), Value(p[2]), Value(p[3]), []);
        if OwnedByCmc(r.index) then Local(r) else ForMotor(r)
    case WriteReq(p) =>
      if |p| < 5 then Malformed(ERR_BAD_LENGTH, 0)
      else if 5 + Value(p[4]) != |p| then Malformed(ERR_BAD_LENGTH, 0)
      else if Value(p[4]) != TypeSize(Value(p[3])) then Malformed(ERR_OD, ERR_SIZE)
      else
        var r := Request(false, Rd16(p[0..2]), Value(p[2]), Value(p[3]), p[5..]);
        if OwnedByCmc(r.index) then Local(r) else ForMotor(r)
  }

  /** The response to a ticket with a given outcome. */
  function Response(t: Ticket, result: nat, data: seq<byte>): Datagram {
    if t.req.isRead then
      ReadResponse(t.peer, t.sequence, t.req.index, t.req.sub, t.req.typ, result, if result == OD_OK then data else [])
    else WriteResponse(t.peer, t.sequence, t.req.index, t.req.sub, result)
  }

  /** The datagram answers the ticket: to its sender, under its number, for its entry and as a
      read or write as it was, with this result, and for a read with this type and, if it
      succeeded, this data. */
  predicate Answers(d: Datagram, t: Ticket, typ: nat, result: nat, data: seq<byte>) {
    && d.to == t.peer && d.sequence == t.sequence && !d.ErrorResponse?
    && d.index == t.req.index && d.sub == t.req.sub && d.result == result
    && (if t.req.isRead then d.ReadResponse? && d.typ == typ && d.data == if result == 0 then data else [] else d.WriteResponse?)
  }

  /** The result of a request on a CMC-owned entry, from the local dictionary. */
  datatype LocalResult = LocalResult(result: nat, typ: nat, data: seq<byte>)

  function LocalResponse(t: Ticket, l: LocalResult): Datagram {
    Response(t.(req := t.req.(typ := if t.req.isRead && l.result == OD_OK then l.typ else t.req.typ)), l.result, l.data)
  }

  /** is_retransmit_of_in_flight. */
  predicate Retransmit(u: Queue, peer: Peer, sequence: nat) {
    u.inFlight && u.ticket.sequence == sequence && u.ticket.peer == peer
  }

  /** handle_od_read and handle_od_write: slot, queue and datagrams sent. */
  function Receive(p: Pipe, u: Queue, peer: Peer, sequence: nat, m: Incoming, l: LocalResult): (r: (Pipe, Queue, seq<Datagram>))
    requires p.Valid()
    ensures r.0.Valid()
  {
    match DecodeReq(m)
    case Malformed(class_, detail) => (p, u, [ErrorResponse(peer, sequence, class_, detail)])
    case Local(req) => (p, u, [LocalResponse(Ticket(peer, sequence, req), l)])
    case ForMotor(req) =>
      if Retransmit(u, peer, sequence) then (p, u, [])
      else if u.inFlight then (p, u, [ErrorResponse(peer, sequence, ERR_INTERNAL, DETAIL_QUEUE_FULL)])
      else
        var begun := Begin(p, req);
        if begun.1 == NO_HANDLE then (p, u, [ErrorResponse(peer, sequence, ERR_INTERNAL, DETAIL_QUEUE_FULL)])
        else (begun.0, Queue(true, begun.1, Ticket(peer, sequence, req)), [])
  }

  /** service_pending. */
  function Service(p: Pipe, u: Queue): (r: (Pipe, Queue, seq<Datagram>))
    requires p.Valid()
    ensures r.0.Valid()
  {
    if !u.inFlight then (p, u, [])
    else
      var polled := Poll(p, u.handle);
      match polled.1
      case NotYet => (p, u, [])
      case Done(result, data) => (polled.0, u.(inFlight := false), [Response(u.ticket, result, data)])
  }
}
