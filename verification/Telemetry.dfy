/**
 * Telemetry batching of app/od: of the statuses taken from the motor link every
 * rate_divider-th is kept, up to `batch` of them collect in a byte buffer, and a datagram
 * is sent when the batch is full or the telemetry map changes.
 */
module Telemetry {
  import opened Bytes
  import opened Time
  import Bridge
  import PC = UdpClient

  const STATUS_HEADER_SIZE := 18
  const BLOB_MAX := 34
  const RECORD_BYTES_MAX := STATUS_HEADER_SIZE + BLOB_MAX
  const BATCH_MAX := 4
  const BUF_BYTES := BATCH_MAX * RECORD_BYTES_MAX
  const KEEPALIVE_MS := 1000

  /** One cyclic status: its 18 header bytes and the mapped blob behind them. */
  datatype Status = Status(header: seq<byte>, blob: seq<byte>) {
    ghost predicate Valid() { |header| == STATUS_HEADER_SIZE && |blob| <= BLOB_MAX }

    function MapVersion(): byte
      requires |header| == STATUS_HEADER_SIZE
    {
      header[6]
    }

    function Record(): seq<byte> { header + blob }
  }

  datatype Datagram = Datagram(sequence: nat, mapVersion: byte, count: nat, recordBytes: nat, records: seq<byte>)

  /** The state of one subscription. */
  datatype Tele = Tele(
    divider: nat, batch: nat, txSeq: nat, lastKeepalive: nat, decimate: nat,
    held: nat, recordBytes: nat, mapVersion: byte, buf: seq<byte>, sent: seq<Datagram>)
  {
    ghost predicate Valid() {
      && 1 <= divider < 0x1_0000 && 1 <= batch <= BATCH_MAX && decimate < divider
      && held < batch && recordBytes <= RECORD_BYTES_MAX && |buf| == BUF_BYTES
      && txSeq < 0x1_0000 && lastKeepalive < TWO_32
    }
  }

  /** What an od_tick finds: a fresh status, or none. */
  datatype Input = Fresh(status: Status) | Quiet

  function Emit(t: Tele, count: nat, recordBytes: nat, records: seq<byte>): Tele {
    t.(sent := t.sent + [Datagram(t.txSeq, t.mapVersion, count, recordBytes, records)],
       txSeq := (t.txSeq + 1) % 0x1_0000)
  }

  lemma InBuffer(n: nat, size: nat)
    requires n <= BATCH_MAX && size <= RECORD_BYTES_MAX
    ensures n * size <= BUF_BYTES && (n < BATCH_MAX ==> n * size + size <= BUF_BYTES)
  {
    if n == 1 {} else if n == 2 {} else if n == 3 {} else if n == 4 {}
  }

  /** The held samples go out. */
  function Flush(t: Tele): Tele
    requires t.held <= BATCH_MAX && t.recordBytes <= RECORD_BYTES_MAX && |t.buf| == BUF_BYTES
  {
    InBuffer(t.held, t.recordBytes);
    Emit(t, t.held, t.recordBytes, t.buf[..t.held * t.recordBytes]).(held := 0)
  }

  /** A map change sends what was collected under the old map. */
  function FlushOnRemap(t: Tele, s: Status): Tele
    requires t.Valid() && s.Valid()
  {
    if s.MapVersion() != t.mapVersion && t.held > 0 then Flush(t) else t
  }

  function Overwrite(buf: seq<byte>, at: nat, r: seq<byte>): (b: seq<byte>)
    requires at + |r| <= |buf|
    ensures |b| == |buf| && b[..at] == buf[..at] && b[at..at + |r|] == r
  {
    buf[..at] + r + buf[at + |r|..]
  }

  /** The sample goes into the next slot, as wide as the sample itself. */
  function Store(t: Tele, s: Status): (u: Tele)
    requires t.Valid() && s.Valid()
    ensures u.held <= u.batch && u.recordBytes <= RECORD_BYTES_MAX && |u.buf| == BUF_BYTES
  {
    var size := STATUS_HEADER_SIZE + |s.blob|;
    InBuffer(t.held, size);
    var at := t.held * size;
    t.(mapVersion := s.MapVersion(), recordBytes := size, held := t.held + 1,
       buf := Overwrite(t.buf, at, s.Record()))
  }

  function FlushIfFull(t: Tele): Tele
    requires t.held <= BATCH_MAX && t.recordBytes <= RECORD_BYTES_MAX && |t.buf| == BUF_BYTES
  {
    if t.held >= t.batch then Flush(t) else t
  }

  /** service_telemetry for an active subscriber. */
  function Serve(t: Tele, input: Input, now: nat): (u: Tele)
    requires t.Valid() && now < TWO_32 && (input.Fresh? ==> input.status.Valid())
    ensures u.Valid() && u.divider == t.divider && u.batch == t.batch
  {
    match input
    case Fresh(s) =>
      if t.decimate + 1 < t.divider then t.(decimate := t.decimate + 1)
      else FlushIfFull(Store(FlushOnRemap(t.(decimate := 0), s), s)).(lastKeepalive := now)
    case Quiet =>
      if (now - t.lastKeepalive) % TWO_32 >= KEEPALIVE_MS then
        Emit(t, 0, 0, []).(lastKeepalive := (t.lastKeepalive + KEEPALIVE_MS) % TWO_32)
      else t
  }

  /** The module's variables; sent collects what goes to the telemetry socket. */
  class Subscription {
    const sampleBuf: array<byte>
    var active: bool
    var rateDivider: nat
    var batch: nat
    var txSeq: nat
    var lastKeepaliveMs: nat
    var samplesHeld: nat
    var recordBytes: nat
    var decimateCount: nat
    var lastMapVersion: byte
    var sent: seq<Datagram>

    ghost function State(): Tele
      reads this, sampleBuf
    {
      Tele(rateDivider, batch, txSeq, lastKeepaliveMs, decimateCount, samplesHeld, recordBytes,
           lastMapVersion, sampleBuf[..], sent)
    }

    ghost predicate Valid()
      reads this, sampleBuf
    {
      sampleBuf.Length == BUF_BYTES && recordBytes <= RECORD_BYTES_MAX && (active ==> State().Valid())
    }

    constructor ()
      ensures Valid() && fresh(sampleBuf) && !active
    {
      sampleBuf := new byte[BUF_BYTES];
      active := false;
      rateDivider, batch, txSeq, lastKeepaliveMs := 0, 0, 0, 0;
      samplesHeld, recordBytes, decimateCount, lastMapVersion, sent := 0, 0, 0, 0, [];
    }

    /** handle_subscribe, its five payload bytes decoded. */
    method Subscribe(divider: nat, wanted: nat, now: nat)
      requires Valid() && divider < 0x1_0000 && wanted < 256 && now < TWO_32
      modifies this
      ensures Valid() && active && sampleBuf[..] == old(sampleBuf[..]) && lastMapVersion == old(lastMapVersion)
      ensures rateDivider == if divider == 0 then 1 else divider
      ensures batch == if wanted == 0 then 1 else if wanted > BATCH_MAX then BATCH_MAX else wanted
      ensures txSeq == 0 && lastKeepaliveMs == now && samplesHeld == 0 && decimateCount == 0 && sent == []
      ensures recordBytes == old(recordBytes)
    {
      var d, b := divider, wanted;
      if d == 0 { d := 1; }
      if b == 0 { b := 1; }
      if b > BATCH_MAX { b := BATCH_MAX; }
      active, rateDivider, batch, txSeq, lastKeepaliveMs := true, d, b, 0, now;
      samplesHeld, decimateCount, sent := 0, 0, [];
    }

    /** handle_unsubscribe. */
    method Unsubscribe()
      requires Valid()
      modifies `active
      ensures Valid() && !active && State() == old(State())
    {
      active := false;
    }

    /** emit_telemetry; its size test never fails. */
    method EmitTelemetry(count: nat, size: nat, records: seq<byte>)
      requires 4 + |records| <= 4 + BUF_BYTES
      modifies `sent, `txSeq
      ensures State() == Emit(old(State()), count, size, records)
    {
      sent := sent + [Datagram(txSeq, lastMapVersion, count, size, records)];
      txSeq := (txSeq + 1) % 0x1_0000;
    }

    /** The memcpy of header and blob into slot `samplesHeld`. */
    method StoreSample(s: Status, at: nat)
      requires s.Valid() && at + |s.Record()| <= sampleBuf.Length
      modifies sampleBuf
      ensures sampleBuf[..] == Overwrite(old(sampleBuf[..]), at, s.Record())
    {
      var r := s.Record();
      for i := 0 to |r|
        invariant sampleBuf[..at] == old(sampleBuf[..at])
        invariant sampleBuf[at..at + i] == r[..i]
        invariant sampleBuf[at + i..] == old(sampleBuf[at + i..])
      {
        sampleBuf[at + i] := r[i];
      }
      assert sampleBuf[..] == sampleBuf[..at] + sampleBuf[at..at + |r|] + sampleBuf[at + |r|..];
    }

    /** Sends what is held. */
    method SendHeld()
      requires sampleBuf.Length == BUF_BYTES && samplesHeld <= BATCH_MAX && recordBytes <= RECORD_BYTES_MAX
      modifies `sent, `txSeq, `samplesHeld
      ensures State() == Flush(old(State()))
    {
      InBuffer(samplesHeld, recordBytes);
      EmitTelemetry(samplesHeld, recordBytes, sampleBuf[..samplesHeld * recordBytes]);
      samplesHeld := 0;
    }

    /** The part of service_telemetry that appends a sample. Its guard never fails. */
    method Keep(s: Status)
      requires sampleBuf.Length == BUF_BYTES && State().Valid() && s.Valid()
      modifies `lastMapVersion, `recordBytes, `samplesHeld, sampleBuf
      ensures State() == Store(old(State()), s)
    {
      lastMapVersion := s.MapVersion();
      recordBytes := STATUS_HEADER_SIZE + |s.blob|;
      if samplesHeld < BATCH_MAX && samplesHeld < batch && recordBytes <= RECORD_BYTES_MAX {
        InBuffer(samplesHeld, recordBytes);
        StoreSample(s, samplesHeld * recordBytes);
        samplesHeld := samplesHeld + 1;
      }
    }

    /** service_telemetry. */
    method ServiceTelemetry(input: Input, now: nat)
      requires Valid() && now < TWO_32 && (input.Fresh? ==> input.status.Valid())
      modifies this, sampleBuf
      ensures Valid() && active == old(active)
      ensures State() == if active then Serve(old(State()), input, now) else old(State())
    {
      hide Flush, Store, Emit;
      if !active { return; }
      if input.Fresh? {
        var s := input.status;
        decimateCount := decimateCount + 1;
        if decimateCount >= rateDivider {
          decimateCount := 0;
          if s.MapVersion() != lastMapVersion && samplesHeld > 0 { SendHeld(); }
          assert State() == FlushOnRemap(old(State()).(decimate := 0), s);
          FlushOnRemapValid(old(State()).(decimate := 0), s);
          Keep(s);
          if samplesHeld >= batch { SendHeld(); }
          lastKeepaliveMs := now;
        }
      } else if (now - lastKeepaliveMs) % TWO_32 >= KEEPALIVE_MS {
        EmitTelemetry(0, 0, []);
        lastKeepaliveMs := (lastKeepaliveMs + KEEPALIVE_MS) % TWO_32;
      }
      assert State() == Serve(old(State()), input, now);
    }
  }

  lemma FlushOnRemapValid(t: Tele, s: Status)
    requires t.Valid() && s.Valid()
    ensures FlushOnRemap(t, s).Valid()
  {
  }

  // ----- Conservation over a subscription -----

  datatype Step = Step(input: Input, now: nat) {
    ghost predicate Valid() { now < TWO_32 && (input.Fresh? ==> input.status.Valid()) }
  }

  ghost predicate ValidRun(t: Tele, run: seq<Step>) {
    t.Valid() && forall i :: 0 <= i < |run| ==> run[i].Valid()
  }

  /** The subscription after a run of od_ticks, and the statuses taken during it. */
  function After(t: Tele, run: seq<Step>): (u: Tele)
    requires ValidRun(t, run)
    ensures u.Valid() && u.divider == t.divider && u.batch == t.batch
  {
    if run == [] then t
    else Serve(After(t, run[..|run| - 1]), run[|run| - 1].input, run[|run| - 1].now)
  }

  function Taken(run: seq<Step>): seq<Status> {
    if run == [] then []
    else
      var before := Taken(run[..|run| - 1]);
      match run[|run| - 1].input
      case Fresh(s) => before + [s]
      case Quiet => before
  }

  /** Every n-th element of s, counting from one. */
  function EveryNth<T>(s: seq<T>, n: nat): (r: seq<T>)
    requires n > 0
    ensures forall x :: x in r ==> x in s
  {
    if s == [] then []
    else
      var before := EveryNth(s[..|s| - 1], n);
      if |s| % n == 0 then before + [s[|s| - 1]] else before
  }

  function Records(s: seq<Status>): (r: seq<seq<byte>>)
    ensures |r| == |s|
  {
    seq(|s|, i requires 0 <= i < |s| => s[i].Record())
  }

  /** What a receiver unpacks: count records of recordBytes each. */
  function Chunks(bytes: seq<byte>, size: nat, count: nat): (r: seq<seq<byte>>)
    requires count * size <= |bytes|
    ensures |r| == count
  {
    if count == 0 then []
    else
      Fits(count, size);
      Chunks(bytes, size, count - 1) + [bytes[(count - 1) * size..count * size]]
  }

  lemma Fits(count: nat, size: nat)
    requires count > 0
    ensures (count - 1) * size + size == count * size
  {
  }

  ghost predicate Unpackable(sent: seq<Datagram>) {
    forall i :: 0 <= i < |sent| ==> sent[i].count * sent[i].recordBytes <= |sent[i].records|
  }

  ghost function Unpacked(sent: seq<Datagram>): seq<seq<byte>>
    requires Unpackable(sent)
  {
    if sent == [] then []
    else
      var d := sent[|sent| - 1];
      Unpacked(sent[..|sent| - 1]) + Chunks(d.records, d.recordBytes, d.count)
  }

  /** Every record of a datagram was taken under the map version the datagram names. */
  ghost predicate Unmixed(d: Datagram) {
    && d.count * d.recordBytes <= |d.records|
    && forall r :: r in Chunks(d.records, d.recordBytes, d.count) ==> |r| > 6 && r[6] == d.mapVersion
  }

  /** The map version determines the length of the blob. */
  ghost predicate MapFixesLength(s: seq<Status>) {
    forall a, b :: a in s && b in s && a.Valid() && b.Valid() && a.MapVersion() == b.MapVersion()
      ==> |a.blob| == |b.blob|
  }

  ghost predicate Sized(t: Tele) {
    t.held <= BATCH_MAX && t.recordBytes <= RECORD_BYTES_MAX && |t.buf| == BUF_BYTES && Unpackable(t.sent)
  }

  /** The records held in the buffer. */
  ghost function Held(t: Tele): seq<seq<byte>>
    requires Sized(t)
  {
    InBuffer(t.held, t.recordBytes);
    Chunks(t.buf, t.recordBytes, t.held)
  }

  /** All records of the subscription so far: those sent, then those held. */
  ghost function All(t: Tele): seq<seq<byte>>
    requires Sized(t)
  {
    Unpacked(t.sent) + Held(t)
  }

  /** No datagram mixes map versions, and the held records are of the current one. */
  ghost predicate NeverMixed(t: Tele)
    requires Sized(t)
  {
    && (forall i :: 0 <= i < |t.sent| ==> Unmixed(t.sent[i]))
    && forall r :: r in Held(t) ==> |r| > 6 && r[6] == t.mapVersion
  }

  lemma {:induction false} ChunksSame(a: seq<byte>, b: seq<byte>, size: nat, n: nat)
    requires n * size <= |a| && n * size <= |b| && a[..n * size] == b[..n * size]
    ensures Chunks(a, size, n) == Chunks(b, size, n)
  {
    if n > 0 {
      Fits(n, size);
      var m := (n - 1) * size;
      assert a[..m] == a[..n * size][..m] && b[..m] == b[..n * size][..m];
      assert a[m..n * size] == a[..n * size][m..] && b[m..n * size] == b[..n * size][m..];
      ChunksSame(a, b, size, n - 1);
    }
  }

  lemma AppendSent(sent: seq<Datagram>, d: Datagram)
    requires Unpackable(sent) && d.count * d.recordBytes <= |d.records|
    ensures Unpackable(sent + [d]) && Unpacked(sent + [d]) == Unpacked(sent) + Chunks(d.records, d.recordBytes, d.count)
  {
    assert (sent + [d])[..|sent|] == sent;
  }

  /** Sending the held records moves them, nothing else. */
  lemma FlushMoves(t: Tele)
    requires Sized(t)
    ensures var u := Flush(t); Sized(u) && All(u) == All(t) && Held(u) == []
    ensures Chunks(t.buf[..t.held * t.recordBytes], t.recordBytes, t.held) == Held(t)
  {
    hide Unpacked, Chunks;
    InBuffer(t.held, t.recordBytes);
    var n := t.held * t.recordBytes;
    var d := Datagram(t.txSeq, t.mapVersion, t.held, t.recordBytes, t.buf[..n]);
    ChunksSame(t.buf, t.buf[..n], t.recordBytes, t.held);
    AppendSent(t.sent, d);
    var u := Flush(t);
    assert u.sent == t.sent + [d];
    NoChunks(u.buf, u.recordBytes);
  }

  lemma FlushKeeps(t: Tele)
    requires Sized(t) && NeverMixed(t)
    ensures var u := Flush(t); Sized(u) && All(u) == All(t) && NeverMixed(u)
  {
    hide Unpacked, Chunks, All, Held, Flush, Unmixed;
    FlushMoves(t);
    var u := Flush(t);
    FlushSends(t);
    HeldUnmixed(t, u.sent[|t.sent|]);
    forall i | 0 <= i < |u.sent| ensures Unmixed(u.sent[i]) {
      if i < |t.sent| { assert u.sent[i] == t.sent[i]; }
    }
  }

  lemma FlushSends(t: Tele)
    requires Sized(t)
    ensures t.held * t.recordBytes <= BUF_BYTES
    ensures Flush(t).sent == t.sent + [Datagram(t.txSeq, t.mapVersion, t.held, t.recordBytes, t.buf[..t.held * t.recordBytes])]
  {
    InBuffer(t.held, t.recordBytes);
  }

  lemma HeldUnmixed(t: Tele, d: Datagram)
    requires Sized(t) && NeverMixed(t) && t.held * t.recordBytes <= BUF_BYTES
    requires d == Datagram(t.txSeq, t.mapVersion, t.held, t.recordBytes, t.buf[..t.held * t.recordBytes])
    ensures Unmixed(d)
  {
    hide Chunks, Unpacked, Flush;
    FlushMoves(t);
  }

  lemma NoChunks(bytes: seq<byte>, size: nat)
    ensures Chunks(bytes, size, 0) == []
  {
  }

  lemma StoreKeeps(t: Tele, s: Status)
    requires t.Valid() && s.Valid() && Sized(t) && NeverMixed(t)
    requires t.held > 0 ==> t.mapVersion == s.MapVersion() && t.recordBytes == |s.Record()|
    ensures var u := Store(t, s); Sized(u) && All(u) == All(t) + [s.Record()] && NeverMixed(u)
  {
    hide Unpacked, Chunks, Overwrite, Held, Store, Unmixed;
    var u := Store(t, s);
    StoreGrows(t, s);
    StoredParts(t, s);
    RecordVersion(s);
    if t.held == 0 { NothingHeld(t); }
    forall r | r in Held(u) ensures |r| > 6 && r[6] == u.mapVersion {
      if r != s.Record() { assert r in Held(t); }
    }
  }

  lemma StoreGrows(t: Tele, s: Status)
    requires t.Valid() && s.Valid() && Sized(t) && (t.held > 0 ==> t.recordBytes == |s.Record()|)
    ensures var u := Store(t, s); Sized(u) && Held(u) == Held(t) + [s.Record()]
  {
    hide Unpacked, Chunks, Overwrite, Held;
    var size := |s.Record()|;
    InBuffer(t.held, size);
    InBuffer(t.held + 1, size);
    Fits(t.held + 1, size);
    var u := Store(t, s);
    assert u.buf == Overwrite(t.buf, t.held * size, s.Record());
    HeldGrows(t, u, s.Record());
  }

  lemma RecordVersion(s: Status)
    requires s.Valid()
    ensures |s.Record()| > 6 && s.Record()[6] == s.MapVersion()
  {
  }

  lemma NothingHeld(t: Tele)
    requires Sized(t) && t.held == 0
    ensures Held(t) == []
  {
  }

  /** Writing a record behind the held ones adds it to them. */
  lemma HeldGrows(t: Tele, u: Tele, r: seq<byte>)
    requires Sized(t) && Sized(u) && u.held == t.held + 1 && u.recordBytes == |r|
    requires t.held > 0 ==> t.recordBytes == |r|
    requires t.held * |r| + |r| <= BUF_BYTES && u.buf == Overwrite(t.buf, t.held * |r|, r)
    ensures Held(u) == Held(t) + [r]
  {
    hide Unpacked, Chunks, Overwrite;
    var size := |r|;
    Fits(t.held + 1, size);
    NoChunks(t.buf, t.recordBytes);
    NoChunks(t.buf, size);
    ChunksSame(t.buf, u.buf, size, t.held);
    LastChunk(u.buf, size, t.held);
  }

  lemma LastChunk(bytes: seq<byte>, size: nat, n: nat)
    requires (n + 1) * size <= |bytes| && n * size <= |bytes| && n * size + size == (n + 1) * size
    ensures Chunks(bytes, size, n + 1) == Chunks(bytes, size, n) + [bytes[n * size..n * size + size]]
  {
  }

  /** The state agrees with the statuses taken so far. */
  ghost predicate Conserved(t: Tele, taken: seq<Status>) {
    && t.Valid() && Sized(t) && NeverMixed(t) && t.decimate == |taken| % t.divider
    && var kept := EveryNth(taken, t.divider);
    && All(t) == Records(kept)
    && (t.held > 0 ==> kept != [] && HeldLike(t, kept[|kept| - 1]))
  }

  /** The held records have the map version and size of this status. */
  ghost predicate HeldLike(t: Tele, s: Status) {
    s.Valid() && s.MapVersion() == t.mapVersion && |s.Record()| == t.recordBytes
  }

  lemma RecordsSnoc(k: seq<Status>, s: Status)
    ensures Records(k + [s]) == Records(k) + [s.Record()]
  {
  }

  /** When the buffer was not flushed by a remap, the new status is as long as those held. */
  lemma SameSize(t: Tele, taken: seq<Status>, s: Status)
    requires Conserved(t, taken) && s.Valid() && t.held > 0 && s.MapVersion() == t.mapVersion
    requires MapFixesLength(taken + [s])
    ensures t.recordBytes == |s.Record()|
  {
    var kept := EveryNth(taken, t.divider);
    var l := kept[|kept| - 1];
    assert l in taken + [s] && s in taken + [s];
  }

  /** A kept status. */
  lemma KeepConserves(t: Tele, taken: seq<Status>, s: Status, now: nat)
    requires Conserved(t, taken) && s.Valid() && now < TWO_32 && t.decimate + 1 == t.divider
    requires MapFixesLength(taken + [s])
    ensures Conserved(Serve(t, Fresh(s), now), taken + [s])
  {
    hide Flush, Store, Unpacked, Chunks, EveryNth, Records, MapFixesLength, Held, HeldLike;
    EveryNthStep(taken, s, t.divider);
    RecordsSnoc(EveryNth(taken, t.divider), s);
    if t.held > 0 && s.MapVersion() == t.mapVersion { SameSize(t, taken, s); }
    KeepAdds(t, s, now);
  }

  /** Serving a kept status adds its record, in whatever way the buffer is flushed. */
  lemma KeepAdds(t: Tele, s: Status, now: nat)
    requires t.Valid() && Sized(t) && NeverMixed(t) && s.Valid() && now < TWO_32 && t.decimate + 1 == t.divider
    requires t.held > 0 && s.MapVersion() == t.mapVersion ==> t.recordBytes == |s.Record()|
    ensures var u := Serve(t, Fresh(s), now);
      && Sized(u) && NeverMixed(u) && u.decimate == 0 && All(u) == All(t) + [s.Record()]
      && (u.held > 0 ==> HeldLike(u, s))
  {
    hide Flush, Store, FlushOnRemap, FlushIfFull, NeverMixed, All, HeldLike;
    var t0 := t.(decimate := 0);
    ResetDecimate(t);
    RemapKeeps(t0, s);
    var t1 := FlushOnRemap(t0, s);
    StoreKeeps(t1, s);
    StoreLike(t1, s);
    var t2 := Store(t1, s);
    FillKeeps(t2);
    SetKeepalive(FlushIfFull(t2), now, s);
  }

  lemma ResetDecimate(t: Tele)
    requires t.Valid() && Sized(t) && NeverMixed(t)
    ensures var u := t.(decimate := 0); u.Valid() && Sized(u) && NeverMixed(u) && All(u) == All(t)
  {
  }

  lemma SetKeepalive(t: Tele, now: nat, s: Status)
    requires t.Valid() && Sized(t) && NeverMixed(t) && now < TWO_32
    ensures var u := t.(lastKeepalive := now);
      u.Valid() && Sized(u) && NeverMixed(u) && All(u) == All(t) && (HeldLike(u, s) <==> HeldLike(t, s))
  {
  }

  lemma FillKeeps(t: Tele)
    requires Sized(t) && NeverMixed(t) && t.held <= t.batch && t.(held := 0).Valid()
    ensures var u := FlushIfFull(t);
      Sized(u) && NeverMixed(u) && All(u) == All(t) && (u.held > 0 ==> u == t) && u.Valid() && u.decimate == t.decimate
  {
    hide Flush, Unpacked, Chunks, Held;
    FlushKeeps(t);
    FlushEmpties(t);
  }

  lemma FlushEmpties(t: Tele)
    requires Sized(t)
    ensures Flush(t).held == 0 && Flush(t).decimate == t.decimate && Flush(t).txSeq < 0x1_0000
    ensures t.(held := 0).Valid() ==> Flush(t).Valid()
  {
  }

  lemma RemapKeeps(t: Tele, s: Status)
    requires t.Valid() && s.Valid() && Sized(t) && NeverMixed(t)
    ensures var u := FlushOnRemap(t, s);
      && Sized(u) && All(u) == All(t) && NeverMixed(u) && u.Valid() && u.decimate == t.decimate && u.divider == t.divider
      && (u.held > 0 ==> u == t && t.mapVersion == s.MapVersion())
  {
    hide Unpacked, Chunks, Held;
    FlushOnRemapValid(t, s);
    FlushKeeps(t);
  }

  lemma StoreLike(t: Tele, s: Status)
    requires t.Valid() && s.Valid()
    ensures var u := Store(t, s);
      HeldLike(u, s) && u.divider == t.divider && u.decimate == t.decimate && u.held == t.held + 1 && u.batch == t.batch
      && u.(held := 0).Valid()
  {
  }

  lemma EveryNthStep(taken: seq<Status>, s: Status, n: nat)
    requires n > 0
    ensures EveryNth(taken + [s], n)
         == if |taken| % n + 1 == n then EveryNth(taken, n) + [s] else EveryNth(taken, n)
    ensures (|taken| + 1) % n == if |taken| % n + 1 == n then 0 else |taken| % n + 1
  {
    assert (taken + [s])[..|taken|] == taken;
    ModStep(|taken|, n);
  }

  lemma ModStep(k: nat, n: nat)
    requires n > 0
    ensures (k + 1) % n == if k % n + 1 == n then 0 else k % n + 1
  {
    var q, r := k / n, k % n;
    var q1, r1 := (k + 1) / n, (k + 1) % n;
    assert n * (q1 - q) == r + 1 - r1 by {
      assert k == n * q + r && k + 1 == n * q1 + r1;
    }
    Multiple(n, q1 - q);
  }

  lemma Multiple(n: nat, d: int)
    ensures d >= 1 ==> n * d >= n
    ensures d <= -1 ==> n * d + n <= 0
  {
  }

  lemma SkipConserves(t: Tele, taken: seq<Status>, s: Status, now: nat)
    requires Conserved(t, taken) && s.Valid() && now < TWO_32 && t.decimate + 1 < t.divider
    ensures Conserved(Serve(t, Fresh(s), now), taken + [s])
  {
    hide Unpacked, Chunks, EveryNth, Records;
    EveryNthStep(taken, s, t.divider);
    var u := t.(decimate := t.decimate + 1);
    assert Sized(u) && Held(u) == Held(t);
  }

  lemma QuietConserves(t: Tele, taken: seq<Status>, now: nat)
    requires Conserved(t, taken) && now < TWO_32
    ensures Conserved(Serve(t, Quiet, now), taken)
  {
    hide Unpacked, Chunks, EveryNth, Records;
    var d := Datagram(t.txSeq, t.mapVersion, 0, 0, []);
    AppendSent(t.sent, d);
    NoChunks([], 0);
    var u := Serve(t, Quiet, now);
    assert u.sent == t.sent || u.sent == t.sent + [d];
    assert Sized(u) && Held(u) == Held(t);
  }

  /** A subscription as handle_subscribe leaves it. */
  ghost predicate Subscribed(t: Tele) {
    t.Valid() && t.decimate == 0 && t.held == 0 && t.sent == [] && t.txSeq == 0
  }

  /**
   * Conservation: whatever statuses arrive and whenever the link is quiet, the records a
   * receiver unpacks from the datagrams, followed by those still held, are exactly every
   * rate_divider-th status of the subscription, each once and in order, and no datagram
   * mixes map versions, provided the map version determines the blob length.
   */
  lemma {:induction false} TelemetryConserved(t: Tele, run: seq<Step>)
    requires Subscribed(t) && ValidRun(t, run) && MapFixesLength(Taken(run))
    ensures Conserved(After(t, run), Taken(run))
  {
    hide Serve, Conserved;
    if run == [] {
      StartConserved(t);
    } else {
      var before, last := run[..|run| - 1], run[|run| - 1];
      assert last.Valid();
      match last.input
      case Fresh(s) =>
        FewerStatuses(Taken(before), s);
        TelemetryConserved(t, before);
        FreshConserves(After(t, before), Taken(before), s, last.now);
      case Quiet =>
        TelemetryConserved(t, before);
        QuietConserves(After(t, before), Taken(before), last.now);
    }
  }

  lemma FreshConserves(t: Tele, taken: seq<Status>, s: Status, now: nat)
    requires Conserved(t, taken) && s.Valid() && now < TWO_32 && MapFixesLength(taken + [s])
    ensures Conserved(Serve(t, Fresh(s), now), taken + [s])
  {
    hide Serve;
    if t.decimate + 1 < t.divider {
      SkipConserves(t, taken, s, now);
    } else {
      KeepConserves(t, taken, s, now);
    }
  }

  lemma StartConserved(t: Tele)
    requires Subscribed(t)
    ensures Conserved(t, [])
  {
  }

  lemma FewerStatuses(taken: seq<Status>, s: Status)
    requires MapFixesLength(taken + [s])
    ensures MapFixesLength(taken)
  {
    assert forall a :: a in taken ==> a in taken + [s];
  }

  /** The datagrams are numbered with the running transmit counter. */
  ghost predicate Numbered(t: Tele) {
    t.txSeq == |t.sent| % 0x1_0000 && forall i :: 0 <= i < |t.sent| ==> t.sent[i].sequence == i % 0x1_0000
  }

  /** Datagram numbers count up from zero, modulo 2^16. */
  lemma {:induction false} DatagramsNumbered(t: Tele, run: seq<Step>)
    requires Subscribed(t) && ValidRun(t, run)
    ensures Numbered(After(t, run))
  {
    if run != [] {
      var before, last := run[..|run| - 1], run[|run| - 1];
      DatagramsNumbered(t, before);
      assert last.Valid();
      ServeNumbers(After(t, before), last.input, last.now);
    }
  }

  /** The datagram emit_telemetry sends. */
  function Encoded(d: Datagram): seq<byte>
    requires d.sequence < 0x1_0000 && d.count < 256 && d.recordBytes < 256 && |d.records| <= BUF_BYTES
  {
    Bridge.Header(0x20, d.sequence, 4 + |d.records|) + ([d.mapVersion, ByteOf(d.count), ByteOf(d.recordBytes), 0] + d.records)
  }

  /** The PC reads of every datagram what was put into it. */
  lemma DatagramsAreHeard(d: Datagram)
    requires d.sequence < 0x1_0000 && d.count < 256 && d.recordBytes < 256
    requires |d.records| == d.count * d.recordBytes <= BUF_BYTES
    ensures PC.Hear(Encoded(d)) == PC.Samples(d.sequence, d.mapVersion, d.count, d.recordBytes, d.records)
  {
    hide ByteOf, Bridge.Header, PC.Hear, Value;
    var p := [d.mapVersion, ByteOf(d.count), ByteOf(d.recordBytes), 0] + d.records;
    Bridge.WrappedIsHeard(0x20, d.sequence, p);
    ValueOfByteOf(d.count);
    ValueOfByteOf(d.recordBytes);
    assert p[4..] == d.records;
  }

  // ----- Keepalive -----

  /** od_ticks at these times that find no status. */
  function QuietRun(times: seq<nat>): (run: seq<Step>)
    ensures |run| == |times|
  {
    seq(|times|, i requires 0 <= i < |times| => Step(Quiet, Clock(times[i])))
  }

  /** The times follow each other, from since on, at most a second apart. */
  predicate Often(since: nat, times: seq<nat>) {
    times == [] ||
    var m := |times| - 1;
    Often(since, times[..m]) && 0 <= times[m] - LastTime(since, times[..m]) <= 1000
  }

  function LastTime(since: nat, times: seq<nat>): nat { if times == [] then since else times[|times| - 1] }

  /** While no status comes, an empty datagram goes out for every full second, and nothing else,
      across the wrap of the clock and with the jitter of the ticks not adding up. */
  lemma {:induction false} KeepaliveEverySecond(t: Tele, since: nat, times: seq<nat>)
    requires t.Valid() && t.lastKeepalive == Clock(since) && Often(since, times)
    ensures LastTime(since, times) >= since && ValidRun(t, QuietRun(times))
    ensures var u, n := After(t, QuietRun(times)), (LastTime(since, times) - since) / 1000;
      && |u.sent| == |t.sent| + n && u.sent[..|t.sent|] == t.sent
      && (forall i :: |t.sent| <= i < |u.sent| ==> u.sent[i].count == 0 && u.sent[i].records == [])
      && u.lastKeepalive == Clock(since + 1000 * n) && u.held == t.held && u.buf == t.buf
  {
    hide Serve, Clock;
    if times == [] {
      assert QuietRun(times) == [];
    } else {
      var m := |times| - 1;
      hide After, QuietRun;
      KeepaliveEverySecond(t, since, times[..m]);
      QuietPrefix(t, times);
      var u, p := After(t, QuietRun(times[..m])), LastTime(since, times[..m]);
      SecondsPass(since, p, times[m]);
      QuietServe(u, since + 1000 * ((p - since) / 1000), times[m]);
    }
  }

  lemma QuietPrefix(t: Tele, times: seq<nat>)
    requires t.Valid() && times != []
    ensures var m := |times| - 1;
      && ValidRun(t, QuietRun(times)) && ValidRun(t, QuietRun(times[..m]))
      && After(t, QuietRun(times)) == Serve(After(t, QuietRun(times[..m])), Quiet, Clock(times[m]))
  {
    hide Serve, Clock;
    var m := |times| - 1;
    assert QuietRun(times)[..m] == QuietRun(times[..m]);
  }

  lemma SecondsPass(since: nat, before: nat, now: nat)
    requires since <= before <= now <= before + 1000
    ensures var n, k := (before - since) / 1000, (now - since) / 1000;
      since + 1000 * n <= now < since + 1000 * n + 2000 && k == if now >= since + 1000 * n + 1000 then n + 1 else n
  {
  }

  lemma QuietServe(t: Tele, since: nat, now: nat)
    requires t.Valid() && t.lastKeepalive == Clock(since) && since <= now < since + 2000
    ensures var u := Serve(t, Quiet, Clock(now));
      u == if now >= since + 1000 then
             t.(sent := t.sent + [Datagram(t.txSeq, t.mapVersion, 0, 0, [])], txSeq := (t.txSeq + 1) % 0x1_0000,
                lastKeepalive := Clock(since + 1000))
           else t
  {
    hide Clock;
    ElapsedIsReal(since, now);
    SameReading(now);
    AddedReading(since, KEEPALIVE_MS);
  }

  lemma SameReading(now: nat)
    ensures Clock(Clock(now)) == Clock(now)
  {
  }

  lemma AddedReading(since: nat, d: nat)
    ensures (Clock(since) + d) % TWO_32 == Clock(since + d)
  {
  }

  lemma EmitNumbers(t: Tele, count: nat, size: nat, records: seq<byte>)
    requires Numbered(t)
    ensures Numbered(Emit(t, count, size, records))
  {
  }

  lemma ServeNumbers(t: Tele, input: Input, now: nat)
    requires t.Valid() && now < TWO_32 && (input.Fresh? ==> input.status.Valid()) && Numbered(t)
    ensures Numbered(Serve(t, input, now))
  {
    hide Numbered, Emit, Store;
    match input
    case Quiet =>
      EmitNumbers(t, 0, 0, []);
      NumberedKeeps(t, Serve(t, input, now));
      NumberedKeeps(Emit(t, 0, 0, []), Serve(t, input, now));
    case Fresh(s) =>
      var t0 := t.(decimate := 0);
      NumberedKeeps(t, t.(decimate := t.decimate + 1));
      NumberedKeeps(t, t0);
      FlushNumbers(t0);
      FlushOnRemapValid(t0, s);
      var t2 := Store(FlushOnRemap(t0, s), s);
      StoreSends(FlushOnRemap(t0, s), s);
      StoreLike(FlushOnRemap(t0, s), s);
      NumberedKeeps(FlushOnRemap(t0, s), t2);
      FlushNumbers(t2);
      NumberedKeeps(FlushIfFull(t2), FlushIfFull(t2).(lastKeepalive := now));
  }

  lemma NumberedKeeps(t: Tele, u: Tele)
    requires Numbered(t)
    ensures u.txSeq == t.txSeq && u.sent == t.sent ==> Numbered(u)
  {
  }

  lemma FlushNumbers(t: Tele)
    requires t.held <= BATCH_MAX && t.recordBytes <= RECORD_BYTES_MAX && |t.buf| == BUF_BYTES && Numbered(t)
    ensures Numbered(Flush(t))
  {
    hide Numbered;
    InBuffer(t.held, t.recordBytes);
    var e := Emit(t, t.held, t.recordBytes, t.buf[..t.held * t.recordBytes]);
    EmitNumbers(t, t.held, t.recordBytes, t.buf[..t.held * t.recordBytes]);
    NumberedKeeps(e, e.(held := 0));
  }

  lemma StoreSends(t: Tele, s: Status)
    requires t.Valid() && s.Valid()
    ensures Store(t, s).txSeq == t.txSeq && Store(t, s).sent == t.sent
  {
  }

  // ----- Records of different lengths -----

  lemma {:induction false} ChunkLengths(bytes: seq<byte>, size: nat, n: nat, i: nat)
    requires n * size <= |bytes| && i < n
    ensures |Chunks(bytes, size, n)[i]| == size
  {
    Fits(n, size);
    if i < n - 1 { ChunkLengths(bytes, size, n - 1, i); }
  }

  /** The proviso is exact: a kept sample is added to what the receiver will unpack, and
      nothing else changes, if and only if nothing was held or its record is as long as the
      held ones. */
  lemma WrongLengthGarbles(t: Tele, s: Status)
    requires t.Valid() && s.Valid() && Sized(t)
    ensures var u := Store(t, s);
      Sized(u) && (All(u) == All(t) + [s.Record()] <==> t.held == 0 || t.recordBytes == |s.Record()|)
  {
    hide Unpacked, Chunks, Overwrite;
    var size := |s.Record()|;
    InBuffer(t.held, size);
    InBuffer(t.held, t.recordBytes);
    InBuffer(t.held + 1, size);
    Fits(t.held + 1, size);
    var u := Store(t, s);
    if t.held == 0 || t.recordBytes == size {
      HeldGrows(t, u, s.Record());
    } else {
      ChunkLengths(t.buf, t.recordBytes, t.held, 0);
      ChunkLengths(u.buf, size, t.held + 1, 0);
      var n := |Unpacked(t.sent)|;
      assert All(u)[n] == Held(u)[0] && (All(t) + [s.Record()])[n] == Held(t)[0];
    }
  }

  lemma AfterTwo(t: Tele, a: Step, b: Step)
    requires t.Valid() && a.Valid() && b.Valid()
    ensures ValidRun(t, [a, b]) && After(t, [a, b]) == Serve(Serve(t, a.input, a.now), b.input, b.now)
  {
    hide Serve;
    assert [a, b][..1] == [a] && [a][..0] == [];
    assert After(t, [a]) == Serve(t, a.input, a.now);
  }

  /** A kept status that meets no other map version: the receiver sees what the store made. */
  lemma KeptAlone(t: Tele, s: Status, now: nat)
    requires t.Valid() && s.Valid() && Sized(t) && t.divider == 1 && now < TWO_32
    requires t.held == 0 || s.MapVersion() == t.mapVersion
    ensures var u, v := Serve(t, Fresh(s), now), Store(t, s);
      && Sized(u) && Sized(v) && All(u) == All(v)
      && (t.held + 1 < t.batch ==> u == v.(lastKeepalive := now))
  {
    hide All, Overwrite, Unpacked, Chunks, Flush, Emit;
    assert t.(decimate := 0) == t;
    StoredParts(t, s);
    var v := Store(t, s);
    assert Sized(v);
    if v.held >= v.batch {
      FlushMoves(v);
      SameAll(Flush(v), Flush(v).(lastKeepalive := now));
    } else {
      SameAll(v, v.(lastKeepalive := now));
    }
  }

  /** The failing input: two statuses with records of different lengths in one batch, under
      one map version. What the receiver unpacks is not what was taken. */
  lemma TwoLengthsGarble(t: Tele, first: Status, second: Status, now: nat)
    requires Subscribed(t) && t.divider == 1 && t.batch >= 2 && now < TWO_32
    requires first.Valid() && second.Valid() && first.MapVersion() == second.MapVersion() && |first.blob| != |second.blob|
    ensures var u := After(t, [Step(Fresh(first), now), Step(Fresh(second), now)]);
      Sized(u) && All(u) != [first.Record(), second.Record()]
  {
    hide Unpacked, Chunks, Overwrite, All, Held, Flush, Store, Serve, After;
    AfterTwo(t, Step(Fresh(first), now), Step(Fresh(second), now));
    EmptyAll(t);
    KeptAlone(t, first, now);
    StoredParts(t, first);
    WrongLengthGarbles(t, first);
    var b := Serve(t, Fresh(first), now);
    KeptAlone(b, second, now);
    WrongLengthGarbles(b, second);
    assert [] + [first.Record()] + [second.Record()] == [first.Record(), second.Record()];
  }

  lemma StoredParts(t: Tele, s: Status)
    requires t.Valid() && s.Valid()
    ensures var u := Store(t, s);
      u == t.(mapVersion := s.MapVersion(), recordBytes := |s.Record()|, held := t.held + 1, buf := u.buf)
  {
  }

  lemma EmptyAll(t: Tele)
    requires Sized(t) && t.sent == [] && t.held == 0
    ensures All(t) == []
  {
  }

  lemma SameAll(t: Tele, u: Tele)
    requires Sized(t) && u == t.(lastKeepalive := u.lastKeepalive)
    ensures Sized(u) && All(u) == All(t)
  {
  }

  // ----- The exact condition over a subscription -----

  /** The step stores a kept status beside held records of another length. */
  ghost predicate Garbles(t: Tele, e: Step)
    requires e.Valid()
  {
    && e.input.Fresh? && t.decimate + 1 >= t.divider
    && t.held > 0 && e.input.status.MapVersion() == t.mapVersion && t.recordBytes != |e.input.status.Record()|
  }

  ghost predicate EverGarbles(t: Tele, run: seq<Step>)
    requires ValidRun(t, run)
  {
    run != [] && (EverGarbles(t, run[..|run| - 1]) || Garbles(After(t, run[..|run| - 1]), run[|run| - 1]))
  }

  /** Some record sent has the wrong length, or two of the records held, which are read back
      with one length, have different ones. */
  ghost predicate Spoiled(out: seq<seq<byte>>, kept: seq<Status>) {
    || (exists i :: 0 <= i < |out| && i < |kept| && |out[i]| != |kept[i].Record()|)
    || (exists i, j :: |out| <= i < j < |kept| && |kept[i].Record()| != |kept[j].Record()|)
  }

  ghost predicate Accounts(t: Tele, kept: seq<Status>, spoiled: bool) {
    && Sized(t) && |Unpacked(t.sent)| + t.held == |kept|
    && (t.held > 0 ==> t.recordBytes == |kept[|kept| - 1].Record()|)
    && (if spoiled then Spoiled(Unpacked(t.sent), kept) else All(t) == Records(kept))
  }

  lemma HeldLengths(t: Tele, i: nat)
    requires Sized(t) && i < t.held
    ensures |Held(t)| == t.held && |Held(t)[i]| == t.recordBytes
  {
    InBuffer(t.held, t.recordBytes);
    ChunkLengths(t.buf, t.recordBytes, t.held, i);
  }

  /** Records of one length behind those sent leave what is spoiled spoiled. */
  lemma SpoiledMoves(out: seq<seq<byte>>, held: seq<seq<byte>>, kept: seq<Status>, size: nat)
    requires Spoiled(out, kept) && |out| + |held| == |kept| && forall i :: 0 <= i < |held| ==> |held[i]| == size
    ensures Spoiled(out + held, kept)
  {
    var all := out + held;
    if i :| 0 <= i < |out| && |out[i]| != |kept[i].Record()| {
      assert all[i] == out[i];
    } else {
      var i, j :| |out| <= i < j < |kept| && |kept[i].Record()| != |kept[j].Record()|;
      assert all[i] == held[i - |out|] && all[j] == held[j - |out|];
      assert |all[i]| != |kept[i].Record()| || |all[j]| != |kept[j].Record()|;
    }
  }

  lemma SpoiledDiffers(out: seq<seq<byte>>, kept: seq<Status>)
    requires Spoiled(out, kept) && |out| == |kept|
    ensures out != Records(kept)
  {
    var i :| 0 <= i < |out| && |out[i]| != |kept[i].Record()|;
    assert Records(kept)[i] == kept[i].Record();
  }

  lemma SpoiledStays(out: seq<seq<byte>>, kept: seq<Status>, s: Status)
    requires Spoiled(out, kept) && |out| <= |kept|
    ensures Spoiled(out, kept + [s])
  {
    var more := kept + [s];
    if i :| 0 <= i < |out| && |out[i]| != |kept[i].Record()| {
      assert more[i] == kept[i];
    } else {
      var i, j :| |out| <= i < j < |kept| && |kept[i].Record()| != |kept[j].Record()|;
      assert more[i] == kept[i] && more[j] == kept[j];
    }
  }

  /** So what the receiver unpacks is not what was kept. */
  lemma AccountsDecide(t: Tele, kept: seq<Status>, spoiled: bool)
    requires Accounts(t, kept, spoiled)
    ensures All(t) == Records(kept) <==> !spoiled
  {
    hide Unpacked, Held, Spoiled;
    if spoiled {
      forall i | 0 <= i < t.held ensures |Held(t)| == t.held && |Held(t)[i]| == t.recordBytes { HeldLengths(t, i); }
      HeldCount(t);
      SpoiledMoves(Unpacked(t.sent), Held(t), kept, t.recordBytes);
      SpoiledDiffers(All(t), kept);
    }
  }

  lemma HeldCount(t: Tele)
    requires Sized(t)
    ensures |Held(t)| == t.held
  {
    InBuffer(t.held, t.recordBytes);
  }

  lemma AccountsFlush(t: Tele, kept: seq<Status>, spoiled: bool)
    requires Accounts(t, kept, spoiled)
    ensures Accounts(Flush(t), kept, spoiled)
  {
    hide Unpacked, Held, Spoiled, Flush;
    FlushMoves(t);
    FlushEmpties(t);
    HeldCount(t);
    assert Unpacked(Flush(t).sent) + [] == Unpacked(Flush(t).sent);
    if spoiled {
      forall i | 0 <= i < t.held ensures |Held(t)[i]| == t.recordBytes { HeldLengths(t, i); }
      SpoiledMoves(Unpacked(t.sent), Held(t), kept, t.recordBytes);
    }
  }

  lemma AccountsStore(t: Tele, kept: seq<Status>, spoiled: bool, s: Status)
    requires t.Valid() && s.Valid() && Accounts(t, kept, spoiled)
    ensures Accounts(Store(t, s), kept + [s], spoiled || (t.held > 0 && t.recordBytes != |s.Record()|))
  {
    hide Unpacked, Held, Spoiled, Store, Records, All;
    StoredParts(t, s);
    WrongLengthGarbles(t, s);
    RecordsSnoc(kept, s);
    if spoiled {
      SpoiledStays(Unpacked(t.sent), kept, s);
    } else if t.held > 0 && t.recordBytes != |s.Record()| {
      TwoLengthsSpoil(Unpacked(t.sent), kept, s);
    }
  }

  lemma TwoLengthsSpoil(out: seq<seq<byte>>, kept: seq<Status>, s: Status)
    requires |out| < |kept| && |kept[|kept| - 1].Record()| != |s.Record()|
    ensures Spoiled(out, kept + [s])
  {
    var more, n := kept + [s], |kept|;
    assert more[n - 1] == kept[n - 1] && more[n] == s;
    assert |out| <= n - 1 < n < |more| && |more[n - 1].Record()| != |more[n].Record()|;
  }

  lemma AccountsSame(t: Tele, u: Tele, kept: seq<Status>, spoiled: bool)
    requires Accounts(t, kept, spoiled) && u.sent == t.sent && u.held == t.held && u.recordBytes == t.recordBytes && u.buf == t.buf
    ensures Accounts(u, kept, spoiled)
  {
  }

  /** One step of the subscription. */
  lemma AccountsServe(t: Tele, e: Step, kept: seq<Status>, spoiled: bool)
    requires t.Valid() && e.Valid() && Accounts(t, kept, spoiled)
    ensures var more := if e.input.Fresh? && t.decimate + 1 >= t.divider then kept + [e.input.status] else kept;
      Accounts(Serve(t, e.input, e.now), more, spoiled || Garbles(t, e))
  {
    hide Accounts, Flush, Store, Emit, FlushOnRemap, FlushIfFull;
    match e.input
    case Quiet => AccountsQuiet(t, e.now, kept, spoiled);
    case Fresh(s) =>
      if t.decimate + 1 < t.divider {
        AccountsSame(t, t.(decimate := t.decimate + 1), kept, spoiled);
      } else {
        AccountsKeep(t, s, e.now, kept, spoiled);
      }
  }

  lemma AccountsQuiet(t: Tele, now: nat, kept: seq<Status>, spoiled: bool)
    requires t.Valid() && now < TWO_32 && Accounts(t, kept, spoiled)
    ensures Accounts(Serve(t, Quiet, now), kept, spoiled)
  {
    hide Unpacked, Chunks, Spoiled, Records;
    var d := Datagram(t.txSeq, t.mapVersion, 0, 0, []);
    AppendSent(t.sent, d);
    NoChunks([], 0);
    var u := Serve(t, Quiet, now);
    assert Unpacked(t.sent) + [] == Unpacked(t.sent);
    assert u.sent == t.sent || u.sent == t.sent + [d];
    assert Sized(u) && Held(u) == Held(t);
  }

  lemma AccountsKeep(t: Tele, s: Status, now: nat, kept: seq<Status>, spoiled: bool)
    requires t.Valid() && s.Valid() && now < TWO_32 && t.decimate + 1 >= t.divider && Accounts(t, kept, spoiled)
    ensures Accounts(Serve(t, Fresh(s), now), kept + [s], spoiled || Garbles(t, Step(Fresh(s), now)))
  {
    hide Accounts, Flush, Store;
    var t0 := t.(decimate := 0);
    AccountsSame(t, t0, kept, spoiled);
    AccountsSized(t0, kept, spoiled);
    AccountsFlush(t0, kept, spoiled);
    FlushOnRemapValid(t0, s);
    FlushEmpties(t0);
    var t1 := FlushOnRemap(t0, s);
    AccountsStore(t1, kept, spoiled, s);
    var t2, more := Store(t1, s), spoiled || (t1.held > 0 && t1.recordBytes != |s.Record()|);
    AccountsSized(t2, kept + [s], more);
    AccountsFlush(t2, kept + [s], more);
    AccountsSame(FlushIfFull(t2), FlushIfFull(t2).(lastKeepalive := now), kept + [s], more);
  }

  lemma AccountsSized(t: Tele, kept: seq<Status>, spoiled: bool)
    requires Accounts(t, kept, spoiled)
    ensures Sized(t)
  {
  }

  /** The exact condition: in every subscription the records sent and held are the kept
      statuses, in order, if and only if none was ever stored beside held ones of another
      length; one that was spoils the stream for good. */
  lemma TelemetryExact(t: Tele, run: seq<Step>)
    requires Subscribed(t) && ValidRun(t, run)
    ensures var u := After(t, run);
      Sized(u) && (All(u) == Records(EveryNth(Taken(run), t.divider)) <==> !EverGarbles(t, run))
  {
    hide Accounts, All, EverGarbles, Records, EveryNth, After;
    EveryRunAccounts(t, run);
    var kept := EveryNth(Taken(run), t.divider);
    AccountsSized(After(t, run), kept, EverGarbles(t, run));
    AccountsDecide(After(t, run), kept, EverGarbles(t, run));
  }

  lemma {:induction false} EveryRunAccounts(t: Tele, run: seq<Step>)
    requires Subscribed(t) && ValidRun(t, run)
    ensures Accounts(After(t, run), EveryNth(Taken(run), t.divider), EverGarbles(t, run))
    ensures After(t, run).decimate == |Taken(run)| % t.divider
    decreases |run|
  {
    hide Serve, Accounts, Garbles, EveryNth;
    if run == [] {
      NothingAccounted(t);
    } else {
      var before, last := run[..|run| - 1], run[|run| - 1];
      EveryRunAccounts(t, before);
      assert last.Valid();
      var u, taken := After(t, before), Taken(before);
      AccountsServe(u, last, EveryNth(taken, t.divider), EverGarbles(t, before));
      ServeCounts(u, last);
      if last.input.Fresh? { EveryNthStep(taken, last.input.status, t.divider); }
    }
  }

  lemma ServeCounts(t: Tele, e: Step)
    requires t.Valid() && e.Valid()
    ensures Serve(t, e.input, e.now).decimate ==
      if e.input.Fresh? then if t.decimate + 1 < t.divider then t.decimate + 1 else 0 else t.decimate
  {
    hide Flush;
    if e.input.Fresh? {
      var t0 := t.(decimate := 0);
      FlushOnRemapValid(t0, e.input.status);
      FlushKeepsCount(t0);
      StoreLike(FlushOnRemap(t0, e.input.status), e.input.status);
      FlushKeepsCount(Store(FlushOnRemap(t0, e.input.status), e.input.status));
    }
  }

  lemma FlushKeepsCount(t: Tele)
    requires t.held <= BATCH_MAX && t.recordBytes <= RECORD_BYTES_MAX && |t.buf| == BUF_BYTES
    ensures Flush(t).decimate == t.decimate
  {
  }

  lemma NothingAccounted(t: Tele)
    requires Subscribed(t)
    ensures Accounts(t, EveryNth([], t.divider), false) && t.decimate == 0 % t.divider
  {
  }
}
