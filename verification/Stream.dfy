/**
 * The stream parser of app/controller_mgr: frames arrive over TCP cut into arbitrary
 * pieces, collect in a 1024-byte buffer and are dispatched as soon as they are whole.
 */
module Stream {
  import opened Bytes
  import opened Camerad

  const RX_BUF_SIZE := 1024

  /** A dispatched command. */
  datatype Frame = Frame(header: Header, body: seq<byte>)

  /** Outcome of parsing a buffer: what is dispatched, what stays, and whether a header was
      refused, which throws the rest of the buffer away. */
  datatype Parsed = Parsed(frames: seq<Frame>, rest: seq<byte>, ok: bool)

  /** The first bytes of buf are a whole acceptable frame. */
  predicate Whole(buf: seq<byte>) {
    |buf| >= HEADER_SIZE && HeaderOk(buf) && LengthField(buf) <= |buf|
  }

  /** The first bytes of buf can never become a frame. */
  predicate Refused(buf: seq<byte>) { |buf| >= HEADER_SIZE && !HeaderOk(buf) }

  function FrameAt(buf: seq<byte>): Frame
    requires Whole(buf)
  {
    Frame(Fields(buf), buf[HEADER_SIZE..LengthField(buf)])
  }

  function Parse(buf: seq<byte>): Parsed
    decreases |buf|
  {
    if Refused(buf) then Parsed([], [], false)
    else if !Whole(buf) then Parsed([], buf, true)
    else
      var p := Parse(buf[LengthField(buf)..]);
      p.(frames := [FrameAt(buf)] + p.frames)
  }

  class Listener {
    const rxBuf: array<byte>
    var pending: nat
    // The commands handed to handle_command so far.
    var dispatched: seq<Frame>

    ghost predicate Valid()
      reads this
    {
      rxBuf.Length == RX_BUF_SIZE && pending <= RX_BUF_SIZE
    }

    ghost function Buffered(): seq<byte>
      requires Valid()
      reads this, rxBuf
    {
      rxBuf[..pending]
    }

    constructor ()
      ensures Valid() && fresh(rxBuf) && Buffered() == [] && dispatched == []
    {
      rxBuf := new byte[RX_BUF_SIZE];
      pending, dispatched := 0, [];
    }

    /** The closed-connection branch of service_tcp_listener_slot. */
    method Closed()
      requires Valid()
      modifies `pending
      ensures Valid() && Buffered() == []
    {
      pending := 0;
    }

    /** net_recv into the free part of the buffer. */
    method Receive(chunk: seq<byte>)
      requires Valid() && pending + |chunk| <= RX_BUF_SIZE
      modifies `pending, rxBuf
      ensures Valid() && Buffered() == old(Buffered()) + chunk
    {
      for i := 0 to |chunk|
        modifies rxBuf
        invariant rxBuf[..pending] == old(rxBuf[..pending])
        invariant rxBuf[pending..pending + i] == chunk[..i]
      {
        rxBuf[pending + i] := chunk[i];
      }
      pending := pending + |chunk|;
      assert rxBuf[..pending] == rxBuf[..old(pending)] + rxBuf[old(pending)..pending];
    }

    /** The parse loop. On a refused header everything buffered is dropped. */
    method Dispatch() returns (offset: nat, ok: bool)
      requires Valid()
      modifies `pending, `dispatched
      ensures Valid()
      ensures var p := Parse(old(Buffered()));
        && ok == p.ok && dispatched == old(dispatched) + p.frames
        && (ok ==> pending == old(pending) && offset <= pending && rxBuf[offset..pending] == p.rest)
        && (!ok ==> pending == 0)
    {
      hide Fields, LengthField, HeaderOk, ParseHeader, Parse;
      ghost var b := Buffered();
      assert b[0..] == b;
      offset := 0;
      ok := true;
      while pending - offset >= HEADER_SIZE
        invariant Valid() && pending == old(pending) && offset <= pending
        invariant dispatched + Parse(b[offset..]).frames == old(dispatched) + Parse(b).frames
        invariant Parse(b[offset..]).rest == Parse(b).rest && Parse(b[offset..]).ok == Parse(b).ok
      {
        assert rxBuf[offset..pending] == b[offset..];
        var buf := rxBuf[offset..pending];
        var h := ParseHeader(buf);
        ParseStep(buf);
        if h == None {
          pending := 0;
          ok := false;
          return;
        }
        if h.value.messageLength > pending - offset { break; }
        var body := rxBuf[offset + HEADER_SIZE..offset + h.value.messageLength];
        Slice(rxBuf[..], offset, pending, HEADER_SIZE, h.value.messageLength);
        assert rxBuf[..][offset..pending] == buf && rxBuf[..][offset + HEADER_SIZE..offset + h.value.messageLength] == body;
        dispatched := dispatched + [Frame(h.value, body)];
        offset := offset + h.value.messageLength;
        assert buf[LengthField(buf)..] == b[offset..];
      }
      assert rxBuf[offset..pending] == b[offset..];
      ParseStep(b[offset..]);
    }

    /** The memmove that brings the unparsed bytes to the front. */
    method Compact(offset: nat)
      requires Valid() && offset <= pending
      modifies `pending, rxBuf
      ensures Valid() && Buffered() == old(rxBuf[offset..pending])
    {
      for i := 0 to pending - offset
        modifies rxBuf
        invariant rxBuf[..i] == old(rxBuf[offset..offset + i])
        invariant forall k :: i <= k < RX_BUF_SIZE ==> rxBuf[k] == old(rxBuf[k])
      {
        rxBuf[i] := rxBuf[offset + i];
      }
      pending := pending - offset;
    }

    /** service_tcp_listener_slot on an established connection, chunk being what net_recv
        delivered, at most the free space it was offered. */
    method Service(chunk: seq<byte>)
      requires Valid() && pending + |chunk| <= RX_BUF_SIZE
      modifies this, rxBuf
      ensures Valid()
      ensures var p := Parse(old(Buffered()) + chunk);
        dispatched == old(dispatched) + p.frames && Buffered() == p.rest
    {
      if pending < RX_BUF_SIZE { Receive(chunk); }
      ghost var b := Buffered();
      assert b == old(Buffered()) + chunk;
      RestIsShort(b);
      var offset, ok := Dispatch();
      if !ok { return; }
      if offset > 0 { Compact(offset); }
      // The overflow branch that follows in the source is dead: fewer than MAX_FRAME_SIZE
      // bytes are ever left.
      assert pending < MAX_FRAME_SIZE;
    }
  }

  /** The header test of the loop, and the step of the parse it stands for. */
  lemma ParseStep(buf: seq<byte>)
    ensures |buf| >= HEADER_SIZE ==> (ParseHeader(buf) == None <==> Refused(buf))
    ensures ParseHeader(buf) != None ==> ParseHeader(buf).value == Fields(buf)
    ensures ParseHeader(buf) != None ==> ParseHeader(buf).value.messageLength == LengthField(buf) >= HEADER_SIZE
    ensures Refused(buf) ==> Parse(buf) == Parsed([], [], false)
    ensures !Refused(buf) && !Whole(buf) ==> Parse(buf) == Parsed([], buf, true)
    ensures Whole(buf) ==> var p := Parse(buf[LengthField(buf)..]);
      Parse(buf) == Parsed([FrameAt(buf)] + p.frames, p.rest, p.ok)
  {
    hide Rd32;
  }

  /** Fewer than one maximal frame is left over, so the overflow branch is never taken and
      the next read is always offered room. */
  lemma {:induction false} RestIsShort(buf: seq<byte>)
    ensures var p := Parse(buf); |p.rest| < MAX_FRAME_SIZE && (!p.ok ==> p.rest == [])
    decreases |buf|
  {
    hide Fields, LengthField;
    if Whole(buf) { RestIsShort(buf[LengthField(buf)..]); }
  }

  // ----- Independence of segmentation -----

  lemma HeaderOfPrefix(a: seq<byte>, b: seq<byte>)
    requires |a| >= HEADER_SIZE
    ensures HeaderOk(a + b) == HeaderOk(a) && LengthField(a + b) == LengthField(a) && Fields(a + b) == Fields(a)
  {
    hide Rd32;
    var c := a + b;
    assert c[..8] == a[..8] && c[8..12] == a[8..12] && c[12..16] == a[12..16] && c[16..20] == a[16..20];
    assert c[20..24] == a[20..24] && c[24..39] == a[24..39] && c[40..44] == a[40..44] && c[44..48] == a[44..48];
    assert c[48..52] == a[48..52] && c[52..56] == a[52..56] && c[56..60] == a[56..60] && c[60..64] == a[60..64];
  }

  /** Parsing the first part of a stream and then what it left over together with the rest
      is parsing the whole stream at once. */
  lemma {:induction false} ParseInTwo(a: seq<byte>, b: seq<byte>)
    requires Parse(a).ok
    ensures var p := Parse(a); var q := Parse(p.rest + b);
      Parse(a + b) == Parsed(p.frames + q.frames, q.rest, q.ok)
    decreases |a|
  {
    hide Fields, LengthField, HeaderOk;
    ParseStep(a);
    if |a| >= HEADER_SIZE { HeaderOfPrefix(a, b); }
    if Whole(a) {
      var n := LengthField(a);
      ParseStep(a + b);
      ParseInTwo(a[n..], b);
      assert (a + b)[n..] == a[n..] + b;
      assert (a + b)[HEADER_SIZE..n] == a[HEADER_SIZE..n];
    }
  }

  /** A refused header stays refused, whatever follows. */
  lemma {:induction false} RefusedInTwo(a: seq<byte>, b: seq<byte>)
    requires !Parse(a).ok
    ensures !Parse(a + b).ok
    decreases |a|
  {
    hide Fields, LengthField, HeaderOk;
    ParseStep(a);
    ParseStep(a + b);
    if |a| >= HEADER_SIZE { HeaderOfPrefix(a, b); }
    if Whole(a) {
      var n := LengthField(a);
      RefusedInTwo(a[n..], b);
      assert (a + b)[n..] == a[n..] + b;
    }
  }

  /** What the listener does over a whole connection: Service on each piece in turn. */
  function Feed(rest: seq<byte>, pieces: seq<seq<byte>>): (r: (seq<Frame>, seq<byte>))
    decreases |pieces|
  {
    if pieces == [] then ([], rest)
    else
      var p := Parse(rest + pieces[0]);
      var r := Feed(p.rest, pieces[1..]);
      (p.frames + r.0, r.1)
  }

  function Joined(pieces: seq<seq<byte>>): seq<byte> {
    if pieces == [] then [] else pieces[0] + Joined(pieces[1..])
  }

  /** However a stream without a bad header is cut into pieces, the frames dispatched and
      the bytes left are those of parsing it in one piece. */
  lemma {:induction false} FeedIsParse(rest: seq<byte>, pieces: seq<seq<byte>>)
    requires Parse(rest) == Parsed([], rest, true) && Parse(rest + Joined(pieces)).ok
    ensures Feed(rest, pieces) == (Parse(rest + Joined(pieces)).frames, Parse(rest + Joined(pieces)).rest)
    decreases |pieces|
  {
    hide Parse;
    if pieces == [] {
      assert rest + [] == rest;
    } else {
      var a, b := rest + pieces[0], Joined(pieces[1..]);
      assert rest + Joined(pieces) == a + b;
      if !Parse(a).ok { RefusedInTwo(a, b); }
      ParseInTwo(a, b);
      RestIsParsed(a);
      FeedIsParse(Parse(a).rest, pieces[1..]);
    }
  }

  lemma {:induction false} RestIsParsed(a: seq<byte>)
    ensures Parse(Parse(a).rest) == Parsed([], Parse(a).rest, true)
    decreases |a|
  {
    hide Fields, LengthField, HeaderOk;
    ParseStep(a);
    if Whole(a) { RestIsParsed(a[LengthField(a)..]); }
  }

  /** A well-formed stream: frames, each of the length its header states. */
  ghost predicate WellFormed(frames: seq<seq<byte>>) {
    forall i :: 0 <= i < |frames| ==> Whole(frames[i]) && LengthField(frames[i]) == |frames[i]|
  }

  /** How many of the frames lie wholly inside the first k bytes of their stream. */
  function WhollyInside(frames: seq<seq<byte>>, k: nat): (n: nat)
    ensures n <= |frames|
  {
    if frames == [] || k < |frames[0]| then 0 else 1 + WhollyInside(frames[1..], k - |frames[0]|)
  }

  lemma {:induction false} WhollyInsideIs(frames: seq<seq<byte>>, k: nat)
    requires k <= |Joined(frames)|
    ensures var n := WhollyInside(frames, k);
      |Joined(frames[..n])| <= k && (n < |frames| ==> k < |Joined(frames[..n + 1])|)
  {
    if frames != [] {
      assert frames[..0] == [] && frames[..1] == [frames[0]] && [frames[0]][1..] == [];
      if |frames[0]| <= k {
        var n := WhollyInside(frames[1..], k - |frames[0]|);
        WhollyInsideIs(frames[1..], k - |frames[0]|);
        assert frames[..n + 1][1..] == frames[1..][..n];
        if n + 1 < |frames| { assert frames[..n + 2][1..] == frames[1..][..n + 1]; }
      }
    }
  }

  function Decoded(frames: seq<seq<byte>>): seq<Frame>
    requires WellFormed(frames)
  {
    if frames == [] then [] else [FrameAt(frames[0])] + Decoded(frames[1..])
  }

  /** A whole frame ahead of other bytes. */
  lemma FrameAhead(f: seq<byte>, b: seq<byte>)
    requires Whole(f) && LengthField(f) == |f|
    ensures var p := Parse(b); Parse(f + b) == Parsed([FrameAt(f)] + p.frames, p.rest, p.ok)
  {
    hide Fields, LengthField, HeaderOk;
    HeaderOfPrefix(f, b);
    ParseStep(f + b);
    assert (f + b)[|f|..] == b;
    assert (f + b)[HEADER_SIZE..|f|] == f[HEADER_SIZE..|f|];
  }

  /** Part of a frame on its own. */
  lemma PartOfFrame(f: seq<byte>, k: nat)
    requires Whole(f) && LengthField(f) == |f| && k < |f|
    ensures Parse(f[..k]) == Parsed([], f[..k], true)
  {
    hide Fields, LengthField, HeaderOk;
    ParseStep(f[..k]);
    if k >= HEADER_SIZE {
      assert f == f[..k] + f[k..];
      HeaderOfPrefix(f[..k], f[k..]);
    }
  }

  lemma SplitAt(f: seq<byte>, b: seq<byte>, k: nat)
    requires k <= |f| + |b|
    ensures (f + b)[..k] == if k <= |f| then f[..k] else f + b[..k - |f|]
  {
  }

  /** The meaning of the parse on a well-formed stream cut off after k bytes. */
  lemma {:induction false} PrefixParse(frames: seq<seq<byte>>, k: nat)
    requires WellFormed(frames) && k <= |Joined(frames)|
    ensures var n := WhollyInside(frames, k); var p := Parse(Joined(frames)[..k]);
      && p.ok && p.frames == Decoded(frames[..n]) && Joined(frames[..n]) + p.rest == Joined(frames)[..k]
  {
    hide Parse, LengthField, Whole, FrameAt;
    if frames == [] {
      ParseStep([]);
      NothingWhole();
    } else {
      var f, more := frames[0], frames[1..];
      SplitAt(f, Joined(more), k);
      if k < |f| {
        assert frames[..0] == [];
        PartOfFrame(f, k);
      } else {
        var n := WhollyInside(more, k - |f|);
        PrefixParse(more, k - |f|);
        SplitAt(f, Joined(more), |f|);
        assert Joined(frames)[..k] == f + Joined(more)[..k - |f|];
        FrameAhead(f, Joined(more)[..k - |f|]);
        assert frames[..n + 1][0] == f && frames[..n + 1][1..] == more[..n];
        var rest := Parse(Joined(more)[..k - |f|]).rest;
        assert Joined(frames[..n + 1]) + rest == f + (Joined(more[..n]) + rest);
      }
    }
  }

  lemma NothingWhole()
    ensures !Whole([]) && !Refused([])
  {
  }

  /**
   * Dispatch does not depend on how TCP cuts the stream: whatever pieces the first k bytes
   * of a well-formed stream arrive in, exactly the frames wholly inside those k bytes have
   * been dispatched, in order, and the bytes after them are waiting, fewer than one frame.
   */
  lemma SegmentationIndependent(frames: seq<seq<byte>>, k: nat, pieces: seq<seq<byte>>)
    requires WellFormed(frames) && k <= |Joined(frames)| && Joined(pieces) == Joined(frames)[..k]
    ensures var n := WhollyInside(frames, k); var r := Feed([], pieces);
      && r.0 == Decoded(frames[..n]) && Joined(frames[..n]) + r.1 == Joined(frames)[..k]
      && |r.1| < MAX_FRAME_SIZE
  {
    hide Parse, Whole, LengthField, FrameAt, Decoded;
    PrefixParse(frames, k);
    ParseStep([]);
    NothingWhole();
    assert [] + Joined(pieces) == Joined(pieces);
    FeedIsParse([], pieces);
    RestIsShort(Joined(pieces));
  }

  // ----- Streams with a bad header -----

  /** Where the refused header of a stream ends. */
  function RefusalEnd(buf: seq<byte>): (n: nat)
    requires !Parse(buf).ok
    ensures HEADER_SIZE <= n <= |buf|
    decreases |buf|
  {
    if Refused(buf) then HEADER_SIZE else LengthField(buf) + RefusalEnd(buf[LengthField(buf)..])
  }

  /** However the stream is cut, the same frames are dispatched and the same bytes wait. */
  ghost predicate CutIndependent(x: seq<byte>) {
    forall pieces: seq<seq<byte>> :: Joined(pieces) == x ==> Feed([], pieces) == (Parse(x).frames, Parse(x).rest)
  }

  /** The refusal comes as soon as the bad header is complete. */
  lemma {:induction false} RefusalStays(a: seq<byte>, b: seq<byte>)
    requires !Parse(a).ok
    ensures !Parse(a + b).ok && RefusalEnd(a + b) == RefusalEnd(a)
    decreases |a|
  {
    hide Fields, LengthField, HeaderOk;
    ParseStep(a);
    ParseStep(a + b);
    if |a| >= HEADER_SIZE { HeaderOfPrefix(a, b); }
    if Whole(a) {
      var n := LengthField(a);
      assert (a + b)[n..] == a[n..] + b;
      RefusalStays(a[n..], b);
    }
  }

  /** It comes no earlier than that. */
  lemma {:induction false} RefusalInTwo(a: seq<byte>, b: seq<byte>)
    requires Parse(a).ok && !Parse(a + b).ok
    ensures var r := Parse(a).rest;
      !Parse(r + b).ok && |a + b| - RefusalEnd(a + b) == |r + b| - RefusalEnd(r + b)
    decreases |a|
  {
    hide Fields, LengthField, HeaderOk;
    ParseStep(a);
    ParseStep(a + b);
    if |a| >= HEADER_SIZE { HeaderOfPrefix(a, b); }
    if Whole(a) {
      var n := LengthField(a);
      assert (a + b)[n..] == a[n..] + b;
      RefusalInTwo(a[n..], b);
    }
  }

  lemma {:induction false} RefusedPrefix(x: seq<byte>, k: nat)
    requires !Parse(x).ok && RefusalEnd(x) <= k <= |x|
    ensures !Parse(x[..k]).ok
    decreases |x|
  {
    hide Fields, LengthField, HeaderOk;
    ParseStep(x);
    ParseStep(x[..k]);
    assert x == x[..k] + x[k..];
    HeaderOfPrefix(x[..k], x[k..]);
    if Whole(x) {
      var n := LengthField(x);
      RefusedPrefix(x[n..], k - n);
      assert x[..k][n..] == x[n..][..k - n];
    }
  }

  lemma {:induction false} FeedNothing(pieces: seq<seq<byte>>)
    requires Joined(pieces) == []
    ensures Feed([], pieces) == ([], [])
    decreases |pieces|
  {
    hide LengthField, HeaderOk;
    if pieces != [] {
      assert [] + pieces[0] == [];
      FeedNothing(pieces[1..]);
    }
  }

  /** A refused header that ends the stream costs nothing but the stream. */
  lemma {:induction false} FeedUpToRefusal(rest: seq<byte>, pieces: seq<seq<byte>>)
    requires Parse(rest) == Parsed([], rest, true)
    requires var x := rest + Joined(pieces); !Parse(x).ok && RefusalEnd(x) == |x|
    ensures Feed(rest, pieces) == (Parse(rest + Joined(pieces)).frames, [])
    decreases |pieces|
  {
    hide Parse, RefusalEnd;
    assert rest + [] == rest;
    if pieces != [] {
      var a, b := rest + pieces[0], Joined(pieces[1..]);
      assert rest + Joined(pieces) == a + b;
      if b == [] {
        assert a + b == a;
        RestIsShort(a);
        FeedNothing(pieces[1..]);
        assert Feed(Parse(a).rest, pieces[1..]) == ([], []) && Parse(a).frames + [] == Parse(a).frames;
      } else {
        if !Parse(a).ok { RefusalStays(a, b); }
        ParseInTwo(a, b);
        RestIsParsed(a);
        RefusalInTwo(a, b);
        FeedUpToRefusal(Parse(a).rest, pieces[1..]);
      }
    }
  }

  /** Otherwise the last byte on its own makes the difference: it waits if it comes alone and
      is thrown away with the rest if it does not. */
  lemma LastByteTells(x: seq<byte>)
    requires !Parse(x).ok && RefusalEnd(x) < |x|
    ensures var a, b := x[..|x| - 1], [x[|x| - 1]];
      Joined([a, b]) == x && Feed([], [a, b]).1 == b && Parse(x).rest == []
  {
    hide Parse, RefusalEnd, Feed, Joined;
    var a, b := x[..|x| - 1], [x[|x| - 1]];
    RefusedPrefix(x, |x| - 1);
    RestIsShort(x);
    RestIsShort(a);
    assert [] + b == b && a + b == x;
    JoinedTwo(a, b);
    FeedTwo(a, b);
    ParseStep(b);
    ShortIsNotWhole(b);
  }

  lemma JoinedTwo(a: seq<byte>, b: seq<byte>)
    ensures Joined([a, b]) == a + b
  {
    assert [a, b][1..] == [b] && [b][1..] == [] && b + [] == b;
    assert Joined([b]) == b;
  }

  lemma ShortIsNotWhole(b: seq<byte>)
    requires |b| < HEADER_SIZE
    ensures !Whole(b) && !Refused(b)
  {
  }

  /**
   * The exact condition: dispatch does not depend on how TCP cuts a stream if and only if the
   * stream has no bad header, or ends with the 64 bytes of its first one.
   */
  lemma IndependentExactly(x: seq<byte>)
    ensures CutIndependent(x) <==> Parse(x).ok || RefusalEnd(x) == |x|
  {
    hide Parse, RefusalEnd;
    ParseStep([]);
    NothingWhole();
    RestIsShort(x);
    if Parse(x).ok || RefusalEnd(x) == |x| {
      forall pieces: seq<seq<byte>> | Joined(pieces) == x ensures Feed([], pieces) == (Parse(x).frames, Parse(x).rest) {
        assert [] + Joined(pieces) == x;
        if Parse(x).ok { FeedIsParse([], pieces); } else { FeedUpToRefusal([], pieces); }
      }
    } else {
      LastByteTells(x);
    }
  }

  /** What it looks like: behind 64 bytes that are no header, a good frame is dispatched or
      lost depending on where the stream was cut. */
  lemma MalformedDependsOnCut(f: seq<byte>)
    requires Whole(f) && LengthField(f) == |f|
    ensures var junk := Fill(0, HEADER_SIZE);
      Feed([], [junk + f]).0 == [] && Feed([], [junk, f]).0 == [FrameAt(f)]
  {
    hide Parse, LengthField, Whole, Refused, FrameAt, Feed;
    var junk := Fill(0, HEADER_SIZE);
    JunkRefused(junk, f);
    ParseStep(junk);
    ParseStep(junk + f);
    ParseStep([]);
    NothingWhole();
    FrameAhead(f, []);
    assert f + [] == f && [] + f == f;
    FeedOne(junk + f);
    FeedTwo(junk, f);
  }

  lemma FeedOne(a: seq<byte>)
    ensures Feed([], [a]).0 == Parse(a).frames
  {
    hide Parse;
    assert [] + a == a;
  }

  lemma FeedTwo(a: seq<byte>, b: seq<byte>)
    ensures var p, q := Parse(a), Parse(Parse(a).rest + b); Feed([], [a, b]) == (p.frames + q.frames, q.rest)
  {
    hide Parse;
    var p := Parse(a);
    var q := Parse(p.rest + b);
    assert [] + a == a && [a, b][1..] == [b] && [b][1..] == [];
    assert Feed(p.rest, [b]) == (q.frames + [], q.rest);
    assert q.frames + [] == q.frames;
  }

  lemma JunkRefused(junk: seq<byte>, f: seq<byte>)
    requires junk == Fill(0, HEADER_SIZE)
    ensures Refused(junk) && Refused(junk + f)
  {
    hide LengthField;
    assert junk[..8][0] != MAGIC[0];
    HeaderOfPrefix(junk, f);
  }
}
