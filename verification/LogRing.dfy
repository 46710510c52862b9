/**
 * The log ring of app/log: 8192 bytes written in place, refining a queue of bytes that
 * makes room by dropping whole lines from its front.
 */
module LogRing {
  import opened Bytes

  const RING_BYTES := 8192
  const LINE_MAX := 256
  const LF: byte := 10
  const CR: byte := 13
  const DOT: byte := 46

  // ----- The queue the ring refines -----

  /** Length of the first line, its newline included; all of q if it has no newline. */
  function FirstLine(q: seq<byte>): (n: nat)
    ensures n <= |q| && (q != [] ==> n > 0)
  {
    if q == [] then 0 else if q[0] == LF then 1 else 1 + FirstLine(q[1..])
  }

  /** How many bytes ring_make_room drops from q to make room for need more, and in how
      many rounds. */
  function Drop(q: seq<byte>, need: nat): (d: (nat, nat))
    ensures d.0 <= |q|
    decreases |q|
  {
    if RING_BYTES - |q| >= need || q == [] then (0, 0)
    else
      var n := FirstLine(q);
      var d := Drop(q[n..], need);
      (n + d.0, 1 + d.1)
  }

  /** The bytes ring_write keeps of a line: all, unless it is as long as the ring. */
  function Fit(src: seq<byte>): (line: seq<byte>)
    ensures |line| < RING_BYTES
  {
    if |src| >= RING_BYTES then src[|src| - RING_BYTES + 1..] else src
  }

  /** ring_write on the queue. */
  function Push(q: seq<byte>, src: seq<byte>): seq<byte> {
    q[Drop(q, |Fit(src)|).0..] + Fit(src)
  }

  function Min(a: nat, b: nat): nat { if a < b then a else b }

  // ----- The ring -----

  function Wrap(i: nat): nat
    requires i < 2 * RING_BYTES
  {
    if i < RING_BYTES then i else i - RING_BYTES
  }

  /** The n bytes of the ring from tail on, going round the end. */
  ghost function Queue(ring: seq<byte>, tail: nat, n: nat): (q: seq<byte>)
    requires |ring| == RING_BYTES && tail < RING_BYTES && n <= RING_BYTES
    ensures |q| == n
  {
    if tail + n <= RING_BYTES then ring[tail..tail + n] else ring[tail..] + ring[..tail + n - RING_BYTES]
  }

  class Log {
    const ring: array<byte>
    var head: nat
    var tail: nat
    var full: bool
    var droppedLines: nat

    ghost predicate Valid()
      reads this
    {
      ring.Length == RING_BYTES && head < RING_BYTES && tail < RING_BYTES && (full ==> head == tail)
    }

    /** ring_used. */
    function Used(): (n: nat)
      requires Valid()
      reads this
      ensures n <= RING_BYTES
    {
      if full then RING_BYTES
      else if head >= tail then head - tail
      else RING_BYTES - (tail - head)
    }

    /** ring_free. */
    function Free(): nat
      requires Valid()
      reads this
    {
      RING_BYTES - Used()
    }

    /** The abstract value: the unread bytes, oldest first. */
    ghost function Contents(): (q: seq<byte>)
      requires Valid()
      reads this, ring
      ensures |q| == Used()
    {
      Queue(ring[..], tail, Used())
    }

    /** log_init. */
    constructor ()
      ensures Valid() && fresh(ring) && Contents() == [] && droppedLines == 0
    {
      ring := new byte[RING_BYTES];
      head, tail, full, droppedLines := 0, 0, false, 0;
    }

    /** ring_drop_bytes. No caller drops zero bytes, which would empty a full ring. */
    method DropBytes(n: nat)
      requires Valid()
      modifies `tail, `full
      ensures Valid()
      ensures n > 0 || !old(full) ==> Contents() == old(Contents())[Min(n, old(Used()))..]
      ensures n == 0 && old(full) ==> Contents() == []
    {
      hide Queue;
      if n >= Used() {
        tail := head;
        full := false;
        return;
      }
      QueueShrink(ring[..], tail, Used(), n);
      WrapIsMod(tail + n);
      tail := (tail + n) % RING_BYTES;
      full := false;
    }

    /** The scan inside ring_make_room: the length of the first line. */
    method ScanLine() returns (drop: nat)
      requires Valid()
      ensures drop == FirstLine(Contents())
    {
      ghost var q := Contents();
      var i := tail;
      var scanned := 0;
      var used := Used();
      var found := false;
      while scanned < used
        invariant 0 <= scanned <= used && i == Wrap(tail + scanned)
        invariant forall k :: 0 <= k < scanned ==> q[k] != LF
      {
        assert q[scanned] == ring[..][i];
        if ring[i] == LF {
          found := true;
          break;
        }
        i := (i + 1) % RING_BYTES;
        scanned := scanned + 1;
      }
      assert found ==> q[scanned] == LF;
      FirstLineAt(q, scanned);
      drop := if found then scanned + 1 else used;
    }

    /** One round of ring_make_room: drops the first line. */
    method DropLine()
      requires Valid() && Used() > 0
      modifies `tail, `full, `droppedLines
      ensures Valid() && Contents() == old(Contents())[FirstLine(old(Contents()))..]
      ensures droppedLines == old(droppedLines) + 1
    {
      hide Queue, FirstLine;
      var drop := ScanLine();
      DropBytes(drop);
      droppedLines := droppedLines + 1;
    }

    /** ring_make_room: drops whole lines from the front until need bytes are free. */
    method MakeRoom(need: nat)
      requires Valid()
      modifies `tail, `full, `droppedLines
      ensures Valid()
      ensures var d := Drop(old(Contents()), need);
        Contents() == old(Contents())[d.0..] && droppedLines == old(droppedLines) + d.1
    {
      hide Queue, FirstLine, Drop;
      ghost var q0 := Contents();
      ghost var gone := 0;
      assert q0[gone..] == q0;
      while Free() < need && Used() > 0
        invariant Valid() && 0 <= gone <= |q0| && Contents() == q0[gone..]
        invariant Drop(q0, need).0 == gone + Drop(q0[gone..], need).0
        invariant old(droppedLines) + Drop(q0, need).1 == droppedLines + Drop(q0[gone..], need).1
        decreases Used()
      {
        DropStep(q0, gone, need);
        gone := gone + FirstLine(Contents());
        DropLine();
      }
      DropEnds(q0[gone..], need);
    }

    /** The copying part of ring_write. */
    method Append(line: seq<byte>)
      requires Valid() && 0 < |line| <= Free()
      modifies `head, `full, ring
      ensures Valid() && Contents() == old(Contents()) + line
    {
      hide Queue;
      ghost var q := Contents();
      ghost var u := Used();
      for i := 0 to |line|
        invariant Valid() && !full
        invariant head == Wrap(tail + u + i)
        invariant Queue(ring[..], tail, u + i) == q + line[..i]
      {
        QueueGrow(ring[..], tail, u + i, line[i]);
        WrapIsMod(head + 1);
        Snoc(q, line, i);
        ring[head] := line[i];
        head := (head + 1) % RING_BYTES;
      }
      assert line[..|line|] == line;
      if head == tail { full := true; }
      assert Used() == u + |line|;
    }

    /** ring_write. */
    method RingWrite(src: seq<byte>)
      requires Valid()
      modifies this, ring
      ensures Valid()
      ensures Contents() == if src == [] then old(Contents()) else Push(old(Contents()), src)
      ensures droppedLines == old(droppedLines) + if src == [] then 0 else Drop(old(Contents()), |Fit(src)|).1
    {
      hide Queue;
      if src == [] { return; }
      var line := src;
      if |src| >= RING_BYTES {
        line := src[|src| - RING_BYTES + 1..];
      }
      ghost var q := Contents();
      DropMakesRoom(q, |line|);
      if |line| > Free() { MakeRoom(|line|); }
      Append(line);
    }

    /** log_peek: copies a prefix of the queue, up to the end of the ring. */
    method Peek(max: nat) returns (out: seq<byte>)
      requires Valid()
      ensures out <= Contents()
      ensures |out| == Min(max, Min(Used(), RING_BYTES - tail))
      ensures out == [] <==> max == 0 || Contents() == []
    {
      hide Queue;
      out := [];
      if max == 0 || Used() == 0 { return; }
      var toEnd := RING_BYTES - tail;
      var span := if Used() < toEnd then Used() else toEnd;
      var n := if span < max then span else max;
      for i := 0 to n
        invariant out == ring[tail..tail + i]
      {
        out := out + [ring[tail + i]];
      }
      QueueStarts(ring[..], tail, Used(), n);
    }

    /** log_consume. */
    method Consume(n: nat)
      requires Valid()
      modifies `tail, `full
      ensures Valid() && Contents() == old(Contents())[Min(n, old(Used()))..]
    {
      hide Queue;
      var k := Min(n, Used());
      if 0 < k < Used() { QueueShrink(ring[..], tail, Used(), k); }
      WrapIsMod(tail + k);
      tail := (tail + k) % RING_BYTES;
      if k > 0 { full := false; }
    }

    /** log_drain. */
    method Drain(max: nat) returns (out: seq<byte>)
      requires Valid()
      modifies `tail, `full
      ensures Valid() && old(Contents()) == out + Contents()
      ensures out == [] <==> max == 0 || old(Contents()) == []
    {
      hide Queue;
      ghost var q := Contents();
      out := Peek(max);
      PrefixRest(out, q);
      if |out| > 0 { Consume(|out|); }
    }
  }

  lemma PrefixRest(out: seq<byte>, q: seq<byte>)
    requires out <= q
    ensures q == out + q[|out|..] && (out == [] ==> q[|out|..] == q)
  {
  }

  lemma DropEnds(q: seq<byte>, need: nat)
    requires RING_BYTES - |q| >= need || q == []
    ensures Drop(q, need) == (0, 0)
  {
  }

  lemma DropStep(q0: seq<byte>, gone: nat, need: nat)
    requires gone < |q0| && RING_BYTES - (|q0| - gone) < need
    ensures var n := FirstLine(q0[gone..]);
      && 0 < n <= |q0| - gone && q0[gone..][n..] == q0[gone + n..]
      && Drop(q0[gone..], need) == (n + Drop(q0[gone + n..], need).0, 1 + Drop(q0[gone + n..], need).1)
  {
    var q := q0[gone..];
    assert q[FirstLine(q)..] == q0[gone + FirstLine(q)..];
  }

  lemma Snoc(q: seq<byte>, line: seq<byte>, i: nat)
    requires i < |line|
    ensures q + line[..i + 1] == q + line[..i] + [line[i]]
  {
  }

  lemma WrapIsMod(i: nat)
    requires i < 2 * RING_BYTES
    ensures i % RING_BYTES == Wrap(i)
  {
  }

  lemma QueueGrow(ring: seq<byte>, tail: nat, n: nat, b: byte)
    requires |ring| == RING_BYTES && tail < RING_BYTES && n < RING_BYTES
    ensures Queue(ring[Wrap(tail + n) := b], tail, n + 1) == Queue(ring, tail, n) + [b]
  {
    var at := Wrap(tail + n);
    if tail + n < RING_BYTES {
      assert ring[at := b][tail..at + 1] == ring[tail..at] + [b];
    } else {
      var front, back := ring[tail..], ring[..at];
      assert ring[at := b][..at + 1] == back + [b];
      assert ring[at := b][tail..] == front;
      assert Queue(ring, tail, n) == front + back by { if at == 0 { assert front + back == front; } }
      assert front + (back + [b]) == front + back + [b];
    }
  }

  lemma QueueStarts(ring: seq<byte>, tail: nat, n: nat, k: nat)
    requires |ring| == RING_BYTES && tail < RING_BYTES && k <= n <= RING_BYTES && tail + k <= RING_BYTES
    ensures ring[tail..tail + k] <= Queue(ring, tail, n)
  {
  }

  lemma QueueShrink(ring: seq<byte>, tail: nat, n: nat, k: nat)
    requires |ring| == RING_BYTES && tail < RING_BYTES && k < n <= RING_BYTES
    ensures Queue(ring, Wrap(tail + k), n - k) == Queue(ring, tail, n)[k..]
  {
    if tail + n <= RING_BYTES {
      Slice(ring, tail, tail + n, k, n);
    } else {
      SplitShrink(ring, tail, tail + n - RING_BYTES, k);
    }
  }

  lemma SplitShrink(ring: seq<byte>, tail: nat, m: nat, k: nat)
    requires tail < |ring| && m <= |ring| && k <= |ring| - tail + m
    ensures (ring[tail..] + ring[..m])[k..]
         == if tail + k < |ring| then ring[tail + k..] + ring[..m] else ring[tail + k - |ring|..m]
  {
    var a, b := ring[tail..], ring[..m];
    DropConcat(a, b, k);
    if tail + k < |ring| {
      assert a[k..] == ring[tail + k..];
    } else {
      assert b[k - |a|..] == ring[tail + k - |ring|..m];
    }
  }

  lemma DropConcat<T>(a: seq<T>, b: seq<T>, k: nat)
    requires k <= |a| + |b|
    ensures (a + b)[k..] == if k < |a| then a[k..] + b else b[k - |a|..]
  {
  }

  lemma {:induction false} FirstLineAt(q: seq<byte>, k: nat)
    requires k <= |q| && (forall i :: 0 <= i < k ==> q[i] != LF) && (k < |q| ==> q[k] == LF)
    ensures FirstLine(q) == if k < |q| then k + 1 else |q|
  {
    if k > 0 { FirstLineAt(q[1..], k - 1); }
  }

  /** Whatever is written, the queue is then the newest bytes of all of it; of a line as long as
      the ring it is the last 8191 bytes, behind at most one older byte. */
  lemma PushKeepsNewest(q: seq<byte>, src: seq<byte>)
    requires |q| <= RING_BYTES
    ensures var p, all := Push(q, src), q + src;
      && |p| <= 8192
      && (|src| < 8192 ==> |p| >= |src| && p == all[|all| - |p|..])
      && (|src| >= 8192 ==> |p| >= 8191 && p[|p| - 8191..] == src[|src| - 8191..] && p[..|p| - 8191] == q[|q| + 8191 - |p|..])
  {
    hide Drop;
    DropMakesRoom(q, |Fit(src)|);
  }

  lemma {:induction false} DropMakesRoom(q: seq<byte>, need: nat)
    requires |q| <= RING_BYTES && need <= RING_BYTES
    ensures |q| - Drop(q, need).0 + need <= RING_BYTES
    decreases |q|
  {
    if RING_BYTES - |q| < need && q != [] {
      DropMakesRoom(q[FirstLine(q)..], need);
    }
  }

  // ----- What ring_make_room drops -----

  function Newlines(q: seq<byte>): nat {
    if q == [] then 0 else (if q[0] == LF then 1 else 0) + Newlines(q[1..])
  }

  /** A line starts at k, or the queue ends there. */
  ghost predicate Boundary(q: seq<byte>, k: nat) {
    k <= |q| && (k == 0 || k == |q| || q[k - 1] == LF)
  }

  ghost predicate Terminated(q: seq<byte>) { q == [] || q[|q| - 1] == LF }

  lemma {:induction false} FirstLineIs(q: seq<byte>)
    requires q != []
    ensures Boundary(q, FirstLine(q)) && forall i :: 0 <= i < FirstLine(q) - 1 ==> q[i] != LF
    ensures Terminated(q) ==> q[FirstLine(q) - 1] == LF
  {
    if q[0] != LF && |q| > 1 { FirstLineIs(q[1..]); }
  }

  /** Room is made by dropping whole lines, and no fewer would have done. */
  lemma {:induction false} DropsFewestLines(q: seq<byte>, need: nat)
    requires |q| <= RING_BYTES && need <= RING_BYTES
    ensures var d := Drop(q, need).0;
      && |q| - d + need <= RING_BYTES && Boundary(q, d)
      && forall j :: 0 <= j < d && Boundary(q, j) ==> |q| - j + need > RING_BYTES
    decreases |q|
  {
    hide FirstLine, Boundary;
    if RING_BYTES - |q| < need && q != [] {
      var n := FirstLine(q);
      var r := q[n..];
      var e := Drop(r, need).0;
      DropsFewestLines(r, need);
      BoundaryBeyond(q, e);
      forall j | 0 <= j < n + e && Boundary(q, j) ensures |q| - j + need > RING_BYTES {
        if j > 0 { BoundaryInRest(q, j); }
      }
    } else {
      StartIsBoundary(q);
    }
  }

  lemma StartIsBoundary(q: seq<byte>)
    ensures Boundary(q, 0)
  {
  }

  /** A boundary of the rest is one of q. */
  lemma BoundaryBeyond(q: seq<byte>, e: nat)
    requires q != [] && Boundary(q[FirstLine(q)..], e)
    ensures Boundary(q, FirstLine(q) + e)
  {
    hide FirstLine;
    var n := FirstLine(q);
    FirstLineIs(q);
    if 0 < e < |q| - n { assert q[n + e - 1] == q[n..][e - 1]; }
  }

  /** Past the first line, the boundaries of q are those of the rest. */
  lemma BoundaryInRest(q: seq<byte>, j: nat)
    requires 0 < j <= |q| && Boundary(q, j)
    ensures FirstLine(q) <= j && Boundary(q[FirstLine(q)..], j - FirstLine(q))
  {
    hide FirstLine;
    var n := FirstLine(q);
    FirstLineIs(q);
    if j > n { assert q[j - 1] == q[n..][j - n - 1]; }
  }

  lemma {:induction false} NewlinesConcat(a: seq<byte>, b: seq<byte>)
    ensures Newlines(a + b) == Newlines(a) + Newlines(b)
  {
    if a == [] {
      assert a + b == b;
    } else {
      assert (a + b)[1..] == a[1..] + b;
      NewlinesConcat(a[1..], b);
    }
  }

  lemma {:induction false} NoNewlines(q: seq<byte>)
    requires forall i :: 0 <= i < |q| ==> q[i] != LF
    ensures Newlines(q) == 0
  {
    if q != [] { NoNewlines(q[1..]); }
  }

  lemma LineHasOne(q: seq<byte>)
    requires Terminated(q) && q != []
    ensures Newlines(q[..FirstLine(q)]) == 1 && Terminated(q[FirstLine(q)..])
  {
    hide Newlines, FirstLine;
    FirstLineIs(q);
    var n := FirstLine(q);
    assert q[..n] == q[..n - 1] + [LF];
    NoNewlines(q[..n - 1]);
    NewlinesConcat(q[..n - 1], [LF]);
    OneNewline();
  }

  lemma OneNewline()
    ensures Newlines([LF]) == 1
  {
    assert [LF][1..] == [];
  }

  lemma TwoDrops(q: seq<byte>, n: nat, e: nat)
    requires n + e <= |q|
    ensures q[..n + e] == q[..n] + q[n..][..e] && q[n..][e..] == q[n + e..]
  {
  }

  /** When the queue ends in a newline, the rounds counted are the newlines dropped. */
  lemma {:induction false} DropCountsNewlines(q: seq<byte>, need: nat)
    requires Terminated(q)
    ensures var d := Drop(q, need); d.1 == Newlines(q[..d.0]) && Terminated(q[d.0..])
    decreases |q|
  {
    hide Newlines, FirstLine, Terminated;
    if RING_BYTES - |q| < need && q != [] {
      var n := FirstLine(q);
      LineHasOne(q);
      DropCountsNewlines(q[n..], need);
      var e := Drop(q[n..], need).0;
      TwoDrops(q, n, e);
      NewlinesConcat(q[..n], q[n..][..e]);
    } else {
      assert q[..0] == [] && q[0..] == q;
      NoNewlines(q[..0]);
    }
  }

  // ----- log_printf's line, and whole runs -----

  /** The text of the line: cut off with three dots if over-long, one trailing newline gone. */
  function Trimmed(text: seq<byte>): (t: seq<byte>)
    ensures |t| <= LINE_MAX - 2
  {
    var t := if |text| >= LINE_MAX then text[..LINE_MAX - 5] + [DOT, DOT, DOT] else text;
    var u := if |t| > 0 && t[|t| - 1] == LF then t[..|t| - 1] else t;
    if |u| + 2 > LINE_MAX then u[..LINE_MAX - 2] else u
  }

  /** The line log_printf writes for a formatted text: at most 256 bytes, ending in CR LF. */
  function LineOf(text: seq<byte>): seq<byte> { Trimmed(text) + [CR, LF] }

  lemma LineShape(text: seq<byte>)
    ensures var line := LineOf(text);
      && (|text| <= 254 && (text == [] || text[|text| - 1] != 10) ==> line == text + [13, 10])
      && (|text| == 255 && text[254] != 10 ==> line == text[..254] + [13, 10])
      && (|text| <= 255 && text != [] && text[|text| - 1] == 10 ==> line == text[..|text| - 1] + [13, 10])
      && (|text| >= 256 ==> line == text[..251] + [46, 46, 46, 13, 10])
  {
    var cut := text[..if |text| >= LINE_MAX then LINE_MAX - 5 else 0];
    assert cut + [DOT, DOT, DOT] + [CR, LF] == cut + [DOT, DOT, DOT, CR, LF];
  }

  /** One use of the log: a line logged, bytes taken by the reader, the counter reset. */
  datatype Use = Print(text: seq<byte>) | Take(n: nat) | Reset

  /** The queue and counter, and what ever went in, came out and was discarded; lostBefore
      is what had been discarded when the counter was last reset. */
  datatype Run = Run(q: seq<byte>, dropped: nat, written: seq<byte>, taken: seq<byte>, lost: nat, lostBefore: nat)

  function Printed(r: Run, line: seq<byte>): Run {
    var d := Drop(r.q, |line|);
    Run(Push(r.q, line), r.dropped + d.1, r.written + line, r.taken, r.lost + Newlines(r.q[..d.0]), r.lostBefore)
  }

  function Step(r: Run, u: Use): Run {
    match u
    case Print(text) => Printed(r, LineOf(text))
    case Take(n) =>
      var k := Min(n, |r.q|);
      r.(q := r.q[k..], taken := r.taken + r.q[..k])
    case Reset => r.(dropped := 0, lostBefore := r.lost)
  }

  function After(uses: seq<Use>): Run {
    if uses == [] then Run([], 0, [], [], 0, 0) else Step(After(uses[..|uses| - 1]), uses[|uses| - 1])
  }

  /** The queue is the newest bytes written. */
  ghost predicate Newest(r: Run) {
    |r.q| <= 8192 && |r.q| <= |r.written| && r.q == r.written[|r.written| - |r.q|..]
  }

  /** Newlines are conserved and the counter counts the discarded ones. */
  ghost predicate Counted(r: Run) {
    && Terminated(r.q) && r.dropped == r.lost - r.lostBefore
    && Newlines(r.written) == Newlines(r.taken) + r.lost + Newlines(r.q)
  }

  /** Nothing discarded, nothing missing. */
  ghost predicate Complete(r: Run) { r.lost == 0 ==> r.written == r.taken + r.q }

  ghost predicate Kept(r: Run) { Newest(r) && Counted(r) && Complete(r) }

  /** What a line of log_printf looks like. */
  ghost predicate IsLine(line: seq<byte>) { 0 < |line| <= LINE_MAX && line[|line| - 1] == LF }

  lemma LineOfIsLine(text: seq<byte>)
    ensures IsLine(LineOf(text))
  {
    hide Trimmed;
    var t := Trimmed(text);
    assert (t + [CR, LF])[|t| + 1] == LF;
  }

  /** The fields after a line was logged. */
  lemma PrintedParts(r: Run, line: seq<byte>)
    requires IsLine(line)
    ensures var t, d := Printed(r, line), Drop(r.q, |line|);
      && t.q == r.q[d.0..] + line && t.written == r.written + line && t.taken == r.taken
      && t.dropped == r.dropped + d.1 && t.lost == r.lost + Newlines(r.q[..d.0]) && t.lostBefore == r.lostBefore
  {
    hide Drop, Newlines;
  }

  lemma PrintKeepsNewest(r: Run, line: seq<byte>)
    requires Newest(r) && IsLine(line)
    ensures Newest(Printed(r, line))
  {
    hide Drop, Newlines, Printed;
    PrintedParts(r, line);
    DropMakesRoom(r.q, |line|);
    SuffixGrow(r.written, r.q, Drop(r.q, |line|).0, line);
  }

  lemma SuffixGrow(w: seq<byte>, q: seq<byte>, d: nat, line: seq<byte>)
    requires |q| <= |w| && q == w[|w| - |q|..] && d <= |q|
    ensures q[d..] + line == (w + line)[|w| - |q| + d..]
  {
    var a, b := q[d..] + line, (w + line)[|w| - |q| + d..];
    forall i | 0 <= i < |a| ensures a[i] == b[i] {
      if i < |q| - d { assert q[d + i] == w[|w| - |q| + d + i]; }
    }
  }

  lemma DropDrop<T>(s: seq<T>, a: nat, b: nat)
    requires a + b <= |s|
    ensures s[a..][b..] == s[a + b..]
  {
  }

  lemma NewlinesSplit(q: seq<byte>, k: nat)
    requires k <= |q|
    ensures Newlines(q) == Newlines(q[..k]) + Newlines(q[k..])
  {
    hide Newlines;
    assert q == q[..k] + q[k..];
    NewlinesConcat(q[..k], q[k..]);
  }

  lemma LineTerminates(q: seq<byte>, line: seq<byte>)
    requires IsLine(line)
    ensures Terminated(q + line)
  {
    assert (q + line)[|q + line| - 1] == line[|line| - 1];
  }

  lemma PrintKeepsCounted(r: Run, line: seq<byte>)
    requires Counted(r) && IsLine(line)
    ensures Counted(Printed(r, line))
  {
    hide Drop, Newlines, Printed, Terminated, IsLine;
    var d := Drop(r.q, |line|).0;
    PrintedParts(r, line);
    DropCountsNewlines(r.q, |line|);
    NewlinesSplit(r.q, d);
    NewlinesConcat(r.q[d..], line);
    NewlinesConcat(r.written, line);
    LineTerminates(r.q[d..], line);
  }

  lemma PrintKeepsComplete(r: Run, line: seq<byte>)
    requires Counted(r) && Complete(r) && IsLine(line)
    ensures Complete(Printed(r, line))
  {
    hide Newlines, Drop, Printed, Terminated, IsLine;
    PrintedParts(r, line);
    DropLosesNewline(r.q, |line|);
    if Printed(r, line).lost == 0 { NothingDropped(r.taken, r.q, line); }
  }

  lemma NothingDropped(taken: seq<byte>, q: seq<byte>, line: seq<byte>)
    ensures q[0..] == q && (taken + q) + line == taken + (q + line)
  {
  }

  /** If anything is dropped from a terminated queue, a newline is. */
  lemma DropLosesNewline(q: seq<byte>, need: nat)
    requires Terminated(q)
    ensures Newlines(q[..Drop(q, need).0]) == 0 <==> Drop(q, need).0 == 0
    ensures Drop(q, need).0 == 0 <==> |q| + need <= RING_BYTES || q == []
  {
    hide Newlines, Terminated, FirstLine;
    var d := Drop(q, need).0;
    if RING_BYTES - |q| < need && q != [] {
      var n := FirstLine(q);
      assert d >= n > 0;
      FirstLineIs(q);
      assert q[..d][n - 1] == q[n - 1];
      SomeNewline(q[..d], n - 1);
    } else {
      assert q[..0] == [];
      NoNewlines([]);
    }
  }

  lemma {:induction false} SomeNewline(q: seq<byte>, k: nat)
    requires k < |q| && q[k] == LF
    ensures Newlines(q) > 0
  {
    if k > 0 { SomeNewline(q[1..], k - 1); }
  }

  lemma PrintKeeps(r: Run, text: seq<byte>)
    requires Kept(r)
    ensures Kept(Step(r, Print(text)))
  {
    hide LineOf, Newest, Counted, Complete, Printed, IsLine;
    var line := LineOf(text);
    LineOfIsLine(text);
    PrintKeepsNewest(r, line);
    PrintKeepsCounted(r, line);
    PrintKeepsComplete(r, line);
  }

  lemma TakeKeeps(r: Run, n: nat)
    requires Kept(r)
    ensures Kept(Step(r, Take(n)))
  {
    hide Newlines, Newest, Counted, Complete;
    TakeKeepsNewest(r, n);
    TakeKeepsCounted(r, n);
    TakeKeepsComplete(r, n);
  }

  lemma TakeKeepsNewest(r: Run, n: nat)
    requires Newest(r)
    ensures Newest(Step(r, Take(n)))
  {
    hide Newlines;
    DropDrop(r.written, |r.written| - |r.q|, Min(n, |r.q|));
  }

  lemma TakeKeepsCounted(r: Run, n: nat)
    requires Counted(r)
    ensures Counted(Step(r, Take(n)))
  {
    hide Newlines, Terminated;
    var k := Min(n, |r.q|);
    NewlinesSplit(r.q, k);
    NewlinesConcat(r.taken, r.q[..k]);
    RestTerminated(r.q, k);
  }

  lemma RestTerminated(q: seq<byte>, k: nat)
    requires Terminated(q) && k <= |q|
    ensures Terminated(q[k..])
  {
    if k < |q| { assert q[k..][|q| - k - 1] == q[|q| - 1]; }
  }

  lemma TakeKeepsComplete(r: Run, n: nat)
    requires Complete(r)
    ensures Complete(Step(r, Take(n)))
  {
    hide Newlines;
    var k := Min(n, |r.q|);
    assert r.taken + r.q == (r.taken + r.q[..k]) + r.q[k..];
  }

  lemma ResetKeeps(r: Run)
    requires Kept(r)
    ensures Kept(Step(r, Reset))
  {
    hide Newlines, Terminated;
  }

  lemma EmptyRunKept(r: Run)
    requires r == Run([], 0, [], [], 0, 0)
    ensures Kept(r)
  {
    hide Newlines, Newest, Counted, Complete;
    EmptyNewest(r);
    EmptyCounted(r);
    EmptyComplete(r);
  }

  lemma EmptyNewest(r: Run)
    requires r.q == [] && r.written == []
    ensures Newest(r)
  {
  }

  lemma EmptyCounted(r: Run)
    requires r.q == [] && r.written == [] && r.taken == [] && r.lost == 0 && r.dropped == 0 && r.lostBefore == 0
    ensures Counted(r)
  {
    hide Newlines;
    NoNewlines([]);
  }

  lemma EmptyComplete(r: Run)
    requires r.q == [] && r.written == [] && r.taken == []
    ensures Complete(r)
  {
  }

  /** In every run: the queue is the newest bytes written; newlines written are newlines
      delivered, discarded or waiting; the counter is the number discarded since its last
      reset; and while nothing was discarded the reader has every byte, in order. */
  lemma {:induction false} EveryRunKept(uses: seq<Use>)
    ensures Kept(After(uses))
  {
    hide Newest, Counted, Complete, Step;
    if uses == [] {
      EmptyRunKept(After(uses));
    } else {
      var before := uses[..|uses| - 1];
      EveryRunKept(before);
      match uses[|uses| - 1]
      case Print(text) =>
        PrintKeeps(After(before), text);
      case Take(n) => TakeKeeps(After(before), n);
      case Reset => ResetKeeps(After(before));
    }
  }

  /** log_tick, when a client connects, logs the counter and then resets it. The lines that
      the marker itself pushes out are never reported: the report is complete exactly when
      the marker fits into the free space. */
  lemma MarkerReport(uses: seq<Use>, marker: seq<byte>)
    ensures var r := After(uses); var s := After(uses + [Print(marker), Reset]);
      && s.dropped == 0
      && (s.lost - r.lostBefore == r.dropped <==> |r.q| + |LineOf(marker)| <= RING_BYTES)
  {
    hide LineOf, Kept, After, Step, Printed, IsLine;
    AfterTwoUses(uses, Print(marker), Reset);
    EveryRunKept(uses);
    MarkerStep(After(uses), marker);
  }

  lemma MarkerStep(r: Run, marker: seq<byte>)
    requires Kept(r)
    ensures var s := Step(Step(r, Print(marker)), Reset);
      s.dropped == 0 && (s.lost - r.lostBefore == r.dropped <==> |r.q| + |LineOf(marker)| <= RING_BYTES)
  {
    hide LineOf, Kept, Printed, IsLine;
    LineOfIsLine(marker);
    MarkerLoses(r, LineOf(marker));
  }

  /** A line loses nothing exactly if it fits into the free space. */
  lemma MarkerLoses(r: Run, line: seq<byte>)
    requires Kept(r) && IsLine(line)
    ensures Printed(r, line).lost - r.lostBefore == r.dropped <==> |r.q| + |line| <= RING_BYTES
  {
    hide Newlines, Drop, Newest, Complete, Printed, Terminated;
    PrintedParts(r, line);
    DropLosesNewline(r.q, |line|);
  }

  lemma AfterTwoUses(uses: seq<Use>, u: Use, v: Use)
    ensures After(uses + [u, v]) == Step(Step(After(uses), u), v)
  {
    hide Step;
    var all := uses + [u, v];
    assert all[..|all| - 1] == uses + [u];
    assert (uses + [u])[..|uses|] == uses;
  }
}
