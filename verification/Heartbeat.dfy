/**
 * The stream of frames over many ticks of the link, whatever the clients and the axis do in
 * between: how frames and cyclic commands are numbered, when they are sent, and which status
 * is kept.
 */
module Heartbeat {
  import opened Bytes
  import opened Frame
  import opened MotorEnd
  import opened Pipeline
  import opened System
  import opened Time
  import opened Wire
  import Link = Cia402

  /** A tick, and the slot, its data field, the composed word and the status it finds. */
  datatype Round = Round(pipe: Pipe, field: seq<byte>, word: Word, status: Link.Cyclic, tick: Link.TickIn) {
    ghost predicate Valid() {
      && pipe.Valid() && Link.SmallRequest(pipe.slot.req) && |field| == DATA_MAX && status.Valid() && |tick.wire| == FRAME_BYTES
      && (!pipe.slot.req.isRead ==> pipe.slot.req.data <= field)
    }
  }

  ghost predicate ValidRounds(rounds: seq<Round>) { forall i :: 0 <= i < |rounds| ==> rounds[i].Valid() }

  function Found(l: Link.Link, r: Round): Link.Link { l.(pipe := r.pipe, cmd := CommandOf(r.word), status := r.status) }

  function Played(l: Link.Link, rounds: seq<Round>): (m: Link.Link)
    requires l.Valid() && ValidRounds(rounds)
    ensures m.Valid()
  {
    if rounds == [] then l
    else
      var n := |rounds| - 1;
      Link.Ticked(Found(Played(l, rounds[..n]), rounds[n]), rounds[n].tick)
  }

  /** The frames sent, oldest first. */
  ghost function Frames(l: Link.Link, rounds: seq<Round>): seq<seq<byte>>
    requires l.Valid() && ValidRounds(rounds)
    ensures forall f :: f in Frames(l, rounds) ==> |f| == 64
  {
    if rounds == [] then []
    else
      var n := |rounds| - 1;
      var m := Found(Played(l, rounds[..n]), rounds[n]);
      Frames(l, rounds[..n]) + if Link.Transmits(m, rounds[n].tick.now) then [Link.FrameSent(m, rounds[n].field)] else []
  }

  /** Their numbers, and the counters of the cyclic commands among them. */
  ghost function Numbers(frames: seq<seq<byte>>): seq<nat>
    requires forall f :: f in frames ==> |f| == 64
  {
    if frames == [] then [] else Numbers(frames[..|frames| - 1]) + [NumberOf(frames[|frames| - 1])]
  }

  ghost function Counters(frames: seq<seq<byte>>): seq<nat>
    requires forall f :: f in frames ==> |f| == 64
  {
    if frames == [] then []
    else
      var h := Hear(frames[|frames| - 1]);
      Counters(frames[..|frames| - 1]) + if h.Command? then [h.counter] else []
  }

  /** The numbers count on from the one before the first, and wrap. */
  ghost predicate CountsOn(before: nat, s: seq<nat>, modulus: nat)
    requires modulus > 0
  {
    forall i :: 0 <= i < |s| ==> s[i] == (before + 1 + i) % modulus
  }

  lemma TickCounts(l: Link.Link, r: Round)
    requires l.Valid() && r.Valid()
    ensures var m := Found(l, r);
      var u := Link.Ticked(m, r.tick);
      if !Link.Transmits(l, r.tick.now) then !Link.Transmits(m, r.tick.now) && u.sequence == l.sequence && u.counter == l.counter && u.lastTick == l.lastTick
      else
        var f := Link.FrameSent(m, r.field);
        && Link.Transmits(m, r.tick.now) && u.sequence == (l.sequence + 1) % TWO_16 && u.lastTick == Clock(r.tick.now)
        && |f| == 64 && NumberOf(f) == u.sequence
        && (if Hear(f).Command? then u.counter == Hear(f).counter == (l.counter + 1) % TWO_32 else u.counter == l.counter)
  {
    hide Link.Sort, Validate, AnswerOf, Exchange, Link.TakeStatus, Link.FrameSent, CommandOf, Hear, NumberOf;
    FrameIsHeard(Found(l, r), r.field, r.word);
    FrameLength(Found(l, r), r.field);
  }

  lemma FrameLength(l: Link.Link, field: seq<byte>)
    requires l.Valid() && Link.SmallRequest(l.pipe.slot.req) && |field| == DATA_MAX
    ensures |Link.FrameSent(l, field)| == 64
  {
    hide FrameOf, Link.CyclicPayload, Link.ReadReqPayload, Link.WriteReqPayload;
  }

  /** These frames lead the link's numbers from those of l to those of m. */
  ghost predicate Counted(l: Link.Link, m: Link.Link, frames: seq<seq<byte>>)
    requires l.Valid() && m.Valid() && forall f :: f in frames ==> |f| == 64
  {
    && CountsOn(l.sequence, Numbers(frames), TWO_16) && m.sequence == (l.sequence + |Numbers(frames)|) % TWO_16
    && CountsOn(l.counter, Counters(frames), TWO_32) && m.counter == (l.counter + |Counters(frames)|) % TWO_32
  }

  /**
   * The frames sent are numbered one after the other and the cyclic commands among them too,
   * each in its own counter, whatever requests come in between.
   */
  lemma {:induction false} FramesCountUp(l: Link.Link, rounds: seq<Round>)
    requires l.Valid() && ValidRounds(rounds)
    ensures Counted(l, Played(l, rounds), Frames(l, rounds))
    decreases |rounds|
  {
    hide Link.Ticked, Link.Transmits, Link.FrameSent, Hear, NumberOf, Counted, Found;
    if rounds == [] {
      NothingCounted(l);
    } else {
      var n := |rounds| - 1;
      FramesCountUp(l, rounds[..n]);
      var m, sent := Played(l, rounds[..n]), Frames(l, rounds[..n]);
      TickCounts(m, rounds[n]);
      assert sent + [] == sent;
      CountedTick(l, m, sent, rounds[n]);
    }
  }

  lemma CountedTick(l: Link.Link, m: Link.Link, sent: seq<seq<byte>>, r: Round)
    requires l.Valid() && m.Valid() && r.Valid() && (forall f :: f in sent ==> |f| == 64) && Counted(l, m, sent)
    ensures var u := Link.Ticked(Found(m, r), r.tick);
      if !Link.Transmits(m, r.tick.now) then Counted(l, u, sent)
      else
        var f := Link.FrameSent(Found(m, r), r.field);
        (forall g :: g in sent + [f] ==> |g| == 64) && Counted(l, u, sent + [f])
  {
    hide Link.Ticked, Link.Transmits, Link.FrameSent, Hear, NumberOf, CountsOn, Numbers, Counters;
    TickCounts(m, r);
    if Link.Transmits(m, r.tick.now) {
      var f := Link.FrameSent(Found(m, r), r.field);
      OneFrameMore(sent, f);
      CountedNumber(l.sequence, Numbers(sent), m.sequence, NumberOf(f));
      CountedCommand(l.counter, Counters(sent), m.counter, (m.counter + 1) % TWO_32);
      assert Counters(sent) + [] == Counters(sent);
    }
  }

  lemma NothingCounted(l: Link.Link)
    requires l.Valid()
    ensures Counted(l, l, [])
  {
  }

  lemma OneFrameMore(sent: seq<seq<byte>>, f: seq<byte>)
    requires |f| == 64 && forall g :: g in sent ==> |g| == 64
    ensures forall g :: g in sent + [f] ==> |g| == 64
    ensures Numbers(sent + [f]) == Numbers(sent) + [NumberOf(f)]
    ensures Counters(sent + [f]) == Counters(sent) + if Hear(f).Command? then [Hear(f).counter] else []
  {
    hide Hear, NumberOf;
    assert (sent + [f])[..|sent|] == sent;
  }

  lemma CountedNumber(before: nat, s: seq<nat>, last: nat, next: nat)
    requires CountsOn(before, s, TWO_16) && last == (before + |s|) % TWO_16 && next == (last + 1) % TWO_16
    ensures CountsOn(before, s + [next], TWO_16) && next == (before + |s + [next]|) % TWO_16
  {
  }

  lemma CountedCommand(before: nat, s: seq<nat>, last: nat, next: nat)
    requires CountsOn(before, s, TWO_32) && last == (before + |s|) % TWO_32 && next == (last + 1) % TWO_32
    ensures CountsOn(before, s + [next], TWO_32) && next == (before + |s + [next]|) % TWO_32
  {
  }

  /** The clock reading of the last frame sent. */
  function LastSent(l: Link.Link, rounds: seq<Round>): nat
    requires l.Valid() && ValidRounds(rounds)
  {
    if rounds == [] then l.lastTick
    else
      var n := |rounds| - 1;
      var before := LastSent(l, rounds[..n]);
      if Clock(rounds[n].tick.now) != before then Clock(rounds[n].tick.now) else before
  }

  /** A tick sends a frame exactly if its millisecond is not that of the last frame. */
  lemma {:induction false} OneFrameEachMillisecond(l: Link.Link, rounds: seq<Round>, r: Round)
    requires l.Valid() && ValidRounds(rounds) && r.Valid()
    ensures Played(l, rounds).lastTick == LastSent(l, rounds)
    ensures Link.Transmits(Found(Played(l, rounds), r), r.tick.now) <==> Clock(r.tick.now) != LastSent(l, rounds)
    decreases |rounds|
  {
    hide Link.Ticked, Hear, NumberOf, Link.FrameSent, Clock;
    NewMillisecond(Played(l, rounds), r.tick.now);
    if rounds != [] {
      var n := |rounds| - 1;
      OneFrameEachMillisecond(l, rounds[..n], rounds[n]);
      TickCounts(Played(l, rounds[..n]), rounds[n]);
    }
  }

  lemma NewMillisecond(l: Link.Link, now: nat)
    requires l.Valid()
    ensures Link.Transmits(l, now) <==> Clock(now) != l.lastTick
  {
  }

  /** A tick keeps the status that a sound status frame brings, and no other. */
  lemma TickTakesStatus(l: Link.Link, t: Link.TickIn)
    requires l.Valid() && |t.wire| == FRAME_BYTES
    ensures Link.Ticked(l, t).status ==
      if Link.Transmits(l, t.now) && t.spiOk && Sound(t.wire) && t.wire[3] == 0x02
      then Link.TakeStatus(l.status, t.wire[10..10 + Rd16(t.wire[4..6])]) else l.status
  {
    hide Link.Sort, Validate, Sound, AnswerOf, Exchange, Link.TakeStatus, Rd16;
    TypesAreTaken(t.wire);
  }
}
