/**
 * Recalling a shot: the position and the time that an accepted move sends to the axis are those
 * of the last store under its number, over whole runs of calls; and what the panel's other
 * calls do to the axis.
 */
module Recall {
  import opened Moves
  import opened Scaling
  import opened Setpoints
  import opened Shots
  import opened Time
  import Sys = System

  // ----- What the table holds -----

  /** The number under which a call stores a shot, 0 for none: STORE NEXT takes the number
      after the current shot's, or the first. */
  function StoredNumber(s: State, e: Event): nat {
    match e
    case StoreShot(n, _) => if n <= 100 then n else 0
    case StoreNext(_) => if 1 <= s.current <= 99 then s.current + 1 else 1
    case _ => 0
  }

  function StoredAs(s: State, run: seq<Call>, k: nat): nat
    requires s.Valid() && k < |run|
  {
    StoredNumber(Before(s, run, k), run[k].event)
  }

  /** Call k is the last that stores a shot under number n. */
  ghost predicate LastStored(s: State, run: seq<Call>, n: nat, k: nat)
    requires s.Valid()
  {
    && k < |run| && StoredAs(s, run, k) == n
    && forall i :: k < i < |run| ==> StoredAs(s, run, i) != n
  }

  ghost predicate NeverStored(s: State, run: seq<Call>, n: nat)
    requires s.Valid()
  {
    forall i :: 0 <= i < |run| ==> StoredAs(s, run, i) != n
  }

  /** The shot under number n as the run left it: of the last store under it, with the
      operator's time at that moment, or as loaded at boot if there was none. */
  ghost predicate Holds(s: State, run: seq<Call>, n: nat, shot: Shot)
    requires s.Valid() && 1 <= n <= 100
  {
    && (forall k: nat :: LastStored(s, run, n, k) ==>
         && (run[k].event.StoreShot? || run[k].event.StoreNext?)
         && shot == Shot(true, run[k].event.position, Before(s, run, k).tenths as real * 0.1))
    && (NeverStored(s, run, n) ==> shot == s.shots[n - 1])
    && (!NeverStored(s, run, n) ==> shot.valid)
  }

  lemma NextStores(s: State, e: Event, now: nat, n: nat)
    requires s.Valid() && 1 <= n <= 100
    ensures StoredNumber(s, e) == n ==> e.StoreShot? || e.StoreNext?
    ensures Next(s, e, now).shots[n - 1] ==
      if StoredNumber(s, e) == n then Shot(true, e.position, s.tenths as real * 0.1) else s.shots[n - 1]
  {
    hide Elapsed, Clock, Duration, RoundTenths, AckWatch, Watchdog;
    if e.Update? { WatchesKeepMove(s, e.moving, now); }
  }

  lemma PrefixStores(s: State, run: seq<Call>, k: nat, m: nat)
    requires s.Valid() && k < m <= |run|
    ensures StoredAs(s, run[..m], k) == StoredAs(s, run, k) && Before(s, run[..m], k) == Before(s, run, k)
  {
    hide StoredNumber;
    BeforeOfPrefix(s, run, k, m);
  }

  /** In every run the table holds under every number the shot last stored under it. */
  lemma {:induction false} ShotIsKept(s: State, run: seq<Call>, n: nat)
    requires s.Valid() && 1 <= n <= 100
    ensures Holds(s, run, n, After(s, run).shots[n - 1])
    decreases |run|
  {
    hide Next, Holds;
    if run == [] {
      assert Holds(s, run, n, s.shots[n - 1]) by { NothingHeld(s, n); }
    } else {
      var m := |run| - 1;
      ShotIsKept(s, run[..m], n);
      NextStores(After(s, run[..m]), run[m].event, run[m].now, n);
      HoldsOn(s, run, n, After(s, run[..m]).shots[n - 1], After(s, run).shots[n - 1]);
    }
  }

  lemma NothingHeld(s: State, n: nat)
    requires s.Valid() && 1 <= n <= 100
    ensures Holds(s, [], n, s.shots[n - 1])
  {
  }

  lemma PrefixHolds(s: State, run: seq<Call>, n: nat)
    requires s.Valid() && run != [] && StoredAs(s, run, |run| - 1) != n
    ensures NeverStored(s, run, n) <==> NeverStored(s, run[..|run| - 1], n)
    ensures forall k: nat | LastStored(s, run, n, k) :: k < |run| - 1 && LastStored(s, run[..|run| - 1], n, k)
  {
    hide Before, StoredAs;
    var m := |run| - 1;
    var before := run[..m];
    forall k: nat | k < m ensures StoredAs(s, before, k) == StoredAs(s, run, k) { PrefixStores(s, run, k, m); }
    if NeverStored(s, before, n) {
      forall i: nat | i < |run| ensures StoredAs(s, run, i) != n { if i < m { assert StoredAs(s, before, i) != n; } }
    }
  }

  lemma HoldsOn(s: State, run: seq<Call>, n: nat, was: Shot, shot: Shot)
    requires s.Valid() && 1 <= n <= 100 && run != [] && Holds(s, run[..|run| - 1], n, was)
    requires var m := |run| - 1;
      && (StoredAs(s, run, m) == n ==> run[m].event.StoreShot? || run[m].event.StoreNext?)
      && shot == if StoredAs(s, run, m) == n then Shot(true, run[m].event.position, Before(s, run, m).tenths as real * 0.1) else was
    ensures Holds(s, run, n, shot)
  {
    hide Before, StoredAs;
    var m := |run| - 1;
    if StoredAs(s, run, m) == n {
      forall k: nat | LastStored(s, run, n, k) ensures k == m {}
    } else {
      hide NeverStored, LastStored;
      PrefixHolds(s, run, n);
      forall k: nat | LastStored(s, run, n, k) ensures run[..m][k] == run[k] && Before(s, run[..m], k) == Before(s, run, k) {
        PrefixStores(s, run, k, m);
      }
    }
  }

  /** The number of the last shot stored or arrived at. */
  function LastNumber(s: State, run: seq<Call>): nat
    requires s.Valid()
  {
    if run == [] then s.current
    else
      var m := |run| - 1;
      if StoredAs(s, run, m) != 0 then StoredAs(s, run, m)
      else if Arrival(s, run, m) then Before(s, run, m).next else LastNumber(s, run[..m])
  }

  lemma {:induction false} CurrentIsLast(s: State, run: seq<Call>)
    requires s.Valid()
    ensures After(s, run).current == LastNumber(s, run)
    decreases |run|
  {
    hide Next, Arrives;
    if run != [] {
      var m := |run| - 1;
      CurrentIsLast(s, run[..m]);
      assert Before(s, run, m) == After(s, run[..m]);
      NextCurrent(After(s, run[..m]), run[m].event, run[m].now);
    }
  }

  lemma NextCurrent(s: State, e: Event, now: nat)
    requires s.Valid()
    ensures Next(s, e, now).current ==
      if StoredNumber(s, e) != 0 then StoredNumber(s, e) else if Arrives(s, e, now) then s.next else s.current
  {
    hide Elapsed, Clock, Duration, RoundTenths, AckWatch, Watchdog;
    if e.Update? { WatchesKeepMove(s, e.moving, now); }
  }

  // ----- Locked-in time -----

  /** Call k changes the operator's time: it sets it, or starts a move, or ends one. */
  predicate Retimes(s: State, run: seq<Call>, k: nat)
    requires s.Valid() && k < |run|
  {
    run[k].event.SetTime? || Starts(s, run, k) || Arrival(s, run, k)
  }

  lemma NextRetimes(s: State, e: Event, now: nat)
    requires s.Valid()
    ensures var t := Next(s, e, now).tenths;
      && (e.SetTime? ==> t == e.tenths)
      && (Arrives(s, e, now) ==> t == 0)
      && (!e.SetTime? && !Arrives(s, e, now) && !(e.MoveTo? && Accepted(s, e.shotNo, e.homed)) ==> t == s.tenths)
  {
    hide Elapsed, Clock, Duration, RoundTenths, AckWatch, Watchdog;
    if e.Update? { WatchesKeepMove(s, e.moving, now); }
  }

  /** A time the operator sets stays until he sets another, a move takes it or one arrives. */
  lemma {:induction false} TimeIsLocked(s: State, run: seq<Call>, k: nat)
    requires s.Valid() && k < |run| && run[k].event.SetTime? && forall i :: k < i < |run| ==> !Retimes(s, run, i)
    ensures After(s, run).tenths == run[k].event.tenths
    decreases |run|
  {
    hide Next, Arrives, Accepted;
    var m := |run| - 1;
    var before := run[..m];
    assert Before(s, run, m) == After(s, before);
    NextRetimes(After(s, before), run[m].event, run[m].now);
    if k < m {
      assert !Retimes(s, run, m);
      forall i | k < i < m ensures !Retimes(s, before, i) {
        BeforeOfPrefix(s, run, i, m);
        assert !Retimes(s, run, i);
      }
      TimeIsLocked(s, before, k);
    }
  }

  // ----- The move -----

  /** The time of a move: none for a cut; for a fade the operator's, in tenths, if he set one,
      else the stored one, and at least 0.1 s. */
  predicate Takes(t: real, isCut: bool, tenths: nat, stored: real) {
    if isCut then t == 0.0 else if tenths > 0 then t * 10.0 == tenths as real else t == if stored > 0.1 then stored else 0.1
  }

  /**
   * In every run a recall is answered by exactly one move if the number is valid, the axis is
   * homed and there is a shot, and by nothing if not. The move goes to the position of the last
   * store under that number, or to the one loaded at boot, and takes the operator's time or the
   * time stored with it; the time shown afterwards is the nearest tenth.
   */
  lemma RecallGoes(s: State, run: seq<Call>, n: nat, isCut: bool, homed: bool, now: nat)
    requires s.Valid()
    ensures var t, e := After(s, run), MoveTo(n, isCut, homed);
      var f := Effects(t, e, now);
      if !(1 <= n <= 100) || !homed || (NeverStored(s, run, n) && !s.shots[n - 1].valid) then f == [] && Next(t, e, now) == t
      else
        && |f| == 1 && f[0].GoTo?
        && Holds(s, run, n, t.shots[n - 1])
        && f[0].position == t.shots[n - 1].position && Takes(f[0].time, isCut, t.tenths, t.shots[n - 1].time)
        && f[0].time * 10.0 - 0.5 < Next(t, e, now).tenths as real <= f[0].time * 10.0 + 0.5
        && Next(t, e, now).next == n && Next(t, e, now).shots == t.shots
  {
    hide After, Before, LastStored, Takes, Duration, RoundTenths, Clock;
    if 1 <= n <= 100 {
      ShotIsKept(s, run, n);
      if Accepted(After(s, run), n, homed) { DurationTakes(After(s, run), n, isCut); }
    }
  }

  lemma DurationTakes(s: State, n: nat, isCut: bool)
    requires s.Valid() && ValidShotNo(n)
    ensures var t := Duration(s, n, isCut);
      Takes(t, isCut, s.tenths, s.shots[n - 1].time) && t * 10.0 - 0.5 < RoundTenths(t) as real <= t * 10.0 + 0.5
  {
  }

  // ----- The stick -----

  /** Call k is a deflection that is listened to, or an update that lets go of the stick. */
  predicate Honoured(s: State, run: seq<Call>, k: nat)
    requires s.Valid() && k < |run|
  {
    run[k].event.Movement? && !Before(s, run, k).moving
  }

  predicate Zeroed(s: State, run: seq<Call>, k: nat)
    requires s.Valid() && k < |run|
  {
    run[k].event.Update? && Effects(Before(s, run, k), run[k].event, run[k].now) != []
  }

  /** The last deflection listened to passes on its own value, in joystick mode, and the first
      update more than 100 ms later puts the stick back to rest, and none before. */
  lemma StickIsZeroed(s: State, run: seq<Call>, k: nat, moving: bool, onTarget: bool, now: nat)
    requires s.Valid() && k < |run| && Honoured(s, run, k) && run[k].now <= now < run[k].now + TWO_32
    requires forall i :: k < i < |run| ==> !Honoured(s, run, i) && !Zeroed(s, run, i)
    ensures var e := run[k].event;
      Effects(Before(s, run, k), e, run[k].now) == (if e.inJoystick then [] else [EnterJoystick]) + [StickRaw(e.pan)]
    ensures Effects(After(s, run), Update(moving, onTarget), now) == if now > run[k].now + 100 then [StickRaw(0)] else []
  {
    hide After, Elapsed, Clock;
    StickIsHeld(s, run, k);
    ElapsedIsReal(run[k].now, now);
  }

  lemma {:induction false} StickIsHeld(s: State, run: seq<Call>, k: nat)
    requires s.Valid() && k < |run| && Honoured(s, run, k)
    requires forall i :: k < i < |run| ==> !Honoured(s, run, i) && !Zeroed(s, run, i)
    ensures After(s, run).movementActive && After(s, run).lastMovement == Clock(run[k].now)
    decreases |run|
  {
    hide Next, Effects, Clock;
    var m := |run| - 1;
    var before := run[..m];
    assert Before(s, run, m) == After(s, before);
    NextHolds(After(s, before), run[m].event, run[m].now);
    if k < m {
      assert !Honoured(s, run, m) && !Zeroed(s, run, m);
      BeforeOfPrefix(s, run, k, m);
      forall i | k < i < m ensures !Honoured(s, before, i) && !Zeroed(s, before, i) {
        BeforeOfPrefix(s, run, i, m);
        assert !Honoured(s, run, i) && !Zeroed(s, run, i);
      }
      StickIsHeld(s, before, k);
    }
  }

  lemma NextHolds(s: State, e: Event, now: nat)
    requires s.Valid()
    ensures var t := Next(s, e, now);
      && (e.Movement? && !s.moving ==> t.movementActive && t.lastMovement == Clock(now))
      && (!(e.Movement? && !s.moving) && !(e.Update? && Effects(s, e, now) != []) ==>
           t.movementActive == s.movementActive && t.lastMovement == s.lastMovement)
  {
    hide Elapsed, Clock, Duration, RoundTenths;
  }

  // ----- What is shown -----

  /** The last arrival or accepted move was an arrival. */
  predicate LampLit(s: State, run: seq<Call>)
    requires s.Valid()
  {
    run != [] &&
    var m := |run| - 1;
    Arrival(s, run, m) || (!Starts(s, run, m) && LampLit(s, run[..m]))
  }

  /** The motor moves by the last update, unless STOP came after it. */
  predicate LastSeen(run: seq<Call>) {
    run != [] &&
    match run[|run| - 1].event
    case Update(moving, _) => moving
    case Stop => false
    case _ => LastSeen(run[..|run| - 1])
  }

  lemma NextShows(s: State, e: Event, now: nat)
    requires MoveInvariant(s) && (s.next != 0 ==> !s.onShot)
    ensures var t, starts := Next(s, e, now), e.MoveTo? && Accepted(s, e.shotNo, e.homed);
      && (t.onShot <==> Arrives(s, e, now) || (!starts && s.onShot)) && (t.next != 0 ==> !t.onShot)
      && (t.next == 0 ==> t.moving == (if e.Update? then e.moving else if e.Stop? then false else s.moving))
      && (t.next == 0 ==> e.Update? || e.Stop? || s.next == 0)
  {
    hide Elapsed, Clock, Duration, RoundTenths, AckWatch, Watchdog;
    if e.Update? { WatchesShow(s, e.moving, now); }
  }

  lemma WatchesShow(s: State, moving: bool, now: nat)
    requires s.Valid()
    ensures var w := AckWatch(Watchdog(s, now), moving, now);
      && w.next == s.next && w.shots == s.shots && w.started == s.started && w.moving == s.moving && w.onShot == s.onShot
      && (ShotOpen(s) ==>
           && w.ackSeen == (s.ackSeen || moving)
           && w.ackWarned == (s.ackWarned || (!s.ackSeen && !moving && Elapsed(now, s.started) > 500)))
  {
    hide Elapsed;
  }

  /** In every run the on-shot lamp is lit exactly from an arrival to the next accepted move, and
      the axis is shown as moving while a move is open, and else as the motor last said. */
  lemma {:induction false} LampsAreRight(s: State, run: seq<Call>)
    requires Initial(s) && !s.onShot
    ensures var t := After(s, run);
      && (t.onShot <==> LampLit(s, run)) && (t.next != 0 ==> !t.onShot)
      && (t.moving <==> t.next != 0 || LastSeen(run))
    decreases |run|
  {
    hide Next, Arrives, Accepted;
    EveryRunKeepsMove(s, run);
    if run != [] {
      var m := |run| - 1;
      LampsAreRight(s, run[..m]);
      EveryRunKeepsMove(s, run[..m]);
      assert Before(s, run, m) == After(s, run[..m]);
      NextShows(After(s, run[..m]), run[m].event, run[m].now);
    }
  }

  /** No update from call i to call k saw the motor move. */
  ghost predicate Unseen(run: seq<Call>, i: nat, k: nat)
    requires k < |run|
  {
    forall j :: i < j <= k && run[j].event.Update? ==> !run[j].event.moving
  }

  /** Some update before call n found the move of call i more than 500 ms old and the motor not
      yet seen to move. */
  ghost predicate Missed(run: seq<Call>, i: nat, n: nat)
    requires i < n <= |run|
  {
    exists k :: i < k < n && run[k].event.Update? && run[k].now > run[i].now + 500 && Unseen(run, i, k)
  }

  lemma NextWatches(s: State, e: Event, now: nat)
    requires MoveInvariant(s) && s.next != 0
    requires !e.Stop? && !Arrives(s, e, now) && !(e.MoveTo? && Accepted(s, e.shotNo, e.homed))
    ensures var t := Next(s, e, now);
      && t.next == s.next && t.started == s.started
      && t.ackSeen == (s.ackSeen || (e.Update? && e.moving))
      && t.ackWarned == (s.ackWarned || (e.Update? && !s.ackSeen && !e.moving && Elapsed(now, s.started) > 500))
  {
    hide Elapsed, Clock, Duration, RoundTenths, AckWatch, Watchdog;
    if e.Update? { WatchesShow(s, e.moving, now); }
  }

  lemma StartsUnseen(s: State, e: Event, now: nat)
    requires s.Valid() && e.MoveTo? && Accepted(s, e.shotNo, e.homed)
    ensures var t := Next(s, e, now); t.next == e.shotNo && t.started == Clock(now) && !t.ackSeen && !t.ackWarned
  {
    hide Clock, Duration, RoundTenths;
  }

  /** An open move is reported as missed if and only if the motor was not seen to move in its
      first 500 ms and then at an update. */
  lemma {:induction false} MissedMoveIsReported(s: State, run: seq<Call>, i: nat)
    requires Initial(s) && Ordered(run) && Opened(s, run, i, |run|) && run[|run| - 1].now < run[i].now + TWO_32
    ensures var t := After(s, run);
      && t.next == run[i].event.shotNo && t.started == Clock(run[i].now)
      && (t.ackSeen <==> !Unseen(run, i, |run| - 1)) && (t.ackWarned <==> Missed(run, i, |run|))
    decreases |run|
  {
    hide Next, Arrives, Elapsed, Clock;
    var m := |run| - 1;
    var before := run[..m];
    assert Before(s, run, m) == After(s, before);
    EveryRunKeepsMove(s, before);
    if i == m {
      StartsUnseen(After(s, before), run[m].event, run[m].now);
    } else {
      OpenedBefore(s, run, i);
      assert !Ends(s, run, m);
      MissedMoveIsReported(s, before, i);
      NextWatches(After(s, before), run[m].event, run[m].now);
      ElapsedIsReal(run[i].now, run[m].now);
      SeenLater(run, i);
    }
  }

  lemma OpenedBefore(s: State, run: seq<Call>, i: nat)
    requires s.Valid() && Opened(s, run, i, |run|) && i < |run| - 1
    ensures Opened(s, run[..|run| - 1], i, |run| - 1)
  {
    hide After, Arrives;
    var m := |run| - 1;
    forall j | i <= j < m ensures Ends(s, run, j) == Ends(s, run[..m], j) && Starts(s, run, j) == Starts(s, run[..m], j) {
      BeforeOfPrefix(s, run, j, m);
    }
  }

  lemma SeenLater(run: seq<Call>, i: nat)
    requires i < |run| - 1
    ensures var m := |run| - 1;
      && (Unseen(run, i, m) <==> Unseen(run[..m], i, m - 1) && !(run[m].event.Update? && run[m].event.moving))
      && (Missed(run, i, |run|) <==>
           Missed(run[..m], i, m) || (run[m].event.Update? && run[m].now > run[i].now + 500 && Unseen(run, i, m)))
  {
    var m := |run| - 1;
    forall k: nat | k < m ensures Unseen(run, i, k) <==> Unseen(run[..m], i, k) {
      assert forall j :: 0 <= j < m ==> run[..m][j] == run[j];
    }
  }

  // ----- Down to the axis -----

  /** The calls into cmc_state in a run of the whole. */
  function Calls(run: seq<Turn>): seq<Call> {
    if run == [] then []
    else
      var t := run[|run| - 1];
      Calls(run[..|run| - 1]) + if t.Panel? then [Call(t.event, t.now)] else []
  }

  lemma {:induction false} ShotsFollow(j: Joint, run: seq<Turn>)
    requires j.Valid() && Possible(j, run)
    ensures Reached(j, run).shots == After(j.shots, Calls(run))
    decreases |run|
  {
    hide Sys.After, Sys.Next, Next, Orders, Effects;
    if run != [] {
      var before, t := run[..|run| - 1], run[|run| - 1];
      ShotsFollow(j, before);
      if t.Panel? {
        assert Calls(run)[..|Calls(run)| - 1] == Calls(before);
      } else {
        assert Calls(run) == Calls(before);
      }
    }
  }

  lemma {:induction false} TwoOrders(s: Sys.Sys, f: Sys.Step, g: Sys.Step)
    requires s.Valid() && Sys.ValidStep(f) && Sys.ValidStep(g)
    ensures Sys.After(s, [f]) == Sys.Next(s, f) && Sys.After(s, [f, g]) == Sys.Next(Sys.Next(s, f), g) && Sys.After(s, []) == s
  {
    hide Sys.Next;
    assert [f, g][..1] == [f] && [f][..0] == [];
  }

  /** What an accepted move leaves on the axis. */
  lemma MoveOrders(j: Joint, t: Turn)
    requires j.Valid() && ValidTurn(j, t) && Accepts(j, t)
    ensures var d, f := j.sys.drive, Effects(j.shots, t.event, t.now);
      && |f| == 1 && f[0].GoTo?
      && Turned(j, t).sys == j.sys.(drive := d.(targets := d.targets.(mode := 3, position := t.position, time := t.time), startMove := true))
      && Decode(t.position) == Fin(f[0].position) && Rounded(t.time, f[0].time)
  {
    hide Duration, Rounded, Decode, Clock, RoundTenths, Orders, Sys.After;
    var d, f := j.sys.drive, Effects(j.shots, t.event, t.now);
    FewOrders(d, f[0], f[0], t.position, t.time, t.stick);
    var order := OrderOf(d, f[0], t.position, t.time, t.stick);
    assert f == [f[0]];
    assert f[0] in f;
    TwoOrders(j.sys, order[0], order[1]);
  }

  /**
   * From the panel to the axis, in every run of both: an accepted move puts the axis in
   * PROFILE_POSITION with the position of the last store under its number as the target, its
   * time as the target time and the start requested; and if that position is within the
   * limits, the setup the motor is to get is that position, to the nearest unit.
   */
  lemma RecallReachesAxis(j: Joint, run: seq<Turn>, t: Turn) returns (shot: Shot, time: real)
    requires j.Valid() && Possible(j, run) && ValidTurn(Reached(j, run), t) && Accepts(Reached(j, run), t)
    ensures 1 <= t.event.shotNo <= 100 && Holds(j.shots, Calls(run), t.event.shotNo, shot)
    ensures Takes(time, t.event.isCut, After(j.shots, Calls(run)).tenths, shot.time)
    ensures var s := Turned(Reached(j, run), t).sys;
      var p, lo, hi := Decode(s.drive.targets.position), Decode(s.proxy.slots[5].mirror), Decode(s.proxy.slots[6].mirror);
      && s.drive.startMove && s.Desired()[MODE] == 1 && p == Fin(shot.position) && Rounded(s.drive.targets.time, time)
      && (Within(p, lo, hi) ==> Near(p, 100000.0, s.Desired()[POSITION]))
  {
    hide Sys.After, Sys.Next, Next, Orders, Effects, After, Before, Holds, Takes, Rounded, Decode;
    hide ComputeDesired, Near, Within, Reached, Possible, Turned;
    var m, e := Reached(j, run), t.event;
    ShotsFollow(j, run);
    RecallGoes(j.shots, Calls(run), e.shotNo, e.isCut, e.homed, t.now);
    MoveOrders(m, t);
    shot, time := m.shots.shots[e.shotNo - 1], Effects(m.shots, e, t.now)[0].time;
    var s := Turned(m, t).sys;
    DesiredPosition(s.drive.targets, Sys.LimitsOf(s.proxy));
    DesiredMeans(s.drive.targets, Sys.LimitsOf(s.proxy));
  }

  /** STOP raises HALT for three composes and closes the move. */
  lemma StopOrders(j: Joint, t: Turn)
    requires j.Valid() && ValidTurn(j, t) && t.Panel? && t.event.Stop?
    ensures var k := Turned(j, t);
      k.sys == j.sys.(drive := j.sys.drive.(halt := 3)) && k.shots == j.shots.(moving := false, next := 0)
  {
    hide Orders, Sys.After;
    FewOrders(j.sys.drive, Halt, Halt, t.position, t.time, t.stick);
    TwoOrders(j.sys, Sys.RequestHalt, Sys.RequestHalt);
  }

  lemma StickSteps(d: Sys.Drive, raw: int, t: Turn)
    requires t.Panel?
    ensures Orders(d, [StickRaw(raw)], t.position, t.time, t.stick) == [Sys.SetStick(t.stick)]
    ensures Orders(d, [EnterJoystick, StickRaw(raw)], t.position, t.time, t.stick)
      == [Sys.SetTargets(d.targets.(mode := 1)), Sys.SetStick(t.stick)]
  {
    hide Orders;
    FewOrders(d, StickRaw(raw), StickRaw(raw), t.position, t.time, t.stick);
    FewOrders(d, EnterJoystick, StickRaw(raw), t.position, t.time, t.stick);
  }

  /** The stick moves the axis in joystick mode unless a move is open. */
  lemma StickOrders(j: Joint, t: Turn)
    requires j.Valid() && ValidTurn(j, t) && t.Panel? && t.event.Movement?
    ensures var d := j.sys.drive;
      Turned(j, t).sys ==
        if j.shots.moving then j.sys else j.sys.(drive := d.(targets := d.targets.(mode := 1), stick := t.stick))
  {
    hide Orders, OrderOf, Sys.After, Clock, Decode, Rounded, Next;
    var d, raw := j.sys.drive, StickRaw(t.event.pan);
    NoOrders(d, t.position, t.time, t.stick);
    StickSteps(d, t.event.pan, t);
    TwoOrders(j.sys, Sys.SetStick(t.stick), Sys.SetStick(t.stick));
    TwoOrders(j.sys, Sys.SetTargets(d.targets.(mode := 1)), Sys.SetStick(t.stick));
    assert t.event.inJoystick ==> d.targets == d.targets.(mode := 1);
    assert Effects(j.shots, t.event, t.now) ==
      if j.shots.moving then [] else if t.event.inJoystick then [raw] else [EnterJoystick, raw];
  }

  /** An update touches only the stick, and storing and setting times nothing of the axis. */
  lemma OtherOrders(j: Joint, t: Turn)
    requires j.Valid() && ValidTurn(j, t) && t.Panel? && !t.event.MoveTo? && !t.event.Stop? && !t.event.Movement?
    ensures Turned(j, t).sys == j.sys || (t.event.Update? && Turned(j, t).sys == j.sys.(drive := j.sys.drive.(stick := t.stick)))
  {
    hide Orders, Sys.After, Next, Elapsed;
    NoOrders(j.sys.drive, t.position, t.time, t.stick);
    FewOrders(j.sys.drive, StickRaw(0), StickRaw(0), t.position, t.time, t.stick);
    FewOrders(j.sys.drive, SaveShots, SaveShots, t.position, t.time, t.stick);
    TwoOrders(j.sys, Sys.SetStick(t.stick), Sys.SetStick(t.stick));
  }
}
