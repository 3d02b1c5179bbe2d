/** The gap deadline of the reorder buffer: which event set it, and exactly when a gap times out;
    and which counter each push moves. */
module ReorderDeadline {
  import opened Common
  import opened BlockWindow
  import opened ReorderSpec
  import opened ReorderRuns
  import RP = ReorderProgress

  /** The event gave up on a gap, by its deadline or by the hold limit. */
  ghost predicate GaveUp<P>(b: Buf<P>, d: Buf<P>) { d.stats.timeoutFlush != b.stats.timeoutFlush }

  /** From `b` to `d` the wait for a gap began: something is held now, and nothing was before or a
      gap was just given up on. */
  ghost predicate WaitBegins<P>(b: Buf<P>, d: Buf<P>) {
    d.held != map[] && (b.held == map[] || GaveUp(b, d))
  }

  /** A step that begins a wait sets the deadline to its own clock plus timeout; any other that
      leaves packets held leaves the deadline alone. */
  ghost predicate DeadlineFollows<P>(b: Buf<P>, d: Buf<P>, clock: int, timeout: int) {
    && (d.held == map[] ==> d.deadline == None)
    && (WaitBegins(b, d) ==> d.deadline == Some(clock + timeout))
    && (d.held != map[] && !WaitBegins(b, d) ==> d.deadline == b.deadline)
  }

  lemma DrainDeadline<P>(b: Buf<P>, clock: int, timeout: int)
    requires Drainable(b)
    ensures var d := Drain(b, clock, timeout);
            d.deadline == if d.held == map[] then None
                          else if b.deadline.None? then Some(clock + timeout)
                          else b.deadline
    ensures Drain(b, clock, timeout).stats.timeoutFlush == b.stats.timeoutFlush
    ensures b.held == map[] ==> Drain(b, clock, timeout).held == map[]
  {
    DrainRunKeeps(b);
    hide DrainRun;
  }

  lemma GiveUpDeadline<P>(b: Buf<P>, clock: int, timeout: int)
    requires Drainable(b) && b.held != map[]
    ensures var d := GiveUp(b, clock, timeout);
            && d.deadline == (if d.held == map[] then None else Some(clock + timeout))
            && d.stats.timeoutFlush == b.stats.timeoutFlush + 1
  {
    hide Drain, Window.Valid;
    DrainDeadline(b.(stats := b.stats.(timeoutFlush := b.stats.timeoutFlush + 1),
                     next := Least(b.held.Keys), deadline := None), clock, timeout);
  }

  lemma HoldDeadline<P>(b: Buf<P>, sn: nat, pkt: P, clock: int, timeout: int)
    requires Ready(b, sn) && sn > b.next
    ensures DeadlineFollows(b, Hold(b, sn, pkt, clock, timeout), clock, timeout)
  {
    hide GiveUp, Window.Valid;
    ShelveKeeps(b, sn, pkt, clock, timeout);
    var d := Shelve(b, sn, pkt, clock, timeout);
    if |d.held| > d.maxHold {
      GiveUpDeadline(d, clock, timeout);
    }
  }

  lemma PlaceDeadline<P>(b: Buf<P>, sn: nat, pkt: P, clock: int, timeout: int)
    requires Ready(b, sn)
    ensures DeadlineFollows(b, Place(b, sn, pkt, clock, timeout), clock, timeout)
  {
    hide Drain, Hold, Window.Valid;
    if sn == b.next {
      DrainDeadline(Emit(b, Item(b.next, pkt), false).(next := b.next + 1), clock, timeout);
    } else if sn > b.next {
      HoldDeadline(b, sn, pkt, clock, timeout);
    }
  }

  lemma PushDeadline<P>(b: Buf<P>, sn: nat, pkt: P, clock: int, timeout: int)
    requires Inv(b)
    ensures DeadlineFollows(b, Push(b, sn, pkt, clock, timeout), clock, timeout)
  {
    hide Place, MakeRoom, Window.Check, Window.Valid;
    b.window.CheckValid(sn);
    if b.window.Check(sn).1 {
      var b1 := b.(window := b.window.Check(sn).0);
      var b2 := MakeRoom(b1, sn);
      MakeRoomKeeps(b1, sn);
      RoomDeadline(b1, sn);
      PlaceDeadline(b2, sn, pkt, clock, timeout);
      if b2.held != b.held {
        EmptyStaysEmpty(b2, pkt, clock, timeout);
      }
    }
  }

  /** Making room either changes nothing about the gap or empties the buffer. */
  lemma RoomDeadline<P>(b: Buf<P>, sn: nat)
    requires Inv(b)
    ensures var d := MakeRoom(b, sn);
            && d.stats.timeoutFlush == b.stats.timeoutFlush
            && ((d.held == b.held && d.deadline == b.deadline) || (d.held == map[] && d.next == sn))
  {
    hide EmitBelow, Window.Valid;
    if b.started && sn >= b.next + RING_SIZE {
      var c := b.(stats := b.stats.(overflowSkip := b.stats.overflowSkip + 1));
      EmitBelowKeeps(c, sn);
      MakeRoomKeeps(b, sn);
    }
  }

  lemma EmptyStaysEmpty<P>(b: Buf<P>, pkt: P, clock: int, timeout: int)
    requires Ready(b, b.next) && b.held == map[]
    ensures Place(b, b.next, pkt, clock, timeout).held == map[]
    ensures Place(b, b.next, pkt, clock, timeout).stats.timeoutFlush == b.stats.timeoutFlush
  {
    hide Drain, Hold, Window.Valid;
    DrainDeadline(Emit(b, Item(b.next, pkt), false).(next := b.next + 1), clock, timeout);
  }

  lemma StepDeadline<P>(b: Buf<P>, e: Event<P>)
    requires Inv(b)
    ensures DeadlineFollows(b, Step(b, e), e.clock, e.timeout)
  {
    hide Push, GiveUp, Window.Valid;
    match e
    case Pushed(sn, pkt, clock, timeout) => PushDeadline(b, sn, pkt, clock, timeout);
    case Ticked(now, clock, timeout) =>
      if b.deadline.Some? {
        GiveUpDeadline(b, clock, timeout);
      }
  }

  // ----- Runs -----

  /** The wait for the gap that is pending after the run began with event `k`. */
  ghost predicate BeganAt<P>(maxHold: int, es: seq<Event<P>>, k: nat) {
    && k < |es|
    && WaitBegins(Run(maxHold, es[..k]), Run(maxHold, es[..k + 1]))
    && forall j | k < j < |es| :: Continues(maxHold, es, j)
  }

  ghost predicate Continues<P>(maxHold: int, es: seq<Event<P>>, j: nat)
    requires j < |es|
  {
    var b, d := Run(maxHold, es[..j]), Run(maxHold, es[..j + 1]);
    d.held != map[] && !WaitBegins(b, d)
  }

  lemma BeganEarlier<P>(maxHold: int, es: seq<Event<P>>, e: Event<P>, k: nat)
    requires BeganAt(maxHold, es, k)
    requires var d := Run(maxHold, es + [e]); d.held != map[] && !WaitBegins(Run(maxHold, es), d)
    ensures BeganAt(maxHold, es + [e], k)
  {
    hide Run, WaitBegins;
    var all := es + [e];
    assert all[..k] == es[..k] && all[..k + 1] == es[..k + 1];
    forall j | k < j < |all| ensures Continues(maxHold, all, j) {
      if j < |es| {
        assert all[..j] == es[..j] && all[..j + 1] == es[..j + 1];
        assert Continues(maxHold, es, j);
      } else {
        assert all[..j] == es && all[..j + 1] == all;
      }
    }
  }

  /** Over every run: while packets are held, the deadline is clock plus timeout of the event with
      which the wait for the pending gap began, and of no later one. */
  lemma {:induction false} DeadlineIs<P>(maxHold: int, es: seq<Event<P>>) returns (k: nat)
    requires Run(maxHold, es).held != map[]
    ensures BeganAt(maxHold, es, k)
    ensures Run(maxHold, es).deadline == Some(es[k].clock + es[k].timeout)
  {
    hide Run, Step, WaitBegins, Inv, Continues;
    if es == [] {
      EmptyHoldsNothing<P>(maxHold);
    }
    var prev, e := es[..|es| - 1], es[|es| - 1];
    assert es == prev + [e];
    RunInv(maxHold, prev);
    OneMore(maxHold, prev, e);
    StepDeadline(Run(maxHold, prev), e);
    if WaitBegins(Run(maxHold, prev), Run(maxHold, es)) {
      k := |prev|;
      assert es[..k] == prev && es[..k + 1] == es;
    } else {
      NoWaitFromEmpty(Run(maxHold, prev), Run(maxHold, es));
      k := DeadlineIs(maxHold, prev);
      BeganEarlier(maxHold, prev, e, k);
    }
  }

  lemma EmptyHoldsNothing<P>(maxHold: int)
    ensures Run<P>(maxHold, []).held == map[]
  {
  }

  lemma OneMore<P>(maxHold: int, es: seq<Event<P>>, e: Event<P>)
    ensures Run(maxHold, es + [e]) == Step(Run(maxHold, es), e)
  {
    hide Step;
    assert (es + [e])[..|es|] == es;
  }

  lemma NoWaitFromEmpty<P>(b: Buf<P>, d: Buf<P>)
    requires d.held != map[] && !WaitBegins(b, d)
    ensures b.held != map[]
  {
  }

  /** Hence exactly the flushes at or after that time give up on the gap; earlier ones change
      nothing. */
  lemma TimesOutIff<P>(maxHold: int, es: seq<Event<P>>, now: int, clock: int, timeout: int) returns (k: nat)
    requires Run(maxHold, es).held != map[]
    ensures BeganAt(maxHold, es, k)
    ensures var b := Run(maxHold, es); var d := FlushExpired(b, now, clock, timeout);
            if now >= es[k].clock + es[k].timeout
            then d.next > Least(b.held.Keys) && d.stats.timeoutFlush == b.stats.timeoutFlush + 1
            else d == b
  {
    k := DeadlineIs(maxHold, es);
    RunInv(maxHold, es);
    var b := Run(maxHold, es);
    hide Run, GiveUp, Window.Valid, BeganAt;
    if now >= b.deadline.value {
      GiveUpDeadline(b, clock, timeout);
      GiveUpMovesOn(b, clock, timeout);
    }
  }

  lemma GiveUpMovesOn<P>(b: Buf<P>, clock: int, timeout: int)
    requires Drainable(b) && b.held != map[]
    ensures GiveUp(b, clock, timeout).next > Least(b.held.Keys)
  {
    hide Window.Valid;
    var low := Least(b.held.Keys);
    var c := b.(stats := b.stats.(timeoutFlush := b.stats.timeoutFlush + 1), next := low, deadline := None);
    assert low in c.held;
    DrainRunKeeps(Deliver(c, low));
  }

  /** One lost packet and a steady stream behind it: the deadline does not move with the stream. */
  lemma StreamDoesNotPostpone<P>(p: P, q: P, r: P, maxHold: int)
    requires maxHold >= 2
    ensures var b := Run(maxHold, [Pushed(0, p, 0, 10)] + [Pushed(2, q, 0, 10)] + [Pushed(3, r, 8, 10)]);
            && b.deadline == Some(10) && b.held == map[2 := q, 3 := r]
            && FlushExpired(b, 10, 10, 10).emitted
               == [Emission(Item(0, p), false), Emission(Item(2, q), false), Emission(Item(3, r), false)]
  {
    hide Run, Push;
    var e1: seq<Event<P>> := [Pushed(0, p, 0, 10)];
    var e2 := e1 + [Pushed(2, q, 0, 10)];
    RP.PushFirst(maxHold, 0, p, 0, 10);
    OneMore(maxHold, e1, Pushed(2, q, 0, 10));
    OneMore(maxHold, e2, Pushed(3, r, 8, 10));
    var b1 := Run(maxHold, e1);
    RP.PushShelves(b1, 2, q, 0, 10);
    var b2 := Run(maxHold, e2);
    assert b2.window == Window(SEEN_BLOCKS, true, 2, {0, 2}) && b2.held == map[2 := q];
    assert |b2.held[3 := r]| == 2;
    RP.PushShelves(b2, 3, r, 8, 10);
    hide FlushExpired;
    FlushTwo(Run(maxHold, e2 + [Pushed(3, r, 8, 10)]), q, r);
  }

  lemma FlushTwo<P>(b: Buf<P>, q: P, r: P)
    requires b.held == map[2 := q, 3 := r] && b.deadline == Some(10)
    ensures FlushExpired(b, 10, 10, 10).emitted
         == b.emitted + [Emission(Item(2, q), false), Emission(Item(3, r), false)]
  {
    assert b.held.Keys == {2, 3};
    assert 2 in b.held.Keys;
    assert Least(b.held.Keys) == 2;
    var c := b.(stats := b.stats.(timeoutFlush := b.stats.timeoutFlush + 1), next := 2, deadline := None);
    var c1 := Deliver(c, 2);
    assert c1.held.Keys == {3} && c1.held[3] == r && c1.next == 3;
    var c2 := Deliver(c1, 3);
    assert c2.held.Keys == {};
    assert DrainRun(c2) == c2;
    assert DrainRun(c1) == DrainRun(c2);
    assert DrainRun(c) == DrainRun(c1);
  }

  // ----- Counters -----

  /** The counters other than `emitted`, which counts the log. */
  predicate Counted(s: Stats, t: Stats, reordered: nat, timeoutFlush: nat, latePass: nat, dupDrop: nat,
                    overflowSkip: nat) {
    && t.reordered == s.reordered + reordered && t.timeoutFlush == s.timeoutFlush + timeoutFlush
    && t.latePass == s.latePass + latePass && t.dupDrop == s.dupDrop + dupDrop
    && t.overflowSkip == s.overflowSkip + overflowSkip
  }

  lemma DrainCounts<P>(b: Buf<P>, clock: int, timeout: int)
    requires Drainable(b)
    ensures Counted(b.stats, Drain(b, clock, timeout).stats, 0, 0, 0, 0, 0)
  {
    DrainRunKeeps(b);
    hide DrainRun;
  }

  lemma HoldCounts<P>(b: Buf<P>, sn: nat, pkt: P, clock: int, timeout: int)
    requires Ready(b, sn) && sn > b.next
    ensures Counted(b.stats, Hold(b, sn, pkt, clock, timeout).stats, 1,
                    if |b.held.Keys + {sn}| > b.maxHold then 1 else 0, 0, 0, 0)
  {
    hide GiveUp, Window.Valid;
    ShelveKeeps(b, sn, pkt, clock, timeout);
    var d := Shelve(b, sn, pkt, clock, timeout);
    assert d.held.Keys == b.held.Keys + {sn};
    if |d.held| > d.maxHold {
      GiveUpKeeps(d, clock, timeout);
    }
  }

  /** What each push counts: a refused number as a duplicate; one below `next` as a late pass; one in
      the ring's span as reordered, and as a gap given up on exactly if more than `maxHold` packets
      would be held; one beyond the span as an overflow; and the one that is due as nothing. */
  lemma PushCounts<P>(b: Buf<P>, sn: nat, pkt: P, clock: int, timeout: int)
    requires Inv(b)
    ensures var t := Push(b, sn, pkt, clock, timeout).stats;
            if !b.window.Check(sn).1 then Counted(b.stats, t, 0, 0, 0, 1, 0)
            else if !b.started || sn == b.next then Counted(b.stats, t, 0, 0, 0, 0, 0)
            else if sn < b.next then Counted(b.stats, t, 0, 0, 1, 0, 0)
            else if sn < b.next + 8192 then
              Counted(b.stats, t, 1, if |b.held.Keys + {sn}| > b.maxHold then 1 else 0, 0, 0, 0)
            else Counted(b.stats, t, 0, 0, 0, 0, 1)
  {
    hide Drain, Hold, EmitBelow, Window.Check, Window.Valid;
    b.window.CheckValid(sn);
    if b.window.Check(sn).1 {
      var b1 := b.(window := b.window.Check(sn).0);
      MakeRoomKeeps(b1, sn);
      var b2 := MakeRoom(b1, sn);
      if b.started && sn >= b.next + RING_SIZE {
        EmitBelowKeeps(b1.(stats := b1.stats.(overflowSkip := b1.stats.overflowSkip + 1)), sn);
      }
      if sn == b2.next {
        DrainCounts(Emit(b2, Item(b2.next, pkt), false).(next := b2.next + 1), clock, timeout);
      } else if sn > b2.next {
        HoldCounts(b2, sn, pkt, clock, timeout);
      }
    }
  }
}
