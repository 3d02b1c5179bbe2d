/** What a flush and an overflow emit, how many flushes empty the reorder buffer, and runs
    that show where the duplicate bitmap stops protecting it. */
module ReorderProgress {
  import opened Common
  import opened BlockWindow
  import opened ReorderSpec
  import opened ReorderRuns

  // ----- The lowest run -----

  /** `d` is `b` after the consecutive run from `low` up to `d.next` was emitted. */
  ghost predicate EmitsRun<P>(b: Buf<P>, low: nat, d: Buf<P>) {
    && low <= d.next
    && (forall k | low <= k < d.next :: k in b.held)
    && d.next !in b.held
    && d.emitted == b.emitted + RunOf(b.held, low, d.next)
    && d.held == map k | k in b.held && !(low <= k < d.next) :: b.held[k]
  }

  ghost function RunOf<P>(held: map<nat, P>, low: nat, high: nat): seq<Emission<P>>
    requires low <= high && forall k | low <= k < high :: k in held
    decreases high - low
  {
    if low == high then [] else [Emission(Item(low, held[low]), false)] + RunOf(held, low + 1, high)
  }

  lemma {:induction false} RunOfSame<P>(held: map<nat, P>, rest: map<nat, P>, low: nat, high: nat)
    requires low <= high && forall k | low <= k < high :: k in held && k in rest && held[k] == rest[k]
    ensures RunOf(held, low, high) == RunOf(rest, low, high)
    decreases high - low
  {
    if low < high {
      RunOfSame(held, rest, low + 1, high);
    }
  }

  lemma {:induction false} DrainRunEmits<P>(b: Buf<P>)
    ensures EmitsRun(b, b.next, DrainRun(b))
    decreases |b.held|
  {
    var d := DrainRun(b);
    if b.next in b.held {
      var c := Deliver(b, b.next);
      DrainRunEmits(c);
      forall k | b.next <= k < d.next ensures k in b.held {
        assert k == b.next || k in c.held;
      }
      RunOfSame(b.held, c.held, c.next, d.next);
    }
  }

  /** An expired flush emits the whole lowest run of held packets, in order, and nothing else. */
  lemma FlushEmitsLowestRun<P>(b: Buf<P>, now: int, clock: int, timeout: int)
    requires Inv(b) && b.deadline.Some? && now >= b.deadline.value
    ensures var d := FlushExpired(b, now, clock, timeout);
            EmitsRun(b, Least(b.held.Keys), d) && d.next > Least(b.held.Keys)
  {
    var b' := b.(stats := b.stats.(timeoutFlush := b.stats.timeoutFlush + 1),
                 next := Least(b.held.Keys), deadline := None);
    DrainRunEmits(b');
  }

  /** The first numbers of the maximal runs held. */
  ghost function Heads<P>(held: map<nat, P>): set<nat> {
    set k {:trigger k in held} | k in held && (k == 0 || k - 1 !in held)
  }

  lemma FlushDropsOneRun<P>(b: Buf<P>, now: int, clock: int, timeout: int)
    requires Inv(b) && b.deadline.Some? && now >= b.deadline.value
    ensures |Heads(FlushExpired(b, now, clock, timeout).held)| == |Heads(b.held)| - 1
  {
    var low := Least(b.held.Keys);
    var d := FlushExpired(b, now, clock, timeout);
    FlushEmitsLowestRun(b, now, clock, timeout);
    forall k ensures k in Heads(d.held) <==> k in Heads(b.held) && k != low {
      if k in Heads(b.held) && k != low {
        assert low < k && k - 1 !in b.held;
        assert k >= d.next;
      }
    }
    assert low in Heads(b.held);
    assert Heads(d.held) == Heads(b.held) - {low};
  }

  datatype Tick = Tick(now: int, clock: int, timeout: int)

  ghost function FlushAll<P>(b: Buf<P>, ticks: seq<Tick>): Buf<P>
    decreases ticks
  {
    if ticks == [] then b
    else FlushAll(FlushExpired(b, ticks[0].now, ticks[0].clock, ticks[0].timeout), ticks[1..])
  }

  /** Every tick finds the pending deadline passed. */
  ghost predicate AllExpired<P>(b: Buf<P>, ticks: seq<Tick>)
    decreases ticks
  {
    ticks != [] ==>
      && (b.deadline.Some? ==> ticks[0].now >= b.deadline.value)
      && AllExpired(FlushExpired(b, ticks[0].now, ticks[0].clock, ticks[0].timeout), ticks[1..])
  }

  /** As many expired flushes as there are maximal runs empty the buffer and disarm it. */
  lemma {:induction false} FlushesToEmpty<P>(b: Buf<P>, ticks: seq<Tick>)
    requires Inv(b) && AllExpired(b, ticks) && |ticks| >= |Heads(b.held)|
    ensures FlushAll(b, ticks).held == map[] && FlushAll(b, ticks).deadline == None
    decreases ticks
  {
    if b.held == map[] {
      NothingHeld(b, ticks);
    } else {
      var low := Least(b.held.Keys);
      assert low in Heads(b.held);
      var t := ticks[0];
      FlushKeeps(b, t.now, t.clock, t.timeout);
      FlushDropsOneRun(b, t.now, t.clock, t.timeout);
      FlushesToEmpty(FlushExpired(b, t.now, t.clock, t.timeout), ticks[1..]);
    }
  }

  lemma {:induction false} NothingHeld<P>(b: Buf<P>, ticks: seq<Tick>)
    requires Inv(b) && b.held == map[]
    ensures FlushAll(b, ticks) == b
    decreases ticks
  {
    if ticks != [] {
      NothingHeld(b, ticks[1..]);
    }
  }

  // ----- Overflow -----

  /** The held packets below `target`, lowest first. */
  ghost function Sorted<P>(held: map<nat, P>, target: nat): seq<Emission<P>>
    decreases |held|
  {
    var low := Below(held, target);
    if low == {} then []
    else [Emission(Item(Least(low), held[Least(low)]), false)] + Sorted(held - {Least(low)}, target)
  }

  /** `Sorted` is what its name says: strictly ascending, nothing but held packets below the
      target, and as many as there are. */
  lemma {:induction false} SortedMeans<P>(held: map<nat, P>, target: nat)
    ensures var es := Sorted(held, target);
            && (forall i, j | 0 <= i < j < |es| :: es[i].item.sn < es[j].item.sn)
            && |es| == |Below(held, target)|
            && (forall e <- es :: e.item.sn in Below(held, target) && !e.late && e.item.pkt == held[e.item.sn])
    decreases |held|
  {
    var low := Below(held, target);
    if low != {} {
      var k := Least(low);
      assert Below(held - {k}, target) == low - {k};
      SortedMeans(held - {k}, target);
    }
  }

  lemma {:induction false} EmitBelowSorts<P>(b: Buf<P>, target: nat)
    ensures EmitBelow(b, target).emitted == b.emitted + Sorted(b.held, target)
    decreases |b.held|
  {
    var low := Below(b.held, target);
    if low != {} {
      EmitBelowSorts(Deliver(b, Least(low)), target);
    }
  }

  /** A packet beyond the ring's span flushes everything held, lowest first, and leaves the
      buffer empty. */
  lemma OverflowEmitsAll<P>(b: Buf<P>, sn: nat)
    requires Inv(b) && b.started && sn >= b.next + RING_SIZE
    ensures var d := MakeRoom(b, sn);
            && d.held == map[] && d.next == sn && d.deadline == None
            && d.emitted == b.emitted + Sorted(b.held, sn)
            && |Sorted(b.held, sn)| == |b.held|
  {
    MakeRoomKeeps(b, sn);
    EmitBelowSorts(b.(stats := b.stats.(overflowSkip := b.stats.overflowSkip + 1)), sn);
    SortedMeans(b.held, sn);
    assert Below(b.held, sn) == b.held.Keys;
  }

  // ----- Where the bitmap stops protecting -----

  /** A packet above `next` that the bitmap lets through is shelved while there is room. */
  lemma PushShelves<P>(b: Buf<P>, sn: nat, pkt: P, clock: int, timeout: int)
    requires b.started && b.window.Check(sn).1 && b.next < sn < b.next + RING_SIZE
    requires |b.held[sn := pkt]| <= b.maxHold
    ensures Push(b, sn, pkt, clock, timeout)
         == Shelve(b.(window := b.window.Check(sn).0), sn, pkt, clock, timeout)
  {
  }

  /** The first packet is emitted at once. */
  lemma PushFirst<P>(maxHold: int, sn: nat, pkt: P, clock: int, timeout: int)
    ensures Run(maxHold, [Pushed(sn, pkt, clock, timeout)])
         == Buf(maxHold, Window(SEEN_BLOCKS, true, sn, {sn}), true, sn + 1, map[], None,
                [Emission(Item(sn, pkt), false)], [], Stats(1, 0, 0, 0, 0, 0))
  {
    assert [Pushed(sn, pkt, clock, timeout)][..0] == [];
    var b := Empty<P>(maxHold);
    assert b.emitted + [Emission(Item(sn, pkt), false)] == [Emission(Item(sn, pkt), false)];
  }

  /** One more push at the end of a run. */
  lemma RunPush<P>(maxHold: int, es: seq<Event<P>>, sn: nat, pkt: P)
    ensures Run(maxHold, es + [Pushed(sn, pkt, 0, 10)]) == Push(Run(maxHold, es), sn, pkt, 0, 10)
  {
    assert (es + [Pushed(sn, pkt, 0, 10)])[..|es|] == es;
  }

  /** Pushing 1, 8192 and 1 again emits number 1 twice: its block is then exactly 128 behind. */
  lemma EmittedTwice<P>(p: P, q: P, maxHold: int)
    requires maxHold >= 1
    ensures var b := Run(maxHold, [Pushed(1, p, 0, 10)] + [Pushed(8192, q, 0, 10)] + [Pushed(1, p, 0, 10)]);
            && b.emitted == [Emission(Item(1, p), false), Emission(Item(1, p), true)]
            && b.stats.dupDrop == 0
  {
    hide Push, Run;
    var e1, e2 := [Pushed(1, p, 0, 10)], [Pushed(1, p, 0, 10)] + [Pushed(8192, q, 0, 10)];
    PushFirst(maxHold, 1, p, 0, 10);
    RunPush(maxHold, e1, 8192, q);
    RunPush(maxHold, e2, 1, p);
    var b1 := Run(maxHold, e1);
    PushShelves(b1, 8192, q, 0, 10);
    var b2 := Run(maxHold, e2);
    assert b2.window == Window(128, true, 8192, {1, 8192}) && b2.next == 2 && b2.started;
    PushPassesLate(b2, 1, p, 0, 10);
  }

  lemma PushPassesLate<P>(b: Buf<P>, sn: nat, pkt: P, clock: int, timeout: int)
    requires b.started && b.window.Check(sn).1 && sn < b.next
    ensures Push(b, sn, pkt, clock, timeout) == PassLate(b.(window := b.window.Check(sn).0), sn, pkt)
  {
  }

  /** Pushing 0, 2, 8192 and 2 again reaches the occupied slot: the first packet numbered 2
      is released and the second takes its place. */
  lemma OccupiedSlotReached<P>(p: P, q: P, r: P, s: P, maxHold: int)
    requires maxHold >= 2
    ensures var b := Run(maxHold, [Pushed(0, p, 0, 10)] + [Pushed(2, q, 0, 10)] + [Pushed(8192, r, 0, 10)]
                                  + [Pushed(2, s, 0, 10)]);
            && b.released == [Item(2, q)] && b.held == map[2 := s, 8192 := r]
            && b.stats.dupDrop == 0
  {
    hide Push, Run;
    var e1 := [Pushed(0, p, 0, 10)];
    var e2 := e1 + [Pushed(2, q, 0, 10)];
    var e3 := e2 + [Pushed(8192, r, 0, 10)];
    PushFirst(maxHold, 0, p, 0, 10);
    RunPush(maxHold, e1, 2, q);
    RunPush(maxHold, e2, 8192, r);
    RunPush(maxHold, e3, 2, s);
    PushShelves(Run(maxHold, e1), 2, q, 0, 10);
    var b2 := Run(maxHold, e2);
    assert b2.window == Window(128, true, 2, {0, 2}) && b2.held == map[2 := q] && b2.next == 1;
    assert |b2.held[8192 := r]| == 2;
    PushShelves(b2, 8192, r, 0, 10);
    var b3 := Run(maxHold, e3);
    assert b3.window == Window(128, true, 8192, {0, 2, 8192}) && b3.held == map[2 := q, 8192 := r] && b3.next == 1;
    assert b3.held[2 := s] == map[2 := s, 8192 := r];
    PushShelves(b3, 2, s, 0, 10);
  }
}
