/** The reorder buffer as a plain map from sequence number to packet: what
    `Buffer.Push` and `Buffer.FlushExpired` do to it. */
module ReorderSpec {
  import opened Common
  import opened BlockWindow

  const RING_SIZE := 8192

  /** A packet under its sequence number. */
  datatype Item<P> = Item(sn: nat, pkt: P)

  /** A packet handed to `emit`; `late` when its gap had already been given up on. */
  datatype Emission<P> = Emission(item: Item<P>, late: bool)

  datatype Stats = Stats(emitted: nat, reordered: nat, timeoutFlush: nat,
                         latePass: nat, dupDrop: nat, overflowSkip: nat)

  /** `emitted` and `released` log the callbacks in call order; `deadline` is absent when no
      gap is pending. */
  datatype Buf<P> = Buf(maxHold: int, window: Window, started: bool, next: nat, held: map<nat, P>,
                        deadline: Option<int>, emitted: seq<Emission<P>>, released: seq<Item<P>>,
                        stats: Stats)

  function Empty<P>(maxHold: int): Buf<P> {
    Buf(maxHold, Fresh(SEEN_BLOCKS), false, 0, map[], None, [], [], Stats(0, 0, 0, 0, 0, 0))
  }

  // ----- Steps -----

  ghost function Emit<P>(b: Buf<P>, item: Item<P>, late: bool): Buf<P> {
    b.(emitted := b.emitted + [Emission(item, late)],
       stats := b.stats.(emitted := b.stats.emitted + 1))
  }

  ghost function Release<P>(b: Buf<P>, item: Item<P>): Buf<P> {
    b.(released := b.released + [item])
  }

  /** Emits the held packet `k` and moves past it. */
  ghost function Deliver<P>(b: Buf<P>, k: nat): Buf<P>
    requires k in b.held
  {
    Emit(b, Item(k, b.held[k]), false).(held := b.held - {k}, next := k + 1)
  }

  /** Emits the consecutive run starting at `next`. */
  ghost function DrainRun<P>(b: Buf<P>): Buf<P>
    decreases |b.held|
  {
    if b.next in b.held then
      DrainRun(Deliver(b, b.next))
    else
      b
  }

  ghost function Drain<P>(b: Buf<P>, clock: int, timeout: int): Buf<P> {
    var d := DrainRun(b);
    if d.held == map[] then d.(deadline := None)
    else if d.deadline.None? then d.(deadline := Some(clock + timeout))
    else d
  }

  /** Gives up on the gap below the oldest held packet. */
  ghost function SkipGap<P>(b: Buf<P>, clock: int, timeout: int): Buf<P> {
    if b.held == map[] then b.(deadline := None)
    else Drain(b.(next := Least(b.held.Keys), deadline := None), clock, timeout)
  }

  ghost function Below<P>(held: map<nat, P>, target: nat): set<nat> {
    set k | k in held && k < target
  }

  /** Emits every held packet below `target`, lowest first. */
  ghost function EmitBelow<P>(b: Buf<P>, target: nat): Buf<P>
    decreases |b.held|
  {
    if Below(b.held, target) == {} then b
    else EmitBelow(Deliver(b, Least(Below(b.held, target))), target)
  }

  ghost function AdvanceTo<P>(b: Buf<P>, target: nat): Buf<P> {
    var d := EmitBelow(b, target).(next := target);
    if d.held == map[] then d.(deadline := None) else d
  }

  /** Files an out-of-order packet; an occupant of the same number is released. */
  ghost function Shelve<P>(b: Buf<P>, sn: nat, pkt: P, clock: int, timeout: int): Buf<P> {
    b.(held := b.held[sn := pkt],
       released := if sn in b.held then b.released + [Item(sn, b.held[sn])] else b.released,
       stats := b.stats.(reordered := b.stats.reordered + 1),
       deadline := if b.deadline.None? then Some(clock + timeout) else b.deadline)
  }

  ghost function GiveUp<P>(b: Buf<P>, clock: int, timeout: int): Buf<P> {
    SkipGap(b.(stats := b.stats.(timeoutFlush := b.stats.timeoutFlush + 1)), clock, timeout)
  }

  ghost function Hold<P>(b: Buf<P>, sn: nat, pkt: P, clock: int, timeout: int): Buf<P> {
    var d := Shelve(b, sn, pkt, clock, timeout);
    if |d.held| > d.maxHold then GiveUp(d, clock, timeout) else d
  }

  /** The first packet anchors `next`; a packet beyond the ring's span forces `next` up to it. */
  ghost function MakeRoom<P>(b: Buf<P>, sn: nat): Buf<P> {
    if !b.started then b.(started := true, next := sn)
    else if sn >= b.next + RING_SIZE then
      AdvanceTo(b.(stats := b.stats.(overflowSkip := b.stats.overflowSkip + 1)), sn)
    else b
  }

  ghost function TakeInOrder<P>(b: Buf<P>, pkt: P, clock: int, timeout: int): Buf<P> {
    Drain(Emit(b, Item(b.next, pkt), false).(next := b.next + 1), clock, timeout)
  }

  ghost function PassLate<P>(b: Buf<P>, sn: nat, pkt: P): Buf<P> {
    Emit(b.(stats := b.stats.(latePass := b.stats.latePass + 1)), Item(sn, pkt), true)
  }

  ghost function Place<P>(b: Buf<P>, sn: nat, pkt: P, clock: int, timeout: int): Buf<P> {
    if sn == b.next then TakeInOrder(b, pkt, clock, timeout)
    else if sn < b.next then PassLate(b, sn, pkt)
    else Hold(b, sn, pkt, clock, timeout)
  }

  /** Files a packet the duplicate bitmap let through. */
  ghost function Accept<P>(b: Buf<P>, sn: nat, pkt: P, clock: int, timeout: int): Buf<P> {
    Place(MakeRoom(b, sn), sn, pkt, clock, timeout)
  }

  /** `clock` and `timeout` are what the clock and timeout callbacks would return. */
  ghost function Push<P>(b: Buf<P>, sn: nat, pkt: P, clock: int, timeout: int): Buf<P> {
    var (w, ok) := b.window.Check(sn);
    var b1 := b.(window := w);
    if ok then Accept(b1, sn, pkt, clock, timeout)
    else Release(b1.(stats := b1.stats.(dupDrop := b1.stats.dupDrop + 1)), Item(sn, pkt))
  }

  ghost function FlushExpired<P>(b: Buf<P>, now: int, clock: int, timeout: int): Buf<P> {
    if b.deadline.None? || now < b.deadline.value then b
    else GiveUp(b, clock, timeout)
  }

  // ----- The invariant of the ring -----

  /** Held numbers lie in the ring's span above `next`, so no two share a slot. */
  ghost predicate InSpan<P>(b: Buf<P>) {
    forall k <- b.held :: b.next < k < b.next + RING_SIZE
  }

  ghost predicate Inv<P>(b: Buf<P>) {
    && b.window.Valid() && b.window.blocks == SEEN_BLOCKS
    && (!b.started ==> b.held == map[] && b.next == 0 && b.emitted == [])
    && InSpan(b)
    && (b.deadline.Some? <==> b.held != map[])
    && |b.held| <= Max(b.maxHold, 0)
    && b.stats.emitted == |b.emitted|
  }

  /** What draining relies on and keeps; `next` itself may be held. */
  ghost predicate Drainable<P>(b: Buf<P>) {
    && b.window.Valid() && b.window.blocks == SEEN_BLOCKS && b.started
    && (forall k <- b.held :: b.next <= k < b.next + RING_SIZE)
    && b.stats.emitted == |b.emitted|
  }

  /** What the drain leaves alone. */
  ghost predicate SameFrame<P>(b: Buf<P>, d: Buf<P>) {
    && d.maxHold == b.maxHold && d.window == b.window && d.started == b.started
    && d.released == b.released && d.deadline == b.deadline && d.next >= b.next
    && d.stats == b.stats.(emitted := d.stats.emitted)
  }

  lemma {:induction false} DrainRunKeeps<P>(b: Buf<P>)
    requires Drainable(b)
    ensures Drainable(DrainRun(b)) && InSpan(DrainRun(b)) && SameFrame(b, DrainRun(b))
    ensures |DrainRun(b).held| <= |b.held|
    ensures b.next in b.held ==> |DrainRun(b).held| < |b.held|
    decreases |b.held|
  {
    hide Window.Valid;
    if b.next in b.held {
      var d := Deliver(b, b.next);
      assert d.held.Keys == b.held.Keys - {b.next};
      DrainRunKeeps(d);
    }
  }

  lemma GiveUpKeeps<P>(b: Buf<P>, clock: int, timeout: int)
    requires Drainable(b) && b.held != map[]
    ensures var d := GiveUp(b, clock, timeout);
            && Drainable(d) && InSpan(d)
            && d.maxHold == b.maxHold && d.window == b.window && d.released == b.released && d.next >= b.next
            && d.stats == b.stats.(emitted := d.stats.emitted, timeoutFlush := b.stats.timeoutFlush + 1)
            && (d.deadline.Some? <==> d.held != map[])
            && |d.held| < |b.held|
  {
    hide Window.Valid, DrainRun;
    DrainRunKeeps(b.(stats := b.stats.(timeoutFlush := b.stats.timeoutFlush + 1),
                     next := Least(b.held.Keys), deadline := None));
  }

  lemma {:induction false} EmitBelowKeeps<P>(b: Buf<P>, target: nat)
    requires Drainable(b)
    ensures var d := EmitBelow(b, target);
            && Drainable(d) && SameFrame(b, d)
            && (b.next <= target ==> d.next <= target)
    decreases |b.held|
  {
    hide Window.Valid;
    var low := Below(b.held, target);
    if low != {} {
      var d := Deliver(b, Least(low));
      assert forall k <- d.held :: k in low || k >= target;
      EmitBelowKeeps(d, target);
    }
  }

  lemma {:induction false} EmitBelowHeld<P>(b: Buf<P>, target: nat)
    ensures EmitBelow(b, target).held == b.held - Below(b.held, target)
    decreases |b.held|
  {
    var low := Below(b.held, target);
    if low == {} {
      assert b.held - low == b.held;
    } else {
      var d := Deliver(b, Least(low));
      assert Below(d.held, target) == low - {Least(low)};
      assert d.held - Below(d.held, target) == b.held - low;
      EmitBelowHeld(d, target);
    }
  }

  /** The state in which a packet is placed: within the ring's span, or at `next` with an
      empty buffer. */
  ghost predicate Ready<P>(b: Buf<P>, sn: nat) {
    Inv(b) && b.started && sn < b.next + RING_SIZE
  }

  /** An advance past the whole ring empties the buffer. */
  lemma MakeRoomKeeps<P>(b: Buf<P>, sn: nat)
    requires Inv(b)
    ensures var d := MakeRoom(b, sn);
            && Ready(d, sn) && d.window == b.window && d.maxHold == b.maxHold
            && (b.started && sn >= b.next + RING_SIZE ==> d.held == map[] && d.next == sn)
  {
    hide Window.Valid, EmitBelow;
    if b.started && sn >= b.next + RING_SIZE {
      var b' := b.(stats := b.stats.(overflowSkip := b.stats.overflowSkip + 1));
      EmitBelowKeeps(b', sn);
      EmitBelowHeld(b', sn);
      assert Below(b.held, sn) == b.held.Keys;
    }
  }

  lemma TakeInOrderKeeps<P>(b: Buf<P>, pkt: P, clock: int, timeout: int)
    requires Inv(b) && b.started
    ensures Inv(TakeInOrder(b, pkt, clock, timeout))
    ensures TakeInOrder(b, pkt, clock, timeout).window == b.window
    ensures TakeInOrder(b, pkt, clock, timeout).maxHold == b.maxHold && TakeInOrder(b, pkt, clock, timeout).started
  {
    hide Window.Valid, DrainRun;
    DrainRunKeeps(Emit(b, Item(b.next, pkt), false).(next := b.next + 1));
  }

  lemma ShelveKeeps<P>(b: Buf<P>, sn: nat, pkt: P, clock: int, timeout: int)
    requires Ready(b, sn) && sn > b.next
    ensures var d := Shelve(b, sn, pkt, clock, timeout);
            && Drainable(d) && InSpan(d) && d.deadline.Some? && d.held != map[]
            && |d.held| <= |b.held| + 1
  {
    hide Window.Valid;
    assert b.held[sn := pkt].Keys == b.held.Keys + {sn};
  }

  lemma HoldKeeps<P>(b: Buf<P>, sn: nat, pkt: P, clock: int, timeout: int)
    requires Ready(b, sn) && sn > b.next
    ensures Inv(Hold(b, sn, pkt, clock, timeout))
    ensures Hold(b, sn, pkt, clock, timeout).window == b.window
    ensures Hold(b, sn, pkt, clock, timeout).maxHold == b.maxHold && Hold(b, sn, pkt, clock, timeout).started
  {
    hide Window.Valid, GiveUp;
    ShelveKeeps(b, sn, pkt, clock, timeout);
    var d := Shelve(b, sn, pkt, clock, timeout);
    if |d.held| > d.maxHold {
      GiveUpKeeps(d, clock, timeout);
    }
  }

  lemma PlaceKeeps<P>(b: Buf<P>, sn: nat, pkt: P, clock: int, timeout: int)
    requires Ready(b, sn)
    ensures Inv(Place(b, sn, pkt, clock, timeout))
    ensures Place(b, sn, pkt, clock, timeout).window == b.window
    ensures Place(b, sn, pkt, clock, timeout).maxHold == b.maxHold && Place(b, sn, pkt, clock, timeout).started
  {
    hide Window.Valid, TakeInOrder, Hold;
    if sn == b.next {
      TakeInOrderKeeps(b, pkt, clock, timeout);
    } else if sn > b.next {
      HoldKeeps(b, sn, pkt, clock, timeout);
    }
  }

  lemma PushKeeps<P>(b: Buf<P>, sn: nat, pkt: P, clock: int, timeout: int)
    requires Inv(b)
    ensures Inv(Push(b, sn, pkt, clock, timeout))
    ensures Push(b, sn, pkt, clock, timeout).window == b.window.Check(sn).0
    ensures Push(b, sn, pkt, clock, timeout).maxHold == b.maxHold
    ensures Push(b, sn, pkt, clock, timeout).started <==> b.started || b.window.Check(sn).1
  {
    hide MakeRoom, Place;
    b.window.CheckValid(sn);
    var b1 := b.(window := b.window.Check(sn).0);
    MakeRoomKeeps(b1, sn);
    PlaceKeeps(MakeRoom(b1, sn), sn, pkt, clock, timeout);
  }

  lemma FlushKeeps<P>(b: Buf<P>, now: int, clock: int, timeout: int)
    requires Inv(b)
    ensures Inv(FlushExpired(b, now, clock, timeout))
    ensures FlushExpired(b, now, clock, timeout).window == b.window
    ensures FlushExpired(b, now, clock, timeout).maxHold == b.maxHold
    ensures FlushExpired(b, now, clock, timeout).started == b.started
  {
    hide GiveUp;
    if b.deadline.Some? && now >= b.deadline.value {
      GiveUpKeeps(b, clock, timeout);
    }
  }
}
