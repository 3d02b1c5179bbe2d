/** What the reorder buffer guarantees over every run of `Push` and `FlushExpired`:
    conservation of packets, emission order, at-most-once delivery and progress. */
module ReorderRuns {
  import opened Common
  import opened BlockWindow
  import opened ReorderSpec

  datatype Event<P> =
    | Pushed(sn: nat, pkt: P, clock: int, timeout: int)
    | Ticked(now: int, clock: int, timeout: int)

  ghost function Step<P>(b: Buf<P>, e: Event<P>): Buf<P> {
    match e
    case Pushed(sn, pkt, clock, timeout) => Push(b, sn, pkt, clock, timeout)
    case Ticked(now, clock, timeout) => FlushExpired(b, now, clock, timeout)
  }

  ghost function Run<P>(maxHold: int, es: seq<Event<P>>): Buf<P> {
    if es == [] then Empty(maxHold) else Step(Run(maxHold, es[..|es| - 1]), es[|es| - 1])
  }

  /** The sequence numbers presented to the duplicate bitmap. */
  function Numbers<P>(es: seq<Event<P>>): seq<nat> {
    if es == [] then []
    else
      var e := es[|es| - 1];
      Numbers(es[..|es| - 1]) + if e.Pushed? then [e.sn] else []
  }

  ghost function Given<P>(es: seq<Event<P>>): multiset<Item<P>> {
    if es == [] then multiset{}
    else
      var e := es[|es| - 1];
      Given(es[..|es| - 1]) + if e.Pushed? then multiset{Item(e.sn, e.pkt)} else multiset{}
  }

  // ----- Invariants of the log -----

  ghost function Items<P>(es: seq<Emission<P>>): multiset<Item<P>> {
    if es == [] then multiset{} else Items(es[..|es| - 1]) + multiset{es[|es| - 1].item}
  }

  ghost function HeldItems<P>(held: map<nat, P>): multiset<Item<P>> {
    multiset(set k | k in held :: Item(k, held[k]))
  }

  ghost function Tally<P>(emitted: seq<Emission<P>>, released: seq<Item<P>>, held: map<nat, P>): multiset<Item<P>> {
    Items(emitted) + multiset(released) + HeldItems(held)
  }

  /** Where the packets are: emitted, released or held. */
  ghost function Total<P>(b: Buf<P>): multiset<Item<P>> { Tally(b.emitted, b.released, b.held) }

  ghost function EmittedNumbers<P>(es: seq<Emission<P>>): multiset<nat> {
    if es == [] then multiset{} else EmittedNumbers(es[..|es| - 1]) + multiset{es[|es| - 1].item.sn}
  }

  ghost function Count<P>(emitted: seq<Emission<P>>, held: map<nat, P>): multiset<nat> {
    EmittedNumbers(emitted) + multiset(held.Keys)
  }

  /** How often each number has been emitted, counting a held packet as emitted once. */
  ghost function Ledger<P>(b: Buf<P>): multiset<nat> { Count(b.emitted, b.held) }

  /** Everything emitted is below `next`, and every emission that is not a late pass is
      above everything emitted before it. */
  ghost predicate Climbs<P>(es: seq<Emission<P>>, next: nat) {
    es == [] ||
    var e := es[|es| - 1];
    && e.item.sn < next
    && Climbs(es[..|es| - 1], if e.late then next else e.item.sn)
  }

  ghost predicate Ordered<P>(b: Buf<P>) { Climbs(b.emitted, b.next) }

  /** Every number is emitted or held at most once, and the bitmap knows it. */
  ghost predicate Once<P>(b: Buf<P>) { Ledger(b) <= multiset(b.window.marks) }

  lemma {:induction false} ClimbsHigher<P>(es: seq<Emission<P>>, n: nat, m: nat)
    requires Climbs(es, n) && n <= m
    ensures Climbs(es, m)
  {
    if es != [] && es[|es| - 1].late {
      ClimbsHigher(es[..|es| - 1], n, m);
    }
  }

  lemma {:induction false} ClimbsMeans<P>(es: seq<Emission<P>>, next: nat)
    requires Climbs(es, next)
    ensures forall e <- es :: e.item.sn < next
    ensures forall i, j | 0 <= i < j < |es| && !es[j].late :: es[i].item.sn < es[j].item.sn
  {
    if es != [] {
      var e := es[|es| - 1];
      var prefix := es[..|es| - 1];
      ClimbsMeans(prefix, if e.late then next else e.item.sn);
      assert es == prefix + [e];
    }
  }

  lemma {:induction false} EmittedCount<P>(es: seq<Emission<P>>, i: nat)
    requires i < |es|
    ensures EmittedNumbers(es)[es[i].item.sn] >= 1
    ensures forall j | i < j < |es| && es[j].item.sn == es[i].item.sn :: EmittedNumbers(es)[es[i].item.sn] >= 2
  {
    var prefix := es[..|es| - 1];
    if i < |prefix| {
      EmittedCount(prefix, i);
      assert forall j | i < j < |prefix| :: es[j] == prefix[j];
    }
  }

  /** No number has been emitted twice, and none that was emitted is still held. */
  lemma OnceMeans<P>(b: Buf<P>)
    requires Once(b)
    ensures forall i, j | 0 <= i < j < |b.emitted| :: b.emitted[i].item.sn != b.emitted[j].item.sn
    ensures forall e <- b.emitted :: e.item.sn !in b.held
  {
    forall i | 0 <= i < |b.emitted|
      ensures forall j | i < j < |b.emitted| :: b.emitted[i].item.sn != b.emitted[j].item.sn
      ensures b.emitted[i].item.sn !in b.held
    {
      EmittedCount(b.emitted, i);
      var n := b.emitted[i].item.sn;
      assert Ledger(b)[n] <= multiset(b.window.marks)[n] <= 1;
    }
  }

  // ----- What each step does to the log -----

  lemma EmitLog<P>(b: Buf<P>, item: Item<P>, late: bool)
    ensures var d := Emit(b, item, late);
            && Tally(d.emitted, b.released, b.held) == Total(b) + multiset{item}
            && Count(d.emitted, b.held) == Ledger(b) + multiset{item.sn}
    ensures forall next: nat ::
              Climbs(Emit(b, item, late).emitted, next)
              <==> item.sn < next && Climbs(b.emitted, if late then next else item.sn)
  {
    var d := Emit(b, item, late);
    assert d.emitted[..|d.emitted| - 1] == b.emitted;
  }

  lemma TakeHeld<P>(held: map<nat, P>, k: nat)
    requires k in held
    ensures HeldItems(held) == HeldItems(held - {k}) + multiset{Item(k, held[k])}
    ensures multiset(held.Keys) == multiset((held - {k}).Keys) + multiset{k}
  {
    var all := set i | i in held :: Item(i, held[i]);
    var rest := held - {k};
    var others := set i | i in rest :: Item(i, rest[i]);
    forall x ensures x in all <==> x in others || x == Item(k, held[k]) {
      if x in all {
        assert x.sn == k || x.sn in rest;
      }
    }
    assert all == others + {Item(k, held[k])};
    assert held.Keys == rest.Keys + {k};
  }

  lemma DeliverLog<P>(b: Buf<P>, k: nat)
    requires k in b.held && b.next <= k
    ensures Total(Deliver(b, k)) == Total(b)
    ensures Ledger(Deliver(b, k)) == Ledger(b)
    ensures Ordered(b) ==> Ordered(Deliver(b, k))
  {
    EmitLog(b, Item(k, b.held[k]), false);
    TakeHeld(b.held, k);
    if Ordered(b) {
      ClimbsHigher(b.emitted, b.next, k);
    }
  }

  lemma {:induction false} DrainRunLog<P>(b: Buf<P>)
    ensures Total(DrainRun(b)) == Total(b)
    ensures Ledger(DrainRun(b)) == Ledger(b)
    ensures Ordered(b) ==> Ordered(DrainRun(b))
    decreases |b.held|
  {
    if b.next in b.held {
      DeliverLog(b, b.next);
      DrainRunLog(Deliver(b, b.next));
    }
  }

  lemma {:induction false} EmitBelowLog<P>(b: Buf<P>, target: nat)
    requires Drainable(b)
    ensures Total(EmitBelow(b, target)) == Total(b)
    ensures Ledger(EmitBelow(b, target)) == Ledger(b)
    ensures Ordered(b) ==> Ordered(EmitBelow(b, target))
    decreases |b.held|
  {
    hide Window.Valid;
    var low := Below(b.held, target);
    if low != {} {
      var k := Least(low);
      assert forall i <- b.held :: i in low || i >= target;
      DeliverLog(b, k);
      EmitBelowLog(Deliver(b, k), target);
    }
  }

  lemma GiveUpLog<P>(b: Buf<P>, clock: int, timeout: int)
    requires Drainable(b)
    ensures Total(GiveUp(b, clock, timeout)) == Total(b)
    ensures Ledger(GiveUp(b, clock, timeout)) == Ledger(b)
    ensures Ordered(b) ==> Ordered(GiveUp(b, clock, timeout))
  {
    hide Tally, Count, Climbs, DrainRun;
    if b.held != map[] {
      var b' := b.(stats := b.stats.(timeoutFlush := b.stats.timeoutFlush + 1),
                   next := Least(b.held.Keys), deadline := None);
      DrainRunLog(b');
      if Ordered(b) {
        ClimbsHigher(b.emitted, b.next, b'.next);
      }
    }
  }

  lemma MakeRoomLog<P>(b: Buf<P>, sn: nat)
    requires Inv(b)
    ensures Total(MakeRoom(b, sn)) == Total(b)
    ensures Ledger(MakeRoom(b, sn)) == Ledger(b)
    ensures Ordered(b) ==> Ordered(MakeRoom(b, sn))
  {
    hide Tally, Count, Climbs, Window.Valid, EmitBelow;
    if Ordered(b) && !b.started {
      ClimbsHigher(b.emitted, b.next, sn);
    }
    if b.started && sn >= b.next + RING_SIZE {
      var b' := b.(stats := b.stats.(overflowSkip := b.stats.overflowSkip + 1));
      EmitBelowLog(b', sn);
      EmitBelowKeeps(b', sn);
      if Ordered(b) {
        ClimbsHigher(EmitBelow(b', sn).emitted, EmitBelow(b', sn).next, sn);
      }
    }
  }

  lemma TakeInOrderLog<P>(b: Buf<P>, pkt: P, clock: int, timeout: int)
    ensures var d := TakeInOrder(b, pkt, clock, timeout);
            && Total(d) == Total(b) + multiset{Item(b.next, pkt)}
            && Ledger(d) == Ledger(b) + multiset{b.next}
            && (Ordered(b) ==> Ordered(d))
  {
    hide Tally, Count, Climbs, DrainRun;
    EmitLog(b, Item(b.next, pkt), false);
    DrainRunLog(Emit(b, Item(b.next, pkt), false).(next := b.next + 1));
  }

  /** Holding a number that is already held releases the occupant, so the ledger does not
      grow; this is the branch the source calls impossible. */
  lemma OccupyLog<P>(b: Buf<P>, sn: nat, pkt: P)
    ensures var released := if sn in b.held then b.released + [Item(sn, b.held[sn])] else b.released;
            Tally(b.emitted, released, b.held[sn := pkt]) == Total(b) + multiset{Item(sn, pkt)}
    ensures Count(b.emitted, b.held[sn := pkt]) <= Ledger(b) + multiset{sn}
  {
    hide HeldItems, Items, EmittedNumbers;
    PutHeld(b.held, sn, pkt);
    if sn in b.held {
      var displaced := multiset{Item(sn, b.held[sn])};
      var E, R, H := Items(b.emitted), multiset(b.released), HeldItems(b.held[sn := pkt]);
      assert multiset(b.released + [Item(sn, b.held[sn])]) == R + displaced;
      calc {
        E + (R + displaced) + H;
        E + R + (H + displaced);
        E + R + (HeldItems(b.held) + multiset{Item(sn, pkt)});
        E + R + HeldItems(b.held) + multiset{Item(sn, pkt)};
      }
    }
  }

  lemma PutHeld<P>(held: map<nat, P>, sn: nat, pkt: P)
    ensures sn in held ==>
              HeldItems(held[sn := pkt]) + multiset{Item(sn, held[sn])} == HeldItems(held) + multiset{Item(sn, pkt)}
    ensures sn !in held ==> HeldItems(held[sn := pkt]) == HeldItems(held) + multiset{Item(sn, pkt)}
    ensures multiset(held[sn := pkt].Keys) <= multiset(held.Keys) + multiset{sn}
  {
    hide HeldItems;
    var rest := held - {sn};
    assert held[sn := pkt] - {sn} == rest;
    TakeHeld(held[sn := pkt], sn);
    if sn in held {
      TakeHeld(held, sn);
    } else {
      assert rest == held;
    }
  }

  lemma HoldLog<P>(b: Buf<P>, sn: nat, pkt: P, clock: int, timeout: int)
    requires Ready(b, sn) && sn > b.next
    ensures var d := Hold(b, sn, pkt, clock, timeout);
            && Total(d) == Total(b) + multiset{Item(sn, pkt)}
            && Ledger(d) <= Ledger(b) + multiset{sn}
            && (Ordered(b) ==> Ordered(d))
  {
    hide Tally, Count, Climbs, Window.Valid, GiveUp;
    OccupyLog(b, sn, pkt);
    var d := Shelve(b, sn, pkt, clock, timeout);
    if |d.held| > d.maxHold {
      ShelveKeeps(b, sn, pkt, clock, timeout);
      GiveUpLog(d, clock, timeout);
    }
  }

  lemma PlaceLog<P>(b: Buf<P>, sn: nat, pkt: P, clock: int, timeout: int)
    requires Ready(b, sn)
    ensures var d := Place(b, sn, pkt, clock, timeout);
            && Total(d) == Total(b) + multiset{Item(sn, pkt)}
            && Ledger(d) <= Ledger(b) + multiset{sn}
            && (Ordered(b) ==> Ordered(d))
  {
    hide Tally, Count, Climbs, TakeInOrder, Hold;
    if sn == b.next {
      TakeInOrderLog(b, pkt, clock, timeout);
    } else if sn < b.next {
      EmitLog(b.(stats := b.stats.(latePass := b.stats.latePass + 1)), Item(sn, pkt), true);
    } else {
      HoldLog(b, sn, pkt, clock, timeout);
    }
  }

  lemma PushLog<P>(b: Buf<P>, sn: nat, pkt: P, clock: int, timeout: int)
    requires Inv(b)
    ensures var d := Push(b, sn, pkt, clock, timeout);
            && Total(d) == Total(b) + multiset{Item(sn, pkt)}
            && Ledger(d) <= Ledger(b) + (if b.window.Check(sn).1 then multiset{sn} else multiset{})
            && (Ordered(b) ==> Ordered(d))
  {
    hide Tally, Count, Climbs, MakeRoom, Place;
    b.window.CheckValid(sn);
    var b1 := b.(window := b.window.Check(sn).0);
    if b.window.Check(sn).1 {
      MakeRoomKeeps(b1, sn);
      MakeRoomLog(b1, sn);
      PlaceLog(MakeRoom(b1, sn), sn, pkt, clock, timeout);
    } else {
      ReleaseLog(b, Item(sn, pkt));
    }
  }

  lemma ReleaseLog<P>(b: Buf<P>, item: Item<P>)
    ensures Tally(b.emitted, b.released + [item], b.held) == Total(b) + multiset{item}
  {
  }

  /** Outside the aliased block a number the bitmap lets through is a new one. */
  lemma PushOnce<P>(b: Buf<P>, sn: nat, pkt: P, clock: int, timeout: int)
    requires Inv(b) && Once(b) && !b.window.Aliased(sn)
    ensures Once(Push(b, sn, pkt, clock, timeout))
  {
    hide Count, Push, Window.Check;
    PushLog(b, sn, pkt, clock, timeout);
    PushKeeps(b, sn, pkt, clock, timeout);
    UnaliasedMarks(b.window, sn);
  }

  lemma FlushLog<P>(b: Buf<P>, now: int, clock: int, timeout: int)
    requires Inv(b)
    ensures var d := FlushExpired(b, now, clock, timeout);
            Total(d) == Total(b) && Ledger(d) == Ledger(b) && (Ordered(b) ==> Ordered(d))
  {
    hide Tally, Count, Climbs, Window.Valid, GiveUp;
    if b.deadline.Some? && now >= b.deadline.value {
      GiveUpLog(b, clock, timeout);
    }
  }

  // ----- Every run -----

  lemma {:induction false} RunInv<P>(maxHold: int, es: seq<Event<P>>)
    ensures Inv(Run(maxHold, es))
    ensures Run(maxHold, es).maxHold == maxHold
    ensures Run(maxHold, es).window == After(SEEN_BLOCKS, Numbers(es))
    ensures Run(maxHold, es).started <==> Numbers(es) != []
    ensures Run(maxHold, es).window.started <==> Numbers(es) != []
  {
    RunTracks(SEEN_BLOCKS, Numbers(es));
    hide Push, FlushExpired;
    if es != [] {
      var prev, e := es[..|es| - 1], es[|es| - 1];
      RunInv(maxHold, prev);
      RunTracks(SEEN_BLOCKS, Numbers(prev));
      var b := Run(maxHold, prev);
      match e
      case Pushed(sn, pkt, clock, timeout) =>
        PushKeeps(b, sn, pkt, clock, timeout);
        assert Numbers(es)[..|Numbers(es)| - 1] == Numbers(prev);
      case Ticked(now, clock, timeout) =>
        FlushKeeps(b, now, clock, timeout);
        assert Numbers(es) == Numbers(prev);
    }
  }

  /** Each packet pushed is at all times in exactly one of emitted, released and held, as
      often as it was pushed. */
  lemma {:induction false} Conservation<P>(maxHold: int, es: seq<Event<P>>)
    ensures Total(Run(maxHold, es)) == Given(es)
  {
    hide Push, FlushExpired;
    if es != [] {
      var prev, e := es[..|es| - 1], es[|es| - 1];
      Conservation(maxHold, prev);
      RunInv(maxHold, prev);
      match e
      case Pushed(sn, pkt, clock, timeout) => PushLog(Run(maxHold, prev), sn, pkt, clock, timeout);
      case Ticked(now, clock, timeout) => FlushLog(Run(maxHold, prev), now, clock, timeout);
    }
  }

  lemma {:induction false} RunOrdered<P>(maxHold: int, es: seq<Event<P>>)
    ensures Ordered(Run(maxHold, es))
  {
    hide Push, FlushExpired;
    if es != [] {
      var prev, e := es[..|es| - 1], es[|es| - 1];
      RunOrdered(maxHold, prev);
      RunInv(maxHold, prev);
      match e
      case Pushed(sn, pkt, clock, timeout) => PushLog(Run(maxHold, prev), sn, pkt, clock, timeout);
      case Ticked(now, clock, timeout) => FlushLog(Run(maxHold, prev), now, clock, timeout);
    }
  }

  /** Emission order: a packet not passed late is above everything emitted before it, and
      nothing emitted is at or above `next`. */
  lemma EmissionOrder<P>(maxHold: int, es: seq<Event<P>>)
    ensures var b := Run(maxHold, es);
            && (forall e <- b.emitted :: e.item.sn < b.next)
            && (forall i, j | 0 <= i < j < |b.emitted| && !b.emitted[j].late ::
                  b.emitted[i].item.sn < b.emitted[j].item.sn)
  {
    RunOrdered(maxHold, es);
    ClimbsMeans(Run(maxHold, es).emitted, Run(maxHold, es).next);
  }

  lemma {:induction false} RunOnce<P>(maxHold: int, es: seq<Event<P>>)
    requires Clean(SEEN_BLOCKS, Numbers(es))
    ensures Once(Run(maxHold, es))
  {
    hide Push, FlushExpired;
    if es != [] {
      var prev, e := es[..|es| - 1], es[|es| - 1];
      RunInv(maxHold, prev);
      match e
      case Pushed(sn, pkt, clock, timeout) =>
        assert Numbers(es)[..|Numbers(es)| - 1] == Numbers(prev);
        RunOnce(maxHold, prev);
        PushOnce(Run(maxHold, prev), sn, pkt, clock, timeout);
      case Ticked(now, clock, timeout) =>
        assert Numbers(es) == Numbers(prev);
        RunOnce(maxHold, prev);
        FlushLog(Run(maxHold, prev), now, clock, timeout);
        FlushKeeps(Run(maxHold, prev), now, clock, timeout);
    }
  }

  /** When no pushed number lies exactly 128 blocks behind the highest seen, no number is
      emitted twice, however often it is pushed and from whichever source. */
  lemma AtMostOnce<P>(maxHold: int, es: seq<Event<P>>)
    requires Clean(SEEN_BLOCKS, Numbers(es))
    ensures var b := Run(maxHold, es);
            && (forall i, j | 0 <= i < j < |b.emitted| :: b.emitted[i].item.sn != b.emitted[j].item.sn)
            && (forall e <- b.emitted :: e.item.sn !in b.held)
  {
    RunOnce(maxHold, es);
    OnceMeans(Run(maxHold, es));
  }

  // ----- Runs without a skip -----

  /** The emissions other than late passes are exactly `first`, `first + 1`, ..., `next - 1`. */
  ghost predicate Gapless<P>(es: seq<Emission<P>>, first: nat, next: nat) {
    if es == [] then first == next
    else
      var e := es[|es| - 1];
      if e.late then Gapless(es[..|es| - 1], first, next)
      else e.item.sn + 1 == next && Gapless(es[..|es| - 1], first, e.item.sn)
  }

  /** The numbers emitted other than as late passes. */
  ghost function InOrder<P>(es: seq<Emission<P>>): seq<nat> {
    if es == [] then []
    else
      var e := es[|es| - 1];
      InOrder(es[..|es| - 1]) + if e.late then [] else [e.item.sn]
  }

  lemma {:induction false} GaplessMeans<P>(es: seq<Emission<P>>, first: nat, next: nat)
    requires Gapless(es, first, next)
    ensures first <= next && InOrder(es) == seq(next - first, i => first + i)
  {
    if es != [] {
      var e := es[|es| - 1];
      GaplessMeans(es[..|es| - 1], first, if e.late then next else e.item.sn);
    }
  }

  predicate NoSkip(s: Stats) { s.timeoutFlush == 0 && s.overflowSkip == 0 }

  lemma {:induction false} DrainRunGapless<P>(b: Buf<P>, first: nat)
    requires Gapless(b.emitted, first, b.next)
    ensures Gapless(DrainRun(b).emitted, first, DrainRun(b).next)
    decreases |b.held|
  {
    if b.next in b.held {
      var d := Deliver(b, b.next);
      assert d.emitted[..|d.emitted| - 1] == b.emitted;
      DrainRunGapless(d, first);
    }
  }

  lemma PlaceGapless<P>(b: Buf<P>, sn: nat, pkt: P, clock: int, timeout: int, first: nat)
    requires Ready(b, sn) && Gapless(b.emitted, first, b.next)
    requires NoSkip(Place(b, sn, pkt, clock, timeout).stats)
    ensures Gapless(Place(b, sn, pkt, clock, timeout).emitted, first, Place(b, sn, pkt, clock, timeout).next)
    ensures NoSkip(b.stats)
  {
    if sn == b.next {
      var d := Emit(b, Item(sn, pkt), false).(next := sn + 1);
      assert d.emitted[..|d.emitted| - 1] == b.emitted;
      DrainRunGapless(d, first);
      TakeInOrderStats(b, pkt, clock, timeout);
    } else if sn < b.next {
      var d := PassLate(b, sn, pkt);
      assert d.emitted[..|d.emitted| - 1] == b.emitted;
    } else {
      HoldStats(b, sn, pkt, clock, timeout);
    }
  }

  lemma TakeInOrderStats<P>(b: Buf<P>, pkt: P, clock: int, timeout: int)
    requires Inv(b) && b.started
    ensures TakeInOrder(b, pkt, clock, timeout).stats.timeoutFlush == b.stats.timeoutFlush
    ensures TakeInOrder(b, pkt, clock, timeout).stats.overflowSkip == b.stats.overflowSkip
  {
    hide DrainRun;
    DrainRunKeeps(Emit(b, Item(b.next, pkt), false).(next := b.next + 1));
  }

  /** Holding skips a gap exactly when it counts one. */
  lemma HoldStats<P>(b: Buf<P>, sn: nat, pkt: P, clock: int, timeout: int)
    requires Ready(b, sn) && sn > b.next
    ensures var d := Hold(b, sn, pkt, clock, timeout);
            && d.stats.overflowSkip == b.stats.overflowSkip
            && d.stats.timeoutFlush >= b.stats.timeoutFlush
            && (d.stats.timeoutFlush == b.stats.timeoutFlush ==> d.emitted == b.emitted && d.next == b.next)
  {
    hide Window.Valid, GiveUp;
    var d := Shelve(b, sn, pkt, clock, timeout);
    if |d.held| > d.maxHold {
      ShelveKeeps(b, sn, pkt, clock, timeout);
      GiveUpKeeps(d, clock, timeout);
    }
  }

  lemma PushStats<P>(b: Buf<P>, sn: nat, pkt: P, clock: int, timeout: int)
    requires Inv(b)
    ensures var d := Push(b, sn, pkt, clock, timeout);
            && d.stats.timeoutFlush >= b.stats.timeoutFlush
            && d.stats.overflowSkip >= b.stats.overflowSkip
            && (b.started && b.window.Check(sn).1 && sn >= b.next + RING_SIZE ==>
                  d.stats.overflowSkip > b.stats.overflowSkip)
  {
    hide TakeInOrder, Hold, EmitBelow, Window.Valid;
    b.window.CheckValid(sn);
    var b1 := b.(window := b.window.Check(sn).0);
    if b.window.Check(sn).1 {
      MakeRoomKeeps(b1, sn);
      if b.started && sn >= b.next + RING_SIZE {
        EmitBelowKeeps(b1.(stats := b1.stats.(overflowSkip := b1.stats.overflowSkip + 1)), sn);
      }
      var r := MakeRoom(b1, sn);
      if sn == r.next {
        TakeInOrderStats(r, pkt, clock, timeout);
      } else if sn > r.next {
        HoldStats(r, sn, pkt, clock, timeout);
      }
    }
  }

  lemma PushGapless<P>(b: Buf<P>, sn: nat, pkt: P, clock: int, timeout: int, first: nat)
    requires Inv(b) && (b.started || (b.window.Check(sn).1 && first == sn))
    requires b.started ==> Gapless(b.emitted, first, b.next)
    requires NoSkip(Push(b, sn, pkt, clock, timeout).stats)
    ensures Gapless(Push(b, sn, pkt, clock, timeout).emitted, first, Push(b, sn, pkt, clock, timeout).next)
  {
    hide Place, Gapless, Window.Valid;
    b.window.CheckValid(sn);
    PushStats(b, sn, pkt, clock, timeout);
    var b1 := b.(window := b.window.Check(sn).0);
    if b.window.Check(sn).1 {
      MakeRoomKeeps(b1, sn);
      PlaceGapless(MakeRoom(b1, sn), sn, pkt, clock, timeout, first);
    }
  }

  /** The number the first push anchors the buffer at. */
  function First<P>(es: seq<Event<P>>): nat {
    if Numbers(es) == [] then 0 else Numbers(es)[0]
  }

  lemma FlushNoSkip<P>(b: Buf<P>, now: int, clock: int, timeout: int)
    requires Inv(b) && NoSkip(FlushExpired(b, now, clock, timeout).stats)
    ensures FlushExpired(b, now, clock, timeout) == b
  {
    hide GiveUp;
    if b.deadline.Some? && now >= b.deadline.value {
      GiveUpKeeps(b, clock, timeout);
    }
  }

  lemma {:induction false} RunGapless<P>(maxHold: int, es: seq<Event<P>>)
    requires NoSkip(Run(maxHold, es).stats)
    ensures Gapless(Run(maxHold, es).emitted, First(es), Run(maxHold, es).next)
  {
    hide Push, FlushExpired;
    if es != [] {
      var prev, e := es[..|es| - 1], es[|es| - 1];
      RunInv(maxHold, prev);
      var b := Run(maxHold, prev);
      match e
      case Pushed(sn, pkt, clock, timeout) =>
        PushStats(b, sn, pkt, clock, timeout);
        RunGapless(maxHold, prev);
        PushGapless(b, sn, pkt, clock, timeout, First(es));
      case Ticked(now, clock, timeout) =>
        assert Numbers(es) == Numbers(prev);
        FlushNoSkip(b, now, clock, timeout);
        RunGapless(maxHold, prev);
    }
  }

  /** While nothing was skipped, the packets not passed late come out as the unbroken
      sequence from the first one on. */
  lemma NoSkipIsGapless<P>(maxHold: int, es: seq<Event<P>>)
    requires NoSkip(Run(maxHold, es).stats)
    ensures var b := Run(maxHold, es);
            && First(es) <= b.next
            && InOrder(b.emitted) == seq(b.next - First(es), i => First(es) + i)
  {
    RunGapless(maxHold, es);
    GaplessMeans(Run(maxHold, es).emitted, First(es), Run(maxHold, es).next);
  }
}
