/** Exactly when the reorder buffer emits a sequence number a second time. */
module ReorderOnce {
  import opened Common
  import opened BlockWindow
  import opened ReorderSpec
  import opened ReorderRuns

  /** Some number occurs twice in the log. */
  ghost predicate Repeats<P>(es: seq<Emission<P>>) {
    exists i, j :: 0 <= i < j < |es| && es[i].item.sn == es[j].item.sn
  }

  ghost predicate WasEmitted<P>(es: seq<Emission<P>>, sn: nat) {
    exists i :: 0 <= i < |es| && es[i].item.sn == sn
  }

  /** The push of an emitted number from the block exactly 128 behind the newest one, whose bit
      there is clear. */
  ghost predicate SlipsThrough<P>(b: Buf<P>, e: Event<P>) {
    && e.Pushed? && WasEmitted(b.emitted, e.sn)
    && b.window.Aliased(e.sn) && e.sn + b.window.Span() !in b.window.marks
  }

  // ----- Emitted numbers were accepted -----

  lemma {:induction false} LedgerIsAccepted<P>(maxHold: int, es: seq<Event<P>>)
    ensures forall n <- Ledger(Run(maxHold, es)) :: n in Accepted(SEEN_BLOCKS, Numbers(es))
  {
    hide Push, FlushExpired, Count, After;
    if es == [] {
      EmptyLedger<P>(maxHold);
    } else {
      var prev, e := es[..|es| - 1], es[|es| - 1];
      LedgerIsAccepted(maxHold, prev);
      RunInv(maxHold, prev);
      var b := Run(maxHold, prev);
      match e
      case Pushed(sn, pkt, clock, timeout) =>
        PushLog(b, sn, pkt, clock, timeout);
        assert Numbers(es)[..|Numbers(es)| - 1] == Numbers(prev);
      case Ticked(now, clock, timeout) =>
        FlushLog(b, now, clock, timeout);
        assert Numbers(es) == Numbers(prev);
    }
  }

  lemma EmptyLedger<P>(maxHold: int)
    ensures Ledger(Empty<P>(maxHold)) == multiset{}
  {
  }

  /** The bitmap lets a number emitted before through again exactly in the aliased block, and
      there exactly when the bit it maps to is clear. */
  lemma EmittedCheck<P>(maxHold: int, es: seq<Event<P>>, sn: nat)
    requires WasEmitted(Run(maxHold, es).emitted, sn)
    ensures var w := Run(maxHold, es).window;
            w.Check(sn).1 <==> w.Aliased(sn) && sn + w.Span() !in w.marks
  {
    hide Run, After, Accepted, Window.Check, Window.Aliased, EmittedNumbers;
    var b := Run(maxHold, es);
    var i :| 0 <= i < |b.emitted| && b.emitted[i].item.sn == sn;
    EmittedCount(b.emitted, i);
    LedgerIsAccepted(maxHold, es);
    assert sn in Ledger(b);
    RunInv(maxHold, es);
    AcceptedAgainIff(SEEN_BLOCKS, Numbers(es), sn);
  }

  // ----- What one step appends to the log -----

  /** The log grows by emissions that are no late passes. */
  ghost predicate InOrderGrowth<P>(before: seq<Emission<P>>, after: seq<Emission<P>>) {
    && before <= after
    && forall i | |before| <= i < |after| :: !after[i].late
  }

  lemma {:induction false} DrainRunGrowth<P>(b: Buf<P>)
    ensures InOrderGrowth(b.emitted, DrainRun(b).emitted)
    decreases |b.held|
  {
    if b.next in b.held {
      DrainRunGrowth(Deliver(b, b.next));
    }
  }

  lemma {:induction false} EmitBelowGrowth<P>(b: Buf<P>, target: nat)
    ensures InOrderGrowth(b.emitted, EmitBelow(b, target).emitted)
    decreases |b.held|
  {
    if Below(b.held, target) != {} {
      EmitBelowGrowth(Deliver(b, Least(Below(b.held, target))), target);
    }
  }

  lemma GiveUpGrowth<P>(b: Buf<P>, clock: int, timeout: int)
    ensures InOrderGrowth(b.emitted, GiveUp(b, clock, timeout).emitted)
  {
    hide DrainRun;
    if b.held != map[] {
      DrainRunGrowth(b.(stats := b.stats.(timeoutFlush := b.stats.timeoutFlush + 1),
                        next := Least(b.held.Keys), deadline := None));
    }
  }

  lemma PlaceGrowth<P>(b: Buf<P>, sn: nat, pkt: P, clock: int, timeout: int)
    requires sn >= b.next
    ensures InOrderGrowth(b.emitted, Place(b, sn, pkt, clock, timeout).emitted)
  {
    hide DrainRun, GiveUp;
    if sn == b.next {
      DrainRunGrowth(Emit(b, Item(b.next, pkt), false).(next := b.next + 1));
    } else {
      GiveUpGrowth(Shelve(b, sn, pkt, clock, timeout), clock, timeout);
    }
  }

  lemma MakeRoomGrowth<P>(b: Buf<P>, sn: nat)
    ensures InOrderGrowth(b.emitted, MakeRoom(b, sn).emitted)
  {
    hide EmitBelow;
    EmitBelowGrowth(b.(stats := b.stats.(overflowSkip := b.stats.overflowSkip + 1)), sn);
  }

  /** The only late pass is that of a pushed number below `next` that the bitmap lets through. */
  ghost predicate PassesLate<P>(b: Buf<P>, e: Event<P>) {
    e.Pushed? && b.started && e.sn < b.next && b.window.Check(e.sn).1
  }

  lemma StepGrowth<P>(b: Buf<P>, e: Event<P>)
    requires Inv(b)
    ensures var d := Step(b, e);
            if PassesLate(b, e) then d.emitted == b.emitted + [Emission(Item(e.sn, e.pkt), true)]
            else InOrderGrowth(b.emitted, d.emitted)
  {
    hide Place, MakeRoom, GiveUp, Window.Check, Window.Valid, InOrderGrowth;
    match e
    case Pushed(sn, pkt, clock, timeout) =>
      PushGrowth(b, sn, pkt, clock, timeout);
    case Ticked(now, clock, timeout) =>
      GiveUpGrowth(b, clock, timeout);
      GrowthIsReflexive(b.emitted);
  }

  lemma GrowthIsReflexive<P>(es: seq<Emission<P>>)
    ensures InOrderGrowth(es, es)
  {
  }

  lemma GrowthIsTransitive<P>(a: seq<Emission<P>>, b: seq<Emission<P>>, c: seq<Emission<P>>)
    requires InOrderGrowth(a, b) && InOrderGrowth(b, c)
    ensures InOrderGrowth(a, c)
  {
  }

  lemma PushGrowth<P>(b: Buf<P>, sn: nat, pkt: P, clock: int, timeout: int)
    requires Inv(b)
    ensures var d := Push(b, sn, pkt, clock, timeout);
            if PassesLate(b, Pushed(sn, pkt, clock, timeout))
            then d.emitted == b.emitted + [Emission(Item(sn, pkt), true)]
            else InOrderGrowth(b.emitted, d.emitted)
  {
    hide Hold, TakeInOrder, AdvanceTo, Window.Check, Window.Valid, InOrderGrowth;
    GrowthIsReflexive(b.emitted);
    var b1 := b.(window := b.window.Check(sn).0);
    if b.window.Check(sn).1 && !(b.started && sn < b.next) {
      var b2 := MakeRoom(b1, sn);
      MakeRoomGrowth(b1, sn);
      assert sn >= b2.next by { AdvanceNext(b1, sn); }
      PlaceGrowth(b2, sn, pkt, clock, timeout);
      GrowthIsTransitive(b.emitted, b2.emitted, Place(b2, sn, pkt, clock, timeout).emitted);
    }
  }

  lemma AdvanceNext<P>(b: Buf<P>, target: nat)
    ensures AdvanceTo(b.(stats := b.stats.(overflowSkip := b.stats.overflowSkip + 1)), target).next == target
  {
  }

  // ----- Exactly when a number is emitted again -----

  /** Pushing a number emitted before appends it once more, as a late pass, exactly when it
      comes from the aliased block and the bit it maps to is clear; otherwise the log stays. */
  lemma PushedAgain<P>(maxHold: int, es: seq<Event<P>>, sn: nat, pkt: P, clock: int, timeout: int)
    requires WasEmitted(Run(maxHold, es).emitted, sn)
    ensures var b := Run(maxHold, es);
            Push(b, sn, pkt, clock, timeout).emitted
            == if b.window.Aliased(sn) && sn + b.window.Span() !in b.window.marks
               then b.emitted + [Emission(Item(sn, pkt), true)]
               else b.emitted
  {
    hide Run, Inv, Window.Check, Window.Aliased, Accept;
    var b := Run(maxHold, es);
    EmittedCheck(maxHold, es, sn);
    EmissionOrder(maxHold, es);
    RunInv(maxHold, es);
    EmittedMeansStarted(b);
    PushGrowth(b, sn, pkt, clock, timeout);
  }

  lemma EmittedMeansStarted<P>(b: Buf<P>)
    requires Inv(b) && b.emitted != []
    ensures b.started
  {
  }

  lemma RepeatsGrows<P>(a: seq<Emission<P>>, b: seq<Emission<P>>)
    requires Repeats(a) && a <= b
    ensures Repeats(b)
  {
    var i, j :| 0 <= i < j < |a| && a[i].item.sn == a[j].item.sn;
    assert b[i].item.sn == b[j].item.sn;
  }

  lemma EachOnce<P>(es: seq<Emission<P>>)
    requires !Repeats(es)
    ensures forall i, j | 0 <= i < j < |es| :: es[i].item.sn != es[j].item.sn
  {
  }

  /** One event makes the log repeat a number exactly when it slips through. */
  lemma StepRepeats<P>(maxHold: int, es: seq<Event<P>>, e: Event<P>)
    ensures var b := Run(maxHold, es);
            Repeats(Step(b, e).emitted) <==> Repeats(b.emitted) || SlipsThrough(b, e)
  {
    hide Run, Step, Repeats, SlipsThrough;
    var b := Run(maxHold, es);
    if Repeats(b.emitted) {
      RunInv(maxHold, es);
      StepGrowth(b, e);
      RepeatsGrows(b.emitted, Step(b, e).emitted);
    } else if SlipsThrough(b, e) {
      SlippedRepeats(maxHold, es, e);
    } else if Repeats(Step(b, e).emitted) {
      RepeatedSlipped(maxHold, es, e);
    }
  }

  /** A late pass is of a number emitted before exactly when that slips through. */
  lemma LateAgain<P>(maxHold: int, es: seq<Event<P>>, e: Event<P>)
    ensures var b := Run(maxHold, es);
            SlipsThrough(b, e) <==> PassesLate(b, e) && WasEmitted(b.emitted, e.sn)
  {
    hide Run, Inv, Window.Check, Window.Aliased;
    var b := Run(maxHold, es);
    if e.Pushed? && WasEmitted(b.emitted, e.sn) {
      EmittedCheck(maxHold, es, e.sn);
      EmissionOrder(maxHold, es);
      RunInv(maxHold, es);
      EmittedMeansStarted(b);
    }
  }

  lemma SlippedRepeats<P>(maxHold: int, es: seq<Event<P>>, e: Event<P>)
    requires SlipsThrough(Run(maxHold, es), e)
    ensures Repeats(Step(Run(maxHold, es), e).emitted)
  {
    hide Run, Step, Inv, SlipsThrough, Window.Check;
    var b := Run(maxHold, es);
    var d := Step(b, e);
    RunInv(maxHold, es);
    LateAgain(maxHold, es, e);
    StepGrowth(b, e);
    var i :| 0 <= i < |b.emitted| && b.emitted[i].item.sn == e.sn;
    assert d.emitted[i].item.sn == d.emitted[|b.emitted|].item.sn;
  }

  lemma RepeatedSlipped<P>(maxHold: int, es: seq<Event<P>>, e: Event<P>)
    requires !Repeats(Run(maxHold, es).emitted) && Repeats(Step(Run(maxHold, es), e).emitted)
    ensures SlipsThrough(Run(maxHold, es), e)
  {
    hide Run, Step, Inv, SlipsThrough, Window.Check;
    var b := Run(maxHold, es);
    var d := Step(b, e);
    RunInv(maxHold, es);
    LateAgain(maxHold, es, e);
    StepGrowth(b, e);
    EachOnce(b.emitted);
    OrderedStep(maxHold, es, e);
    var i, j :| 0 <= i < j < |d.emitted| && d.emitted[i].item.sn == d.emitted[j].item.sn;
    assert j >= |b.emitted| && d.emitted[j].late;
    assert b.emitted[i].item.sn == e.sn;
  }

  lemma OrderedStep<P>(maxHold: int, es: seq<Event<P>>, e: Event<P>)
    ensures var d := Step(Run(maxHold, es), e);
            forall i, j | 0 <= i < j < |d.emitted| && !d.emitted[j].late ::
              d.emitted[i].item.sn < d.emitted[j].item.sn
  {
    hide Step;
    assert (es + [e])[..|es|] == es;
    EmissionOrder(maxHold, es + [e]);
  }

  /** The event at `k` slips through. */
  ghost predicate SlipsAt<P>(maxHold: int, es: seq<Event<P>>, k: nat) {
    k < |es| && SlipsThrough(Run(maxHold, es[..k]), es[k])
  }

  lemma SlipsAtEither<P>(maxHold: int, es: seq<Event<P>>, e: Event<P>, k: nat)
    ensures SlipsAt(maxHold, es + [e], k)
            <==> SlipsAt(maxHold, es, k) || (k == |es| && SlipsThrough(Run(maxHold, es), e))
  {
    hide Run, SlipsThrough;
    if k <= |es| {
      assert (es + [e])[..k] == es[..k];
    }
  }

  /** A run emits some number twice exactly when one of its pushes presents a number emitted
      before, from the block exactly 128 behind the newest one, while its bit there is clear. */
  lemma {:induction false} RepeatsIff<P>(maxHold: int, es: seq<Event<P>>)
    ensures Repeats(Run(maxHold, es).emitted) <==> exists k: nat :: SlipsAt(maxHold, es, k)
  {
    hide Step, SlipsThrough, SlipsAt, Repeats;
    if es == [] {
      NothingRepeats<P>(maxHold);
      NothingSlips<P>(maxHold);
    } else {
      var prev, e := es[..|es| - 1], es[|es| - 1];
      RepeatsIff(maxHold, prev);
      StepRepeats(maxHold, prev, e);
      assert es == prev + [e];
      forall k: nat ensures SlipsAt(maxHold, es, k)
                            <==> SlipsAt(maxHold, prev, k) || (k == |prev| && SlipsThrough(Run(maxHold, prev), e)) {
        SlipsAtEither(maxHold, prev, e, k);
      }
      if SlipsThrough(Run(maxHold, prev), e) {
        assert SlipsAt(maxHold, es, |prev|);
      }
    }
  }

  lemma NothingSlips<P>(maxHold: int)
    ensures forall k: nat :: !SlipsAt<P>(maxHold, [], k)
  {
  }

  lemma NothingRepeats<P>(maxHold: int)
    ensures !Repeats(Empty<P>(maxHold).emitted)
  {
  }

  // ----- The occupied slot -----

  lemma HeldCheck<P>(maxHold: int, es: seq<Event<P>>, sn: nat)
    requires sn in Run(maxHold, es).held
    ensures var w := Run(maxHold, es).window;
            w.Check(sn).1 <==> w.Aliased(sn) && sn + w.Span() !in w.marks
  {
    hide Run, After, Accepted, Strayed, Window.Check, Window.Aliased, EmittedNumbers;
    LedgerIsAccepted(maxHold, es);
    assert sn in Ledger(Run(maxHold, es));
    RunInv(maxHold, es);
    AcceptedAgainIff(SEEN_BLOCKS, Numbers(es), sn);
  }

  /** Pushing a number that is held finds its slot occupied exactly when it comes from the aliased
      block and the bit it maps to is clear: then the occupant is released and the newcomer takes
      its place.  Otherwise the newcomer is dropped as a duplicate. */
  lemma HeldAgain<P>(maxHold: int, es: seq<Event<P>>, sn: nat, pkt: P, clock: int, timeout: int)
    requires sn in Run(maxHold, es).held
    ensures var b := Run(maxHold, es); var d := Push(b, sn, pkt, clock, timeout);
            if b.window.Aliased(sn) && sn + b.window.Span() !in b.window.marks
            then d.released == b.released + [Item(sn, b.held[sn])] && d.held == b.held[sn := pkt]
            else d.released == b.released + [Item(sn, pkt)] && d.held == b.held
  {
    hide Run, Window.Check, Window.Aliased, Window.Valid, GiveUp;
    HeldCheck(maxHold, es, sn);
    RunInv(maxHold, es);
    var b := Run(maxHold, es);
    HeldSize(b, sn, pkt);
  }

  lemma HeldSize<P>(b: Buf<P>, sn: nat, pkt: P)
    requires Inv(b) && sn in b.held
    ensures b.started && b.next < sn < b.next + RING_SIZE
    ensures |b.held[sn := pkt]| <= b.maxHold
  {
    assert b.held[sn := pkt].Keys == b.held.Keys;
    assert |b.held| > 0;
  }
}
