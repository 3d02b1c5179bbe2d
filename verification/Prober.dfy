/** Per-path MTU discovery: the tick-driven search machine of `pmtud.Prober`. */
module ProberSpec {
  import opened Common

  const FLOOR := 576
  const BASE := 1200
  const GRANULARITY := 8
  const ACK_TIMEOUT_TICKS := 5
  const MAX_ATTEMPTS := 3
  const REVALIDATE_TICKS := 3000
  const INITIAL_DELAY_TICKS := 5
  const ID_SPACE := 0x1_0000_0000

  datatype Phase = Idle | AtCeil | AtBase | AtFloor | Search | Done | Dead

  datatype Probe = Probe(id: nat, size: int)

  /** `discovered` is 0 while unknown, -1 when even the floor fails, else the wire MTU. */
  datatype Prober = Prober(ceil: int, phase: Phase, wait: int, inflight: bool, id: nat, size: int,
                           timeout: int, attempt: int, lo: int, hi: int, discovered: int)

  function New(ceil: int): Prober {
    Prober(if ceil < FLOOR then FLOOR else ceil, Idle, INITIAL_DELAY_TICKS, false, 0, 0, 0, 0, 0, 0, 0)
  }

  function Finish(p: Prober, mtu: int): Prober {
    p.(discovered := mtu, phase := Done, wait := REVALIDATE_TICKS)
  }

  function Converge(p: Prober): Prober {
    if p.phase == Search && p.hi - p.lo <= GRANULARITY then Finish(p, p.lo) else p
  }

  /** A probe of the size in flight got lost for good. */
  function Fail(p: Prober): Prober {
    match p.phase
    case AtCeil => p.(phase := if p.ceil <= BASE then AtFloor else AtBase)
    case AtBase => p.(phase := AtFloor)
    case AtFloor => p.(discovered := -1, phase := Dead, wait := REVALIDATE_TICKS)
    case Search => Converge(p.(hi := p.size))
    case _ => p
  }

  /** A probe of the size in flight came back. */
  function Succeed(p: Prober): Prober {
    match p.phase
    case AtCeil => Finish(p, p.ceil)
    case AtBase => Converge(p.(lo := BASE, hi := p.ceil, phase := Search))
    case AtFloor => Converge(p.(lo := FLOOR, hi := BASE, phase := Search))
    case Search => Converge(p.(lo := p.size))
    case _ => p
  }

  /** The next size to probe; none when the search turns out to be over. */
  function NextSize(p: Prober): (Prober, Option<int>) {
    match p.phase
    case Idle | Done | Dead => (p.(phase := AtCeil), Some(p.ceil))
    case AtCeil => (p, Some(p.ceil))
    case AtBase => (p, Some(BASE))
    case AtFloor => (p, Some(FLOOR))
    case Search => if p.hi - p.lo <= GRANULARITY then (Finish(p, p.lo), None) else (p, Some((p.lo + p.hi) / 2))
  }

  function NextId(id: nat): nat { (id + 1) % ID_SPACE }

  /** The part of a tick that starts a probe. */
  function Launch(p: Prober): (Prober, Option<Probe>) {
    if p.wait > 0 then (p.(wait := p.wait - 1), None)
    else
      match NextSize(p)
      case (q, None) => (q, None)
      case (q, Some(next)) =>
        (q.(inflight := true, size := next, attempt := 0, timeout := ACK_TIMEOUT_TICKS, id := NextId(q.id)),
         Some(Probe(NextId(q.id), next)))
  }

  /** The last attempt at the size in flight timed out. */
  function GiveUp(p: Prober): Prober {
    Fail(p.(timeout := p.timeout - 1, attempt := p.attempt + 1, inflight := false))
  }

  function Tick(p: Prober): (Prober, Option<Probe>) {
    if !p.inflight then Launch(p)
    else if p.timeout - 1 > 0 then (p.(timeout := p.timeout - 1), None)
    else if p.attempt + 1 < MAX_ATTEMPTS then
      (p.(attempt := p.attempt + 1, id := NextId(p.id), timeout := ACK_TIMEOUT_TICKS),
       Some(Probe(NextId(p.id), p.size)))
    else
      Launch(GiveUp(p))
  }

  function OnAck(p: Prober, id: nat): Prober {
    if !p.inflight || id != p.id then p else Succeed(p.(inflight := false))
  }

  function OnSendError(p: Prober, id: nat): Prober {
    if !p.inflight || id != p.id then p else Fail(p.(inflight := false))
  }

  function Restart(p: Prober): Prober {
    p.(phase := Idle, wait := INITIAL_DELAY_TICKS, inflight := false, discovered := 0)
  }

  datatype Event = Ticked | Acked(id: nat) | SendFailed(id: nat) | Restarted

  function Step(p: Prober, e: Event): Prober {
    match e
    case Ticked => Tick(p).0
    case Acked(id) => OnAck(p, id)
    case SendFailed(id) => OnSendError(p, id)
    case Restarted => Restart(p)
  }

  function Run(p: Prober, es: seq<Event>): Prober {
    if es == [] then p else Step(Run(p, es[..|es| - 1]), es[|es| - 1])
  }

  // ----- What every step keeps -----

  predicate Settled(p: Prober) { p.phase == Done || p.phase == Dead }

  predicate Probing(p: Prober) { p.phase == AtCeil || p.phase == AtBase || p.phase == AtFloor || p.phase == Search }

  /** The size a phase probes. */
  function PhaseSize(p: Prober): int
    requires Probing(p)
  {
    match p.phase
    case AtCeil => p.ceil
    case AtBase => BASE
    case AtFloor => FLOOR
    case Search => (p.lo + p.hi) / 2
  }

  /** The search interval stays wider than the granularity, so the fallback of `NextSize`
      that finishes without probing is never taken. */
  predicate Inv(p: Prober) {
    && p.ceil >= FLOOR
    && p.wait >= 0 && (Probing(p) ==> p.wait == 0)
    && (p.inflight ==>
          Probing(p) && p.size == PhaseSize(p) && 1 <= p.timeout <= ACK_TIMEOUT_TICKS && 0 <= p.attempt < MAX_ATTEMPTS)
    && (p.phase == AtBase ==> p.ceil > BASE)
    && (p.phase == Search ==>
          && FLOOR <= p.lo && p.hi <= Max(p.ceil, BASE) && p.hi - p.lo > GRANULARITY
          && p.hi - p.lo <= Max(p.ceil - BASE, BASE - FLOOR))
    && (p.discovered == -1 || p.discovered == 0 || FLOOR <= p.discovered <= Max(p.ceil, BASE))
    && (p.phase == Done ==> p.discovered > 0)
    && (p.phase == Dead ==> p.discovered == -1)
  }

  lemma SucceedKeeps(p: Prober)
    requires Inv(p) && p.inflight
    ensures var q := Succeed(p.(inflight := false)); Inv(q) && q.ceil == p.ceil
  {
  }

  lemma FailKeeps(p: Prober)
    requires Inv(p) && p.inflight
    ensures var q := Fail(p.(inflight := false)); Inv(q) && q.ceil == p.ceil && !q.inflight
  {
  }

  lemma GiveUpKeeps(p: Prober)
    requires Inv(p) && p.inflight
    ensures Inv(GiveUp(p)) && GiveUp(p).ceil == p.ceil && !GiveUp(p).inflight
  {
  }

  lemma LaunchKeeps(p: Prober)
    requires Inv(p) && !p.inflight
    ensures Inv(Launch(p).0) && Launch(p).0.ceil == p.ceil
    ensures NextSize(p).1.Some?
  {
  }

  lemma StepKeeps(p: Prober, e: Event)
    requires Inv(p)
    ensures Inv(Step(p, e)) && Step(p, e).ceil == p.ceil
  {
    hide Fail, GiveUp, Launch, Succeed;
    match e
    case Ticked =>
      if !p.inflight {
        LaunchKeeps(p);
      } else if p.timeout - 1 <= 0 && p.attempt + 1 >= MAX_ATTEMPTS {
        GiveUpKeeps(p);
        LaunchKeeps(GiveUp(p));
      }
    case Acked(id) =>
      if p.inflight { SucceedKeeps(p); }
    case SendFailed(id) =>
      if p.inflight { FailKeeps(p); }
    case Restarted =>
  }

  lemma {:induction false} RunKeeps(ceil: int, es: seq<Event>)
    ensures Inv(Run(New(ceil), es)) && Run(New(ceil), es).ceil == New(ceil).ceil
  {
    if es != [] {
      RunKeeps(ceil, es[..|es| - 1]);
      StepKeeps(Run(New(ceil), es[..|es| - 1]), es[|es| - 1]);
    }
  }

  /** Whatever the network does, a positive result lies between the floor and the larger of
      the ceiling and the base. */
  lemma DiscoveredInRange(ceil: int, es: seq<Event>)
    ensures var p := Run(New(ceil), es);
            p.discovered == -1 || p.discovered == 0 || FLOOR <= p.discovered <= Max(p.ceil, BASE)
  {
    RunKeeps(ceil, es);
  }

  // ----- Results above the ceiling -----

  /** The lower ends of a search from the floor whose every probe so far was acknowledged. */
  predicate Rung(lo: int) { lo in {576, 888, 1044, 1122, 1161, 1180, 1190} }

  /** The highest result of a search from the floor: one more granularity step does not fit
      below the base. */
  const TOP := 1195

  /** With a ceiling below the base but not below `TOP`, a search never passes `TOP`. */
  predicate BelowCeiling(p: Prober) {
    && p.discovered <= p.ceil
    && (p.phase == Search && p.ceil < BASE ==>
          if p.hi == BASE then Rung(p.lo) else p.lo < p.hi <= TOP)
  }

  lemma SucceedBelowCeiling(p: Prober)
    requires Inv(p) && p.inflight && p.ceil >= TOP && BelowCeiling(p)
    ensures BelowCeiling(Succeed(p.(inflight := false)))
  {
  }

  lemma FailBelowCeiling(p: Prober)
    requires Inv(p) && p.inflight && p.ceil >= TOP && BelowCeiling(p)
    ensures BelowCeiling(Fail(p.(inflight := false))) && BelowCeiling(GiveUp(p))
  {
  }

  lemma LaunchBelowCeiling(p: Prober)
    requires Inv(p) && !p.inflight && BelowCeiling(p)
    ensures BelowCeiling(Launch(p).0)
  {
    hide Rung;
  }

  lemma StepBelowCeiling(p: Prober, e: Event)
    requires Inv(p) && p.ceil >= TOP && BelowCeiling(p)
    ensures BelowCeiling(Step(p, e))
  {
    hide Fail, GiveUp, Launch, Succeed, Rung;
    match e
    case Ticked =>
      if !p.inflight {
        LaunchBelowCeiling(p);
      } else if p.timeout - 1 <= 0 && p.attempt + 1 >= MAX_ATTEMPTS {
        FailBelowCeiling(p);
        GiveUpKeeps(p);
        LaunchBelowCeiling(GiveUp(p));
      }
    case Acked(id) =>
      if p.inflight { SucceedBelowCeiling(p); }
    case SendFailed(id) =>
      if p.inflight { FailBelowCeiling(p); }
    case Restarted =>
  }

  lemma {:induction false} RunBelowCeiling(ceil: int, es: seq<Event>)
    requires ceil >= TOP
    ensures BelowCeiling(Run(New(ceil), es))
  {
    if es != [] {
      hide Step, BelowCeiling, Inv;
      RunBelowCeiling(ceil, es[..|es| - 1]);
      RunKeeps(ceil, es[..|es| - 1]);
      StepBelowCeiling(Run(New(ceil), es[..|es| - 1]), es[|es| - 1]);
    }
  }

  lemma RunOneMore(p: Prober, es: seq<Event>, e: Event)
    ensures Run(p, es + [e]) == Step(Run(p, es), e)
  {
    assert (es + [e])[..|es|] == es;
  }

  /** Between two probes of a search that still reaches up to the base. */
  predicate Climbing(p: Prober, lo: int, id: nat) {
    p.phase == Search && !p.inflight && p.wait == 0 && p.lo == lo && p.hi == BASE && p.id == id
  }

  /** The next probe of a search is acknowledged. */
  function Answered(es: seq<Event>, id: nat): seq<Event> { es + [Ticked] + [Acked(id)] }

  lemma ClimbsOn(p: Prober, es: seq<Event>, lo: int, id: nat)
    requires Climbing(Run(p, es), lo, id) && BASE - lo > GRANULARITY && id + 1 < ID_SPACE
    ensures var q := Run(p, Answered(es, id + 1)); var mid := (lo + BASE) / 2;
            if BASE - mid > GRANULARITY then Climbing(q, mid, id + 1) else q.phase == Done && q.discovered == mid
  {
    hide Run;
    RunOneMore(p, es, Ticked);
    RunOneMore(p, es + [Ticked], Acked(id + 1));
  }

  /** The initial delay, and a probe of the ceiling that cannot be sent. */
  function CeilingRefused(): seq<Event> {
    [] + [Ticked] + [Ticked] + [Ticked] + [Ticked] + [Ticked] + [Ticked] + [SendFailed(1)]
  }

  lemma FallsToFloor(ceil: int)
    requires ceil <= BASE
    ensures var q := Run(New(ceil), CeilingRefused());
            q.phase == AtFloor && !q.inflight && q.wait == 0 && q.id == 1
  {
    var p := New(ceil);
    var t1 := [] + [Ticked];
    var t2 := t1 + [Ticked];
    var t3 := t2 + [Ticked];
    var t4 := t3 + [Ticked];
    var t5 := t4 + [Ticked];
    hide Run;
    RunNothing(p);
    WaitsOne(p, []);
    WaitsOne(p, t1);
    WaitsOne(p, t2);
    WaitsOne(p, t3);
    WaitsOne(p, t4);
    assert Run(p, t5) == p.(wait := 0);
    CeilingFails(p, t5);
  }

  /** One tick of a delay. */
  lemma WaitsOne(p: Prober, es: seq<Event>)
    requires !Run(p, es).inflight && Run(p, es).wait > 0
    ensures Run(p, es + [Ticked]) == Run(p, es).(wait := Run(p, es).wait - 1)
  {
    RunOneMore(p, es, Ticked);
  }

  /** The ceiling is probed and the probe cannot be sent. */
  lemma CeilingFails(p: Prober, es: seq<Event>)
    requires var q := Run(p, es); !q.inflight && q.wait == 0 && q.phase == Idle && q.id == 0 && q.ceil <= BASE
    ensures var q := Run(p, es + [Ticked] + [SendFailed(1)]);
            q.phase == AtFloor && !q.inflight && q.wait == 0 && q.id == 1
  {
    hide Run;
    RunOneMore(p, es, Ticked);
    RunOneMore(p, es + [Ticked], SendFailed(1));
  }

  lemma RunNothing(p: Prober)
    ensures Run(p, []) == p
  {
  }

  /** A run that reports 1195 below whatever ceiling up to the base: the probe of the ceiling
      cannot be sent, every other one comes back. */
  lemma Overshoots(ceil: int) returns (es: seq<Event>)
    requires ceil <= BASE
    ensures Run(New(ceil), es).discovered == TOP
  {
    hide Run, CeilingRefused, Answered;
    var p := New(ceil);
    es := EntersSearch(ceil);
    ClimbsOn(p, es, 576, 2);
    es := Answered(es, 3);
    ClimbsOn(p, es, 888, 3);
    es := Answered(es, 4);
    ClimbsOn(p, es, 1044, 4);
    es := Answered(es, 5);
    ClimbsOn(p, es, 1122, 5);
    es := Answered(es, 6);
    ClimbsOn(p, es, 1161, 6);
    es := Answered(es, 7);
    ClimbsOn(p, es, 1180, 7);
    es := Answered(es, 8);
    ClimbsOn(p, es, 1190, 8);
    es := Answered(es, 9);
  }

  lemma EntersSearch(ceil: int) returns (es: seq<Event>)
    requires ceil <= BASE
    ensures Climbing(Run(New(ceil), es), FLOOR, 2)
  {
    hide Run, CeilingRefused;
    var p := New(ceil);
    FallsToFloor(ceil);
    es := CeilingRefused();
    RunOneMore(p, es, Ticked);
    RunOneMore(p, es + [Ticked], Acked(2));
    es := Answered(es, 2);
  }

  /** Every result stays at or below the ceiling, whatever the network does, exactly when the
      ceiling is at least 1195. */
  lemma CeilingHoldsIff(ceil: int)
    ensures (forall es :: Run(New(ceil), es).discovered <= New(ceil).ceil) <==> ceil >= TOP
  {
    hide Run, BelowCeiling;
    if ceil >= TOP {
      forall es ensures Run(New(ceil), es).discovered <= New(ceil).ceil {
        RunKeeps(ceil, es);
        RunBelowCeiling(ceil, es);
        WithinCeiling(Run(New(ceil), es));
      }
    } else {
      var es := Overshoots(ceil);
      assert Run(New(ceil), es).discovered > New(ceil).ceil;
    }
  }

  lemma WithinCeiling(p: Prober)
    requires BelowCeiling(p)
    ensures p.discovered <= p.ceil
  {
  }

  // ----- Precision -----

  /** The event fits a path that carries exactly the probes of at most `limit` bytes: what is
      acknowledged fits, what is given up on does not. */
  predicate Faithful(p: Prober, e: Event, limit: int) {
    match e
    case Ticked => p.inflight && p.timeout - 1 <= 0 && p.attempt + 1 >= MAX_ATTEMPTS ==> p.size > limit
    case Acked(id) => p.inflight && id == p.id ==> p.size <= limit
    case SendFailed(id) => p.inflight && id == p.id ==> p.size > limit
    case Restarted => true
  }

  predicate FaithfulRun(p: Prober, es: seq<Event>, limit: int) {
    es == [] ||
    (FaithfulRun(p, es[..|es| - 1], limit) && Faithful(Run(p, es[..|es| - 1]), es[|es| - 1], limit))
  }

  /** The ceiling if it fits, -1 if the floor does not, else within the granularity below the limit. */
  predicate Exact(ceil: int, limit: int, discovered: int) {
    if limit >= ceil then discovered == ceil
    else if limit < 576 then discovered == -1
    else 576 <= discovered <= limit < discovered + 8
  }

  /** What the probes so far have told about the limit. */
  predicate Narrowed(p: Prober, limit: int) {
    && (p.phase == AtBase ==> limit < p.ceil)
    && (p.phase == AtFloor ==> limit < p.ceil && limit < BASE)
    && (p.phase == Search ==> p.lo <= limit < p.hi && limit < p.ceil)
    && (p.discovered == 0 || Exact(p.ceil, limit, p.discovered))
  }

  lemma SucceedNarrows(p: Prober, limit: int)
    requires Inv(p) && Narrowed(p, limit) && p.inflight && p.size <= limit
    ensures Narrowed(Succeed(p.(inflight := false)), limit)
  {
  }

  lemma FailNarrows(p: Prober, limit: int)
    requires Inv(p) && Narrowed(p, limit) && p.inflight && p.size > limit
    ensures Narrowed(Fail(p.(inflight := false)), limit)
    ensures Narrowed(GiveUp(p), limit)
  {
  }

  lemma LaunchNarrows(p: Prober, limit: int)
    requires Inv(p) && Narrowed(p, limit) && !p.inflight
    ensures Narrowed(Launch(p).0, limit)
  {
  }

  lemma StepNarrows(p: Prober, e: Event, limit: int)
    requires Inv(p) && Narrowed(p, limit) && Faithful(p, e, limit)
    ensures Narrowed(Step(p, e), limit)
  {
    hide Fail, GiveUp, Launch, Succeed;
    match e
    case Ticked =>
      if !p.inflight {
        LaunchNarrows(p, limit);
      } else if p.timeout - 1 <= 0 && p.attempt + 1 >= MAX_ATTEMPTS {
        FailNarrows(p, limit);
        GiveUpKeeps(p);
        LaunchNarrows(GiveUp(p), limit);
      }
    case Acked(id) =>
      if p.inflight && id == p.id { SucceedNarrows(p, limit); }
    case SendFailed(id) =>
      if p.inflight && id == p.id { FailNarrows(p, limit); }
    case Restarted =>
  }

  /** On a path that carries exactly the probes of at most `limit` bytes, every result ever
      reported is exact. */
  lemma {:induction false} ResultsAreExact(ceil: int, es: seq<Event>, limit: int)
    requires FaithfulRun(New(ceil), es, limit)
    ensures var p := Run(New(ceil), es);
            Narrowed(p, limit) && (Settled(p) ==> Exact(p.ceil, limit, p.discovered))
  {
    RunKeeps(ceil, es);
    if es != [] {
      var prev, e := es[..|es| - 1], es[|es| - 1];
      ResultsAreExact(ceil, prev, limit);
      RunKeeps(ceil, prev);
      StepNarrows(Run(New(ceil), prev), e, limit);
    }
  }

  // ----- Termination -----

  /** Sizes a binary search still probes on an interval of width `w`. */
  function SearchSizes(w: int): nat
    decreases w
  {
    if w <= GRANULARITY then 0 else 1 + SearchSizes((w + 1) / 2)
  }

  lemma {:induction false} SearchSizesMonotone(v: int, w: int)
    requires v <= w
    ensures SearchSizes(v) <= SearchSizes(w)
    decreases w
  {
    if v > GRANULARITY {
      SearchSizesMonotone((v + 1) / 2, (w + 1) / 2);
    }
  }

  /** At most ceil(log2(w / 8)) sizes. */
  lemma {:induction false} SearchSizesLog(w: int, m: nat)
    requires w <= GRANULARITY * Pow2(m)
    ensures SearchSizes(w) <= m
    decreases m
  {
    if w > GRANULARITY {
      SearchSizesLog((w + 1) / 2, m - 1);
    }
  }

  /** Sizes still to be probed before the round must end, counting the one in flight. */
  function SizesLeft(p: Prober): nat {
    var afterFloor := SearchSizes(BASE - FLOOR);
    var afterBase := Max(SearchSizes(p.ceil - BASE), 1 + afterFloor);
    match p.phase
    case AtBase => 1 + afterBase
    case AtFloor => 1 + afterFloor
    case Search => SearchSizes(p.hi - p.lo)
    case _ => 1 + if p.ceil <= BASE then 1 + afterFloor else 1 + afterBase
  }

  /** Ticks until the round must end: fifteen per size, and the wait before the first. */
  function Rank(p: Prober): int {
    if p.inflight then
      p.timeout + ACK_TIMEOUT_TICKS * (MAX_ATTEMPTS - 1 - p.attempt) + 15 * (SizesLeft(p) - 1)
    else
      p.wait + 1 + 15 * SizesLeft(p)
  }

  lemma FailShrinks(p: Prober, timeout: int, attempt: int)
    requires Inv(p) && p.inflight
    ensures var q := Fail(p.(timeout := timeout, attempt := attempt, inflight := false));
            !q.inflight && (Settled(q) || (SizesLeft(q) <= SizesLeft(p) - 1 && q.wait == 0))
  {
    if p.phase == Search {
      SearchSizesMonotone(p.size - p.lo, (p.hi - p.lo + 1) / 2);
    }
  }

  lemma LaunchRank(p: Prober)
    requires Inv(p) && !p.inflight && !Settled(p)
    ensures Rank(Launch(p).0) == Rank(p) - 1
  {
    hide SearchSizes;
  }

  lemma GiveUpWaits(p: Prober)
    requires Inv(p) && p.inflight && Settled(GiveUp(p))
    ensures GiveUp(p).wait > 0
  {
  }

  lemma LaunchSettled(p: Prober)
    requires Settled(p) && p.wait > 0
    ensures Settled(Launch(p).0)
  {
  }

  lemma SucceedShrinks(p: Prober)
    requires Inv(p) && p.inflight
    ensures var q := Succeed(p.(inflight := false));
            !q.inflight && (Settled(q) || (SizesLeft(q) <= SizesLeft(p) - 1 && q.wait == 0))
  {
    if p.phase == Search {
      SearchSizesMonotone(p.hi - p.size, (p.hi - p.lo + 1) / 2);
    }
  }

  /** Short of a restart, a tick either ends the round or brings its end one tick closer, and
      nothing else moves the end away. */
  lemma StepShrinks(p: Prober, e: Event)
    requires Inv(p) && !Settled(p) && !e.Restarted?
    ensures Settled(Step(p, e)) || Rank(Step(p, e)) <= Rank(p) - if e.Ticked? then 1 else 0
    ensures Rank(p) >= 1
  {
    hide SearchSizes, Fail, Launch, Succeed;
    match e
    case Ticked =>
      PositiveLeft(p);
      if !p.inflight {
        LaunchRank(p);
      } else if p.timeout - 1 <= 0 && p.attempt + 1 >= MAX_ATTEMPTS {
        FailShrinks(p, p.timeout - 1, p.attempt + 1);
        GiveUpKeeps(p);
        if Settled(GiveUp(p)) {
          GiveUpWaits(p);
          LaunchSettled(GiveUp(p));
        } else {
          LaunchRank(GiveUp(p));
        }
      }
    case Acked(id) =>
      PositiveLeft(p);
      if p.inflight && id == p.id { SucceedShrinks(p); }
    case SendFailed(id) =>
      PositiveLeft(p);
      if p.inflight && id == p.id { FailShrinks(p, p.timeout, p.attempt); }
  }

  lemma PositiveLeft(p: Prober)
    requires Inv(p)
    ensures SizesLeft(p) >= 1
  {
  }

  function Ticks(es: seq<Event>): nat {
    if es == [] then 0 else Ticks(es[..|es| - 1]) + if es[|es| - 1].Ticked? then 1 else 0
  }

  predicate NoRestart(es: seq<Event>) { forall e <- es :: !e.Restarted? }

  /** The run has been settled at some point. */
  predicate HasSettled(p: Prober, es: seq<Event>) {
    exists i | 0 <= i <= |es| :: Settled(Run(p, es[..i]))
  }

  lemma {:induction false} RankFalls(p: Prober, es: seq<Event>)
    requires Inv(p) && NoRestart(es) && !HasSettled(p, es)
    ensures Inv(Run(p, es)) && Rank(Run(p, es)) <= Rank(p) - Ticks(es)
    ensures Rank(Run(p, es)) >= 1
  {
    assert es[..|es|] == es && !Settled(Run(p, es));
    if es == [] {
      StepShrinks(p, Ticked);
    } else {
      var prev, e := es[..|es| - 1], es[|es| - 1];
      assert !HasSettled(p, prev) by {
        assert forall i | 0 <= i <= |prev| :: prev[..i] == es[..i];
      }
      RankFalls(p, prev);
      var q := Run(p, prev);
      assert prev[..|prev|] == prev && es[..|prev|] == prev;
      StepShrinks(q, e);
      StepKeeps(q, e);
      StepShrinks(Step(q, e), Ticked);
    }
  }

  /** Under any behaviour of the network a round without restart ends within `Rank` ticks. */
  lemma RoundEnds(p: Prober, es: seq<Event>)
    requires Inv(p) && NoRestart(es) && Ticks(es) >= Rank(p)
    ensures HasSettled(p, es)
  {
    if !HasSettled(p, es) {
      RankFalls(p, es);
    }
  }

  /** From whatever point of a round, it needs at most the wait before its first probe, one tick
      and fifteen for each of `3 + m` sizes, where the larger of `ceil - 1200` and 624 is at
      most `8 * 2^m`; `m` sizes if the search has begun. */
  lemma RoundBound(p: Prober, m: nat)
    requires Inv(p) && Max(p.ceil - 1200, 624) <= 8 * Pow2(m)
    ensures SizesLeft(p) <= if p.phase == Search then m else 3 + m
    ensures Rank(p) <= p.wait + 1 + 15 * (3 + m)
  {
    hide SearchSizes;
    SearchSizesLog(p.ceil - BASE, m);
    SearchSizesLog(BASE - FLOOR, m);
    if p.phase == Search {
      SearchSizesLog(p.hi - p.lo, m);
    }
  }

  /** The event sends the first probe of a size; a repetition has a positive attempt. */
  predicate Starts(p: Prober, e: Event) { e.Ticked? && Tick(p).1.Some? && Tick(p).0.attempt == 0 }

  /** How many sizes a run starts to probe. */
  function SizesProbed(p: Prober, es: seq<Event>): nat {
    if es == [] then 0
    else
      var prev := es[..|es| - 1];
      SizesProbed(p, prev) + if Starts(Run(p, prev), es[|es| - 1]) then 1 else 0
  }

  /** Sizes that may still be started before the round must end. */
  function ToStart(p: Prober): int { SizesLeft(p) - if p.inflight then 1 else 0 }

  lemma LaunchStarts(p: Prober)
    requires Inv(p) && !p.inflight && !Settled(p)
    ensures !Settled(Launch(p).0) && Launch(p).0.inflight == Launch(p).1.Some? && SizesLeft(Launch(p).0) == SizesLeft(p)
  {
    hide SearchSizes;
  }

  lemma LaunchWaits(p: Prober)
    requires Settled(p) && p.wait > 0
    ensures Launch(p).1.None?
  {
  }

  /** A step ends the round without starting a size, or uses up one for each it starts. */
  lemma StepStarts(p: Prober, e: Event)
    requires Inv(p) && !Settled(p) && !e.Restarted?
    ensures if Settled(Step(p, e)) then !Starts(p, e)
            else ToStart(Step(p, e)) <= ToStart(p) - if Starts(p, e) then 1 else 0
    ensures ToStart(p) >= 0
  {
    hide SearchSizes, SizesLeft, Fail, Launch, Succeed;
    PositiveLeft(p);
    match e
    case Ticked =>
      if !p.inflight {
        LaunchStarts(p);
      } else if p.timeout - 1 <= 0 && p.attempt + 1 >= MAX_ATTEMPTS {
        FailShrinks(p, p.timeout - 1, p.attempt + 1);
        GiveUpKeeps(p);
        if Settled(GiveUp(p)) {
          GiveUpWaits(p);
          LaunchSettled(GiveUp(p));
          LaunchWaits(GiveUp(p));
        } else {
          LaunchStarts(GiveUp(p));
        }
      } else {
        SameSizesLeft(p, Tick(p).0);
      }
    case Acked(id) =>
      if p.inflight && id == p.id { SucceedShrinks(p); }
    case SendFailed(id) =>
      if p.inflight && id == p.id { FailShrinks(p, p.timeout, p.attempt); }
  }

  lemma SameSizesLeft(p: Prober, q: Prober)
    requires p.ceil == q.ceil && p.phase == q.phase && p.lo == q.lo && p.hi == q.hi
    ensures SizesLeft(p) == SizesLeft(q)
  {
  }

  /** Nothing was settled before the last event. */
  predicate OneRound(p: Prober, es: seq<Event>) {
    NoRestart(es) && forall i | 0 <= i < |es| :: !Settled(Run(p, es[..i]))
  }

  lemma OneRoundPrefix(p: Prober, es: seq<Event>)
    requires OneRound(p, es) && es != []
    ensures OneRound(p, es[..|es| - 1]) && !Settled(Run(p, es[..|es| - 1])) && !es[|es| - 1].Restarted?
  {
    var prev := es[..|es| - 1];
    NoRestartPrefix(es);
    assert forall i | 0 <= i < |prev| :: prev[..i] == es[..i];
    assert es[|es| - 1] in es;
  }

  lemma {:induction false} RoundStarts(p: Prober, es: seq<Event>)
    requires Inv(p) && !Settled(p) && OneRound(p, es)
    ensures Inv(Run(p, es)) && Run(p, es).ceil == p.ceil && SizesProbed(p, es) <= ToStart(p)
    ensures !Settled(Run(p, es)) ==> SizesProbed(p, es) <= ToStart(p) - ToStart(Run(p, es))
  {
    hide ToStart, Starts, Step, Inv, OneRound;
    if es == [] {
      StepStarts(p, Ticked);
    } else {
      var prev, e := es[..|es| - 1], es[|es| - 1];
      OneRoundPrefix(p, es);
      RoundStarts(p, prev);
      StepStarts(Run(p, prev), e);
      StepKeeps(Run(p, prev), e);
      if !Settled(Run(p, es)) {
        StepStarts(Run(p, es), Ticked);
      }
    }
  }

  /** From whatever point of a round and under any behaviour of the network, no more than `3 + m`
      sizes are probed until it is settled, and no more than `m` once the search has begun. */
  lemma RoundSizes(p: Prober, es: seq<Event>, m: nat)
    requires Inv(p) && !Settled(p) && OneRound(p, es)
    requires Max(p.ceil - 1200, 624) <= 8 * Pow2(m)
    ensures SizesProbed(p, es) <= if p.phase == Search then m else 3 + m
  {
    hide SizesLeft, SizesProbed, Inv, OneRound;
    RoundStarts(p, es);
    RoundBound(p, m);
  }

  /** A new prober: six ticks and fifteen for each size. */
  lemma FirstRoundBound(ceil: int, m: nat)
    requires Max(ceil - 1200, 624) <= 8 * Pow2(m)
    ensures Rank(New(ceil)) <= 6 + 15 * (3 + m)
  {
    RunKeeps(ceil, []);
    RoundBound(New(ceil), m);
  }

  /** While its revalidation is not due, a settled prober only counts down. */
  lemma {:induction false} OnlyWaits(p: Prober, es: seq<Event>)
    requires Inv(p) && Settled(p) && NoRestart(es) && Ticks(es) <= p.wait
    ensures Run(p, es) == p.(wait := p.wait - Ticks(es))
  {
    if es != [] {
      NoRestartPrefix(es);
      OnlyWaits(p, es[..|es| - 1]);
      assert es[|es| - 1] in es;
    }
  }

  lemma NoRestartPrefix(es: seq<Event>)
    requires es != [] && NoRestart(es)
    ensures NoRestart(es[..|es| - 1])
  {
    assert forall e <- es[..|es| - 1] :: e in es;
  }

  /** The tick after the wait opens a new round with a probe of the ceiling. */
  lemma {:induction false} Revalidates(p: Prober, es: seq<Event>) returns (i: nat)
    requires Inv(p) && Settled(p) && NoRestart(es) && Ticks(es) > p.wait
    ensures i <= |es| && Ticks(es[..i]) == p.wait + 1
    ensures var q := Run(p, es[..i]);
            Inv(q) && q.phase == AtCeil && q.inflight && q.ceil == p.ceil && q.wait == 0
  {
    var prev := es[..|es| - 1];
    NoRestartPrefix(es);
    if Ticks(prev) > p.wait {
      i := Revalidates(p, prev);
      assert prev[..i] == es[..i];
    } else {
      OnlyWaits(p, prev);
      i := |es|;
      assert es[..i] == es;
      StepKeeps(Run(p, prev), Ticked);
    }
  }

  lemma {:induction false} RunSplits(p: Prober, es: seq<Event>, i: nat)
    requires i <= |es|
    ensures Run(p, es) == Run(Run(p, es[..i]), es[i..])
    ensures Ticks(es) == Ticks(es[..i]) + Ticks(es[i..])
  {
    hide Step;
    if i == |es| {
      assert es[..i] == es && es[i..] == [];
    } else {
      var prev := es[..|es| - 1];
      RunSplits(p, prev, i);
      assert prev[..i] == es[..i] && es[i..][..|es| - 1 - i] == prev[i..];
    }
  }

  /** Every later round ends too: from a settled prober, once the wait is over, a probe of the
      ceiling opens a round, and under any behaviour of the network that is settled again after
      at most one more tick and fifteen for each of `3 + m` sizes. */
  lemma RevalidationEnds(p: Prober, es: seq<Event>, m: nat) returns (i: nat, j: nat)
    requires Inv(p) && Settled(p) && NoRestart(es)
    requires Max(p.ceil - 1200, 624) <= 8 * Pow2(m)
    requires Ticks(es) >= p.wait + 2 + 15 * (3 + m)
    ensures i <= j <= |es| && Run(p, es[..i]).phase == AtCeil && Settled(Run(p, es[..j]))
  {
    hide Run, Rank, Inv;
    i := Revalidates(p, es);
    var q, rest := Run(p, es[..i]), es[i..];
    RunSplits(p, es, i);
    RoundBound(q, m);
    assert forall e <- rest :: e in es;
    RoundEnds(q, rest);
    var k :| 0 <= k <= |rest| && Settled(Run(q, rest[..k]));
    j := i + k;
    RunSplits(p, es[..j], i);
    assert es[..j][..i] == es[..i] && es[..j][i..] == rest[..k];
  }

  /** Discovery succeeds: on a path of limit `limit`, however the acknowledgements are delayed
      within their time, the round ends and ends with the exact result. */
  lemma DiscoveryIsPrecise(ceil: int, es: seq<Event>, limit: int)
    requires FaithfulRun(New(ceil), es, limit) && NoRestart(es) && Ticks(es) >= Rank(New(ceil))
    ensures exists i | 0 <= i <= |es| ::
              var p := Run(New(ceil), es[..i]);
              Settled(p) && Exact(New(ceil).ceil, limit, p.discovered)
  {
    RunKeeps(ceil, []);
    RoundEnds(New(ceil), es);
    var i :| 0 <= i <= |es| && Settled(Run(New(ceil), es[..i]));
    FaithfulPrefix(New(ceil), es, limit, i);
    RunKeeps(ceil, es[..i]);
    ResultsAreExact(ceil, es[..i], limit);
  }

  lemma {:induction false} FaithfulPrefix(p: Prober, es: seq<Event>, limit: int, i: nat)
    requires FaithfulRun(p, es, limit) && i <= |es|
    ensures FaithfulRun(p, es[..i], limit)
  {
    if i == |es| {
      assert es[..i] == es;
    } else {
      FaithfulPrefix(p, es[..|es| - 1], limit, i);
      assert es[..|es| - 1][..i] == es[..i];
    }
  }
}
