/** The prober's timing in ticks: when probes go out, are repeated and are given up on. */
module ProberTiming {
  import opened Common
  import opened ProberSpec

  /** The prober after `n` ticks and nothing else. */
  function TickN(p: Prober, n: nat): Prober { if n == 0 then p else Tick(TickN(p, n - 1)).0 }

  /** What tick number `n` sends, the first being tick 1. */
  function SentAt(p: Prober, n: nat): Option<Probe>
    requires n >= 1
  {
    Tick(TickN(p, n - 1)).1
  }

  lemma {:induction false} Waits(p: Prober, n: nat)
    requires !p.inflight && n <= p.wait
    ensures TickN(p, n) == p.(wait := p.wait - n)
  {
    if n > 0 {
      Waits(p, n - 1);
    }
  }

  /** A prober with nothing in flight sends nothing while it waits, and a probe with the tick after. */
  lemma ProbesAfterWait(p: Prober, n: nat)
    requires Inv(p) && !p.inflight && 1 <= n <= p.wait + 1
    ensures SentAt(p, n).Some? <==> n == p.wait + 1
    ensures n == p.wait + 1 && !Probing(p) ==> SentAt(p, n) == Some(Probe(NextId(p.id), p.ceil))
  {
    Waits(p, n - 1);
  }

  /** After a restart, and likewise for a new prober, five ticks pass in silence and the sixth sends a
      probe of the ceiling. */
  lemma SixthTickProbes(p: Prober, n: nat)
    requires Inv(p) && 1 <= n <= 6
    ensures var q := Restart(p);
            && q.discovered == 0
            && SentAt(q, n) == if n == 6 then Some(Probe(NextId(p.id), p.ceil)) else None
  {
    StepKeeps(p, Restarted);
    ProbesAfterWait(Restart(p), n);
  }

  lemma NewProbesAtSixth(ceil: int, n: nat)
    requires 1 <= n <= 6
    ensures SentAt(New(ceil), n) == if n == 6 then Some(Probe(1, if ceil < 576 then 576 else ceil)) else None
  {
    RunKeeps(ceil, []);
    ProbesAfterWait(New(ceil), n);
  }

  /** A round that ends waits 3000 ticks; one that ends with a timeout has used up the first of them. */
  lemma SettlesFor3000(p: Prober, e: Event)
    requires Inv(p) && !Settled(p) && Settled(Step(p, e))
    ensures Step(p, e).wait == if e.Ticked? then 2999 else 3000
    ensures !Step(p, e).inflight
  {
    StepKeeps(p, e);
    if e.Ticked? && p.inflight {
      GiveUpKeeps(p);
    }
  }

  /** A probe that stays unanswered is repeated with the fifth and the tenth tick, under a new id and
      in the same size, and given up on with the fifteenth. */
  lemma {:induction false} Unanswered(p: Prober, n: nat)
    requires Inv(p) && p.inflight && p.attempt == 0 && p.timeout == 5 && n <= 14
    ensures TickN(p, n) == p.(attempt := n / 5, timeout := 5 - n % 5, id := TickN(p, n).id)
    ensures n >= 1 ==> (SentAt(p, n).Some? <==> n == 5 || n == 10)
    ensures n == 5 || n == 10 ==> SentAt(p, n) == Some(Probe(TickN(p, n).id, p.size))
  {
    if n > 0 {
      Unanswered(p, n - 1);
    }
  }

  lemma FifteenthTickGivesUp(p: Prober)
    requires Inv(p) && p.inflight && p.attempt == 0 && p.timeout == 5
    ensures var q := TickN(p, 14);
            TickN(p, 15) == Launch(Fail(q.(timeout := 0, attempt := 3, inflight := false))).0
  {
    hide Launch, Fail;
    Unanswered(p, 14);
  }

  /** Every probe that goes out for a new size has this much time. */
  lemma LaunchedFresh(p: Prober)
    requires Launch(p).1.Some?
    ensures var q := Launch(p).0; q.inflight && q.attempt == 0 && q.timeout == 5 && Launch(p).1.value.size == q.size
  {
  }
}
