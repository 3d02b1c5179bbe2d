/** Discovery against a network that loses, delays and duplicates: every result is backed by
    a probe of that size which the peer received. */
module ProberNetwork {
  import opened Common
  import opened ProberSpec

  /** `sent` logs every probe by id; `recent` are the ids sent since the last restart and
      `arrived` those the peer has received. */
  datatype World = World(prober: Prober, sent: map<nat, int>, recent: set<nat>, arrived: set<nat>)

  /** `Arrive` delivers a probe to the peer.  `Ack` hands an acknowledgement to the prober: the
      peer acknowledges only what arrived, but the network may delay, repeat and reorder. */
  datatype Move = TickAndSend | Arrive(id: nat) | Ack(id: nat) | SendError(id: nat) | Reset

  predicate Enabled(w: World, m: Move) {
    match m
    case Arrive(id) => id in w.sent
    case Ack(id) => id in w.arrived
    case _ => true
  }

  function Next(w: World, m: Move): World {
    match m
    case TickAndSend =>
      var (p, probe) := Tick(w.prober);
      if probe.None? then w.(prober := p)
      else World(p, w.sent[probe.value.id := probe.value.size], w.recent + {probe.value.id}, w.arrived)
    case Arrive(id) => w.(arrived := w.arrived + {id})
    case Ack(id) => w.(prober := OnAck(w.prober, id))
    case SendError(id) => w.(prober := OnSendError(w.prober, id))
    case Reset => w.(prober := Restart(w.prober), recent := {})
  }

  function Begin(ceil: int): World { World(New(ceil), map[], {}, {}) }

  function After(ceil: int, ms: seq<Move>): World {
    if ms == [] then Begin(ceil) else Next(After(ceil, ms[..|ms| - 1]), ms[|ms| - 1])
  }

  predicate Possible(ceil: int, ms: seq<Move>) {
    ms == [] ||
    (Possible(ceil, ms[..|ms| - 1]) && Enabled(After(ceil, ms[..|ms| - 1]), ms[|ms| - 1]))
  }

  /** A probe of this size was sent since the last restart and reached the peer. */
  ghost predicate Proven(w: World, size: int) {
    exists id :: id in w.recent && id in w.arrived && id in w.sent && w.sent[id] == size
  }

  ghost predicate Backed(w: World) {
    && Inv(w.prober)
    && w.recent <= w.sent.Keys
    && (forall id <- w.sent :: id <= w.prober.id)
    && (w.prober.inflight ==>
          w.prober.id in w.recent && w.prober.id in w.sent && w.sent[w.prober.id] == w.prober.size)
    && (w.prober.phase == Search ==> Proven(w, w.prober.lo))
    && (w.prober.discovered > 0 ==> Proven(w, w.prober.discovered))
  }

  lemma ProvenStays(w: World, v: World, size: int)
    requires Proven(w, size)
    requires w.recent <= v.recent && w.arrived <= v.arrived
    requires forall id <- w.recent :: id in w.sent ==> id in v.sent && v.sent[id] == w.sent[id]
    ensures Proven(v, size)
  {
    var id :| id in w.recent && id in w.arrived && id in w.sent && w.sent[id] == size;
    assert id in v.recent && id in v.arrived && id in v.sent && v.sent[id] == size;
  }

  lemma AckBacks(w: World, id: nat)
    requires Backed(w) && id in w.arrived
    ensures Backed(Next(w, Ack(id)))
  {
    var p := w.prober;
    if p.inflight && id == p.id {
      assert Proven(w, p.size);
      SucceedKeeps(p);
    }
    ProvenSame(w, Next(w, Ack(id)));
  }

  lemma ProvenSame(w: World, v: World)
    requires w.recent == v.recent && w.arrived == v.arrived && w.sent == v.sent
    ensures forall size :: Proven(w, size) <==> Proven(v, size)
  {
  }

  /** Failing a size reports nothing that was not proven before. */
  predicate NothingNew(p: Prober, q: Prober) {
    && (q.phase == Search ==> p.phase == Search && q.lo == p.lo)
    && (q.discovered > 0 ==> q.discovered == p.discovered || (p.phase == Search && q.discovered == p.lo))
  }

  lemma FailBacks(p: Prober, timeout: int, attempt: int)
    requires Inv(p) && p.inflight
    ensures var q := Fail(p.(timeout := timeout, attempt := attempt, inflight := false));
            NothingNew(p, q) && q.id == p.id && !q.inflight
  {
  }

  lemma LaunchBacks(p: Prober)
    requires Inv(p) && !p.inflight
    ensures var (q, probe) := Launch(p);
            && NothingNew(p, q)
            && (probe.None? ==> q.id == p.id && !q.inflight)
            && (probe.Some? ==> q.inflight && q.id == NextId(p.id) && probe.value == Probe(q.id, q.size))
  {
  }

  /** What a tick does, whether it launches, repeats or gives up on a probe. */
  lemma TickEffect(p: Prober)
    requires Inv(p)
    ensures var (q, probe) := Tick(p);
            && NothingNew(p, q)
            && (probe.None? ==> q.id == p.id && (q.inflight ==> p.inflight && q.size == p.size))
            && (probe.Some? ==> q.inflight && q.id == NextId(p.id) && probe.value == Probe(q.id, q.size))
  {
    hide Fail, Launch, Inv;
    if !p.inflight {
      LaunchBacks(p);
    } else if p.timeout - 1 <= 0 && p.attempt + 1 >= MAX_ATTEMPTS {
      GiveUpKeeps(p);
      FailBacks(p, p.timeout - 1, p.attempt + 1);
      LaunchBacks(GiveUp(p));
    }
  }

  /** The move sends a probe, the only way to use up an id. */
  predicate SendsProbe(w: World, m: Move) { m.TickAndSend? && Tick(w.prober).1.Some? }

  lemma TickBacks(w: World)
    requires Backed(w) && (SendsProbe(w, TickAndSend) ==> w.prober.id + 1 < ID_SPACE)
    ensures Backed(Next(w, TickAndSend))
    ensures Next(w, TickAndSend).prober.id == w.prober.id + if SendsProbe(w, TickAndSend) then 1 else 0
  {
    hide Tick, Inv, Proven;
    var v := Next(w, TickAndSend);
    StepKeeps(w.prober, Ticked);
    TickEffect(w.prober);
    if v.prober.phase == Search {
      ProvenStays(w, v, v.prober.lo);
    }
    if v.prober.discovered > 0 {
      ProvenStays(w, v, v.prober.discovered);
    }
  }

  lemma NextBacks(w: World, m: Move)
    requires Backed(w) && Enabled(w, m) && (SendsProbe(w, m) ==> w.prober.id + 1 < ID_SPACE)
    ensures Backed(Next(w, m)) && Next(w, m).prober.id == w.prober.id + if SendsProbe(w, m) then 1 else 0
  {
    var v := Next(w, m);
    match m
    case TickAndSend => TickBacks(w);
    case Arrive(id) =>
      if v.prober.phase == Search { ProvenStays(w, v, v.prober.lo); }
      if v.prober.discovered > 0 { ProvenStays(w, v, v.prober.discovered); }
    case Ack(id) => AckBacks(w, id);
    case SendError(id) =>
      if w.prober.inflight {
        FailKeeps(w.prober);
        FailBacks(w.prober, w.prober.timeout, w.prober.attempt);
      }
      ProvenSame(w, v);
    case Reset =>
  }

  /** The probes sent in a run. */
  function Probes(ceil: int, ms: seq<Move>): nat {
    if ms == [] then 0
    else
      var prev := ms[..|ms| - 1];
      Probes(ceil, prev) + if SendsProbe(After(ceil, prev), ms[|ms| - 1]) then 1 else 0
  }

  lemma {:induction false} RunBacks(ceil: int, ms: seq<Move>)
    requires Possible(ceil, ms) && Probes(ceil, ms) < ID_SPACE
    ensures Backed(After(ceil, ms)) && After(ceil, ms).prober.id == Probes(ceil, ms)
  {
    if ms != [] {
      RunBacks(ceil, ms[..|ms| - 1]);
      NextBacks(After(ceil, ms[..|ms| - 1]), ms[|ms| - 1]);
    }
  }

  /** While probe ids have not wrapped around, a positive result is the size of a probe sent
      since the last restart that reached the peer. */
  lemma ResultWasProbed(ceil: int, ms: seq<Move>)
    requires Possible(ceil, ms) && Probes(ceil, ms) < ID_SPACE
    ensures After(ceil, ms).prober.discovered > 0 ==> Proven(After(ceil, ms), After(ceil, ms).prober.discovered)
  {
    RunBacks(ceil, ms);
  }
}

/** The prober as the program keeps it: fields updated in place. */
module Pmtud {
  import opened Common
  import S = ProberSpec

  class Prober {
    const ceil: int
    var phase: S.Phase
    var wait: int
    var inflight: bool
    var id: nat
    var size: int
    var timeout: int
    var attempt: int
    var lo: int
    var hi: int
    var discovered: int

    ghost function Model(): S.Prober
      reads this
    {
      S.Prober(ceil, phase, wait, inflight, id, size, timeout, attempt, lo, hi, discovered)
    }

    ghost predicate Valid()
      reads this
    {
      S.Inv(Model())
    }

    constructor (c: int)
      ensures Valid() && Model() == S.New(c)
    {
      ceil := if c < S.FLOOR then S.FLOOR else c;
      phase, wait := S.Idle, S.INITIAL_DELAY_TICKS;
      inflight, id, size, timeout, attempt, lo, hi, discovered := false, 0, 0, 0, 0, 0, 0, 0;
    }

    method Tick() returns (probe: Option<S.Probe>)
      requires Valid()
      modifies this
      ensures Valid()
      ensures (Model(), probe) == S.Tick(old(Model()))
    {
      hide S.Inv, S.Fail, S.Launch;
      S.StepKeeps(Model(), S.Ticked);
      if inflight {
        timeout := timeout - 1;
        if timeout > 0 {
          return None;
        }
        attempt := attempt + 1;
        if attempt < S.MAX_ATTEMPTS {
          id := S.NextId(id);
          timeout := S.ACK_TIMEOUT_TICKS;
          return Some(S.Probe(id, size));
        }
        inflight := false;
        Fail();
      }
      probe := Launch();
    }

    method Launch() returns (probe: Option<S.Probe>)
      modifies this
      ensures (Model(), probe) == S.Launch(old(Model()))
    {
      hide S.NextSize;
      if wait > 0 {
        wait := wait - 1;
        return None;
      }
      var next := NextSize();
      if next.None? {
        return None;
      }
      inflight, size, attempt, timeout := true, next.value, 0, S.ACK_TIMEOUT_TICKS;
      id := S.NextId(id);
      return Some(S.Probe(id, size));
    }

    method NextSize() returns (next: Option<int>)
      modifies this
      ensures (Model(), next) == S.NextSize(old(Model()))
    {
      match phase {
        case Idle | Done | Dead =>
          phase := S.AtCeil;
          next := Some(ceil);
        case AtCeil => next := Some(ceil);
        case AtBase => next := Some(S.BASE);
        case AtFloor => next := Some(S.FLOOR);
        case Search =>
          if hi - lo <= S.GRANULARITY {
            Finish(lo);
            next := None;
          } else {
            next := Some((lo + hi) / 2);
          }
      }
    }

    method OnAck(ackId: nat)
      requires Valid()
      modifies this
      ensures Valid()
      ensures Model() == S.OnAck(old(Model()), ackId)
    {
      S.StepKeeps(Model(), S.Acked(ackId));
      if !inflight || ackId != id {
        return;
      }
      inflight := false;
      match phase {
        case AtCeil => Finish(ceil);
        case AtBase =>
          lo, hi, phase := S.BASE, ceil, S.Search;
          Converge();
        case AtFloor =>
          lo, hi, phase := S.FLOOR, S.BASE, S.Search;
          Converge();
        case Search =>
          lo := size;
          Converge();
        case _ =>
      }
    }

    method OnSendError(probeId: nat)
      requires Valid()
      modifies this
      ensures Valid()
      ensures Model() == S.OnSendError(old(Model()), probeId)
    {
      S.StepKeeps(Model(), S.SendFailed(probeId));
      if inflight && probeId == id {
        inflight := false;
        Fail();
      }
    }

    method Restart()
      requires Valid()
      modifies this
      ensures Valid()
      ensures Model() == S.Restart(old(Model()))
    {
      phase, wait, inflight, discovered := S.Idle, S.INITIAL_DELAY_TICKS, false, 0;
    }

    method Fail()
      modifies this
      ensures Model() == S.Fail(old(Model()))
    {
      match phase {
        case AtCeil => phase := if ceil <= S.BASE then S.AtFloor else S.AtBase;
        case AtBase => phase := S.AtFloor;
        case AtFloor => discovered, phase, wait := -1, S.Dead, S.REVALIDATE_TICKS;
        case Search =>
          hi := size;
          Converge();
        case _ =>
      }
    }

    method Converge()
      modifies this
      ensures Model() == S.Converge(old(Model()))
    {
      if phase == S.Search && hi - lo <= S.GRANULARITY {
        Finish(lo);
      }
    }

    method Finish(mtu: int)
      modifies this
      ensures Model() == S.Finish(old(Model()), mtu)
    {
      discovered, phase, wait := mtu, S.Done, S.REVALIDATE_TICKS;
    }
  }
}
