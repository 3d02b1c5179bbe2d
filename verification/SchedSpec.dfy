/** Stride scheduling: the path table and what each call of `sched.Scheduler` does to it.
    Floating point is modelled by the reals. */
module SchedSpec {
  import opened Common

  datatype Mode = Bonding | Redundant | Fec

  datatype Health = Active | Degraded | Down

  datatype Metrics = Metrics(srtt: int, minRTT: int, loss: real, deliveryBps: real)

  datatype Config = Config(lossDecrease: real, lossFloor: real, increaseFactor: real, decreaseFactor: real,
                           bloatFactor: real, bloatRTTMult: real, maxRTTSpread: int, spreadCap: real,
                           degradedFraction: real, initialBps: real, slowStartBps: real,
                           minBps: real, maxBps: real)
  {
    predicate Valid() {
      && 0.0 < minBps <= maxBps
      && 0.0 < spreadCap <= 1.0
      && 0.0 < degradedFraction <= 1.0
    }
  }

  function DefaultConfig(): Config {
    Config(0.02, 0.02, 1.05, 0.7, 0.85, 3.0, 150_000_000, 0.5, 0.01,
           1_250_000.0, 125_000.0, 12_500.0, 1_250_000_000.0)
  }

  /** The program's own configuration meets every demand made on one below. */
  lemma DefaultIsValid()
    ensures DefaultConfig().Valid()
  {
  }

  datatype Path = Path(id: nat, present: bool, state: Health, weight: real, pass: real, srtt: int,
                       capped: bool, initHint: real, maxInner: int)

  function Absent(): Path { Path(0, false, Active, 0.0, 0.0, 0, false, 0.0, 0) }

  type Table = seq<Path>

  function EmptyTable(): Table { seq(MAX_PATHS, _ => Absent()) }

  predicate Usable(p: Path) { p.present && p.state != Down }

  /** PMTUD: the packet fits through the path. */
  predicate Fits(p: Path, len: int) { p.maxInner == 0 || len <= p.maxInner }

  predicate Eligible(p: Path, len: int) { Usable(p) && Fits(p, len) }

  function Clamp(v: real, lo: real, hi: real): real {
    if v < lo then lo else if v > hi then hi else v
  }

  function Scaled(w: real, f: real): real { w * f }

  /** The weight a path is scheduled by; never below one byte per second. */
  function EffectiveWeight(cfg: Config, p: Path): (w: real)
    ensures w >= 1.0
  {
    var w := if p.capped then Scaled(p.weight, cfg.spreadCap) else p.weight;
    var v := if p.state == Degraded then Scaled(w, cfg.degradedFraction) else w;
    if v < 1.0 then 1.0 else v
  }

  /** What a packet of `len` bytes costs on a path of weight `w`. */
  function Price(len: int, w: real): real
    requires w >= 1.0
  {
    (len as real) / w
  }

  // ----- The calls -----

  /** The eligible path with the lowest pass among the first `k`, the lowest index on a tie. */
  function PickAmong(t: Table, len: int, k: nat): Option<nat>
    requires k <= |t|
  {
    if k == 0 then None
    else
      var best := PickAmong(t, len, k - 1);
      if !Eligible(t[k - 1], len) then best
      else if best.None? || (best.value < |t| && t[k - 1].pass < t[best.value].pass) then Some(k - 1)
      else best
  }

  function Pick(t: Table, len: int): Option<nat> { PickAmong(t, len, |t|) }

  function Charge(cfg: Config, t: Table, i: nat, len: int): Table
    requires i < |t|
  {
    t[i := t[i].(pass := t[i].pass + Price(len, EffectiveWeight(cfg, t[i])))]
  }

  /** The table after a packet was assigned outside redundant mode. */
  function Assign(cfg: Config, t: Table, len: int): Table {
    var best := Pick(t, len);
    if best.Some? && best.value < |t| then Charge(cfg, t, best.value, len) else t
  }

  function MaxPass(t: Table, k: nat): real
    requires k <= |t|
  {
    if k == 0 then 0.0
    else
      var m := MaxPass(t, k - 1);
      if t[k - 1].present && t[k - 1].pass > m then t[k - 1].pass else m
  }

  function AddPath(cfg: Config, t: Table, id: nat, initialBps: real, rejoin: bool): Table
    requires id < |t|
  {
    var w := if rejoin then cfg.slowStartBps else if initialBps > 0.0 then initialBps else cfg.initialBps;
    t[id := Path(id, true, Active, Clamp(w, cfg.minBps, cfg.maxBps), MaxPass(t, |t|), 0, false,
                 initialBps, t[id].maxInner)]
  }

  function RemovePath(t: Table, id: nat): Table
    requires id < |t|
  {
    t[id := Absent()]
  }

  function SetState(t: Table, id: nat, st: Health): Table
    requires id < |t|
  {
    if t[id].present then t[id := t[id].(state := st)] else t
  }

  function SetPathMTU(t: Table, id: nat, maxInner: int): Table
    requires id < |t|
  {
    t[id := t[id].(maxInner := maxInner)]
  }

  /** The round trip is well above the lowest one seen: the path queues. */
  predicate Bloated(cfg: Config, m: Metrics) {
    m.minRTT > 0 && m.srtt > Scaled(m.minRTT as real, cfg.bloatRTTMult).Floor
  }

  /** AIMD: the capacity estimate after one metrics interval. */
  function NextWeight(cfg: Config, w: real, m: Metrics): real {
    var w1 := if m.loss > cfg.lossDecrease then
                if m.deliveryBps >= 0.5 * w then 0.95 * m.deliveryBps else Scaled(w, cfg.decreaseFactor)
              else if m.loss < cfg.lossFloor && m.deliveryBps >= 0.9 * w then Scaled(w, cfg.increaseFactor)
              else w;
    var w2 := if m.loss < cfg.lossFloor && m.deliveryBps > w1 then m.deliveryBps else w1;
    var w3 := if Bloated(cfg, m) then Scaled(w2, cfg.bloatFactor) else w2;
    Clamp(w3, cfg.minBps, cfg.maxBps)
  }

  /** The lowest measured round trip among active paths; 0 when there is none. */
  function Fastest(t: Table, k: nat): int
    requires k <= |t|
  {
    if k == 0 then 0
    else
      var f := Fastest(t, k - 1);
      var q := t[k - 1];
      if q.present && q.state == Active && q.srtt > 0 && (f == 0 || q.srtt < f) then q.srtt else f
  }

  function Recap(cfg: Config, t: Table, fastest: int): Table {
    seq(|t|, i requires 0 <= i < |t| =>
          if t[i].present then t[i].(capped := fastest > 0 && t[i].srtt > fastest + cfg.maxRTTSpread) else t[i])
  }

  function OnMetrics(cfg: Config, t: Table, id: nat, m: Metrics): Table
    requires id < |t|
  {
    if !t[id].present then t
    else
      var t1 := t[id := t[id].(weight := NextWeight(cfg, t[id].weight, m), srtt := m.srtt)];
      Recap(cfg, t1, Fastest(t1, |t1|))
  }

  // ----- What every call keeps -----

  predicate PathOk(cfg: Config, p: Path) {
    p.present ==> cfg.minBps <= p.weight <= cfg.maxBps && p.pass >= 0.0
  }

  ghost predicate Inv(cfg: Config, t: Table) {
    && |t| == MAX_PATHS
    && (forall i | 0 <= i < |t| :: PathOk(cfg, t[i]) && (t[i].present ==> t[i].id == i))
  }

  /** The pick is the eligible path with the lowest pass, the first of them on a tie. */
  lemma {:induction false} PickAmongIsLowest(t: Table, len: int, k: nat)
    requires k <= |t|
    ensures var best := PickAmong(t, len, k);
            if best.None? then forall j | 0 <= j < k :: !Eligible(t[j], len)
            else
              && best.value < k && Eligible(t[best.value], len)
              && (forall j | 0 <= j < k && Eligible(t[j], len) ::
                    t[best.value].pass <= t[j].pass && (j < best.value ==> t[best.value].pass < t[j].pass))
  {
    if k > 0 {
      PickAmongIsLowest(t, len, k - 1);
    }
  }

  lemma PickIsLowest(t: Table, len: int)
    ensures var best := Pick(t, len);
            if best.None? then forall j | 0 <= j < |t| :: !Eligible(t[j], len)
            else
              && best.value < |t| && Eligible(t[best.value], len)
              && (forall j | 0 <= j < |t| && Eligible(t[j], len) ::
                    t[best.value].pass <= t[j].pass && (j < best.value ==> t[best.value].pass < t[j].pass))
  {
    PickAmongIsLowest(t, len, |t|);
  }

  /** A newcomer starts at the highest pass in the table. */
  lemma {:induction false} MaxPassIsHighest(t: Table, k: nat)
    requires k <= |t|
    ensures MaxPass(t, k) >= 0.0
    ensures forall j | 0 <= j < k && t[j].present :: t[j].pass <= MaxPass(t, k)
    ensures MaxPass(t, k) == 0.0 || exists j | 0 <= j < k :: t[j].present && t[j].pass == MaxPass(t, k)
  {
    if k > 0 {
      MaxPassIsHighest(t, k - 1);
      if !(t[k - 1].present && t[k - 1].pass > MaxPass(t, k - 1)) && MaxPass(t, k - 1) != 0.0 {
        var j :| 0 <= j < k - 1 && t[j].present && t[j].pass == MaxPass(t, k - 1);
        assert 0 <= j < k;
      }
    }
  }

  lemma WeightInRange(cfg: Config, w: real, m: Metrics)
    requires cfg.Valid()
    ensures cfg.minBps <= NextWeight(cfg, w, m) <= cfg.maxBps
  {
  }

  /** The least and greatest effective weight of a path whose weight is within its clamp. */
  function MinEffective(cfg: Config): (w: real)
    ensures w >= 1.0
  {
    var w := Scaled(Scaled(cfg.minBps, cfg.spreadCap), cfg.degradedFraction);
    if w < 1.0 then 1.0 else w
  }

  function MaxEffective(cfg: Config): (w: real)
    ensures w >= 1.0
  {
    if cfg.maxBps < 1.0 then 1.0 else cfg.maxBps
  }

  lemma Product(x: real, y: real)
    requires x >= 0.0 && y >= 0.0
    ensures x * y >= 0.0
  {
  }

  /** A fraction of a larger positive weight is larger, and no larger than the weight. */
  lemma Fraction(a: real, b: real, f: real)
    requires 0.0 < a <= b && 0.0 < f <= 1.0
    ensures 0.0 < Scaled(a, f) <= Scaled(b, f) <= b
    ensures Scaled(a, f) <= a
  {
    Product(b - a, f);
    Product(b, 1.0 - f);
    Product(a, 1.0 - f);
  }

  lemma EffectiveInRange(cfg: Config, p: Path)
    requires cfg.Valid() && p.present && PathOk(cfg, p)
    ensures 1.0 <= MinEffective(cfg) <= EffectiveWeight(cfg, p) <= MaxEffective(cfg)
  {
    hide Scaled;
    var low, w := Scaled(cfg.minBps, cfg.spreadCap), if p.capped then Scaled(p.weight, cfg.spreadCap) else p.weight;
    Fraction(cfg.minBps, p.weight, cfg.spreadCap);
    Fraction(low, w, cfg.degradedFraction);
  }

  /** The highest price of a packet of at most `lmax` bytes. */
  function MaxStride(cfg: Config, lmax: nat): real { Price(lmax, MinEffective(cfg)) }

  /** Shorter packets on heavier paths cost less. */
  lemma PriceMonotone(n: int, l: int, m: real, w: real)
    requires 0 <= n <= l && 1.0 <= m <= w
    ensures 0.0 <= Price(n, w) <= Price(l, m)
  {
    assert Price(n, w) <= Price(l, w);
    assert Price(l, w) <= Price(l, m) by {
      assert Price(l, w) * m <= (l as real);
    }
  }

  lemma PriceAdds(a: int, b: int, w: real)
    requires w >= 1.0
    ensures Price(a + b, w) == Price(a, w) + Price(b, w)
  {
  }
}
