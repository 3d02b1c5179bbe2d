/** What stride scheduling means in plain weights: how much a degraded or a capped path carries, and
    which paths end up capped. */
module SchedShares {
  import opened Common
  import opened SchedSpec
  import opened SchedRuns

  lemma Multiplied(a: real, b: real, w: real)
    requires a <= b && w > 0.0
    ensures a * w <= b * w
  {
    Product(b - a, w);
  }

  lemma PricePaid(len: int, w: real)
    requires w >= 1.0
    ensures Price(len, w) * w == len as real
  {
  }

  /** Bytes of two paths from level passes, by the weights they are scheduled by. */
  lemma ByWeights(cfg: Config, t: Table, lens: seq<nat>, lmax: nat, i: nat, j: nat, f: real)
    requires LevelStart(t, lens, lmax) && i < |t| && j < |t| && Usable(t[i]) && Usable(t[j]) && f > 0.0
    requires EffectiveWeight(cfg, t[i]) == f * EffectiveWeight(cfg, t[j])
    ensures BytesCarried(cfg, t, lens, i) as real <= f * (BytesCarried(cfg, t, lens, j) as real) + lmax as real
  {
    hide EffectiveWeight, BytesCarried, Price, Served, LevelStart;
    ServiceIsBalanced(cfg, t, lens, lmax);
    LevelMeans(t, lens, lmax, i, j);
    var wi, wj := EffectiveWeight(cfg, t[i]), EffectiveWeight(cfg, t[j]);
    var bi, bj := BytesCarried(cfg, t, lens, i), BytesCarried(cfg, t, lens, j);
    var u := Served(cfg, t, lens);
    assert u[i].pass - u[j].pass <= Price(lmax, wi);
    assert Price(bi, wi) <= Price(bj, wj) + Price(lmax, wi);
    Scaling(bi, bj, lmax, wi, wj, f);
  }

  lemma LevelMeans(t: Table, lens: seq<nat>, lmax: nat, i: nat, j: nat)
    requires LevelStart(t, lens, lmax) && i < |t| && j < |t| && Usable(t[i]) && Usable(t[j])
    ensures t[i].pass == t[j].pass
  {
  }

  lemma Scaling(bi: nat, bj: nat, lmax: nat, wi: real, wj: real, f: real)
    requires wi >= 1.0 && wj >= 1.0 && wi == f * wj
    requires Price(bi, wi) <= Price(bj, wj) + Price(lmax, wi)
    ensures bi as real <= f * (bj as real) + lmax as real
  {
    hide Price;
    PricePaid(bi, wi);
    PricePaid(bj, wj);
    PricePaid(lmax, wi);
    var x, y := Price(bj, wj), Price(lmax, wi);
    Multiplied(Price(bi, wi), x + y, wi);
    assert (x + y) * wi == x * wi + y * wi;
    assert x * wi == f * (x * wj);
  }

  /** A degraded path carries its fraction of what an active one of the same weight carries, give or
      take one packet. */
  lemma DegradedShare(cfg: Config, t: Table, lens: seq<nat>, lmax: nat, i: nat, j: nat)
    requires cfg.Valid() && LevelStart(t, lens, lmax) && i < |t| && j < |t| && t[i].present && t[j].present
    requires t[i].state == Degraded && t[j].state == Active
    requires t[i].weight == t[j].weight && t[i].capped == t[j].capped
    requires t[j].weight * cfg.spreadCap * cfg.degradedFraction >= 1.0
    ensures var degraded, active := BytesCarried(cfg, t, lens, i) as real, BytesCarried(cfg, t, lens, j) as real;
            && degraded <= cfg.degradedFraction * active + lmax as real
            && cfg.degradedFraction * active <= degraded + cfg.degradedFraction * (lmax as real)
  {
    hide EffectiveWeight, BytesCarried, LevelStart;
    DegradedWeight(cfg, t[i], t[j]);
    Apart(cfg, t, lens, lmax, i, j, cfg.degradedFraction);
  }

  lemma DegradedWeight(cfg: Config, p: Path, q: Path)
    requires cfg.Valid() && p.state == Degraded && q.state == Active && p.weight == q.weight && p.capped == q.capped
    requires q.weight * cfg.spreadCap * cfg.degradedFraction >= 1.0
    ensures EffectiveWeight(cfg, p) == EffectiveWeight(cfg, q) * cfg.degradedFraction
  {
    var w, c, f := q.weight, cfg.spreadCap, cfg.degradedFraction;
    var x := w * c;
    Shrinks(x, f, x * f);
    Shrinks(w, c, x);
    var v := if q.capped then x else w;
    Multiplied(x, v, f);
    Shrinks(v, f, v * f);
  }

  /** A number shrinks under a fraction, if the outcome is positive. */
  lemma Shrinks(w: real, f: real, x: real)
    requires 0.0 < f <= 1.0 && x == w * f && x > 0.0
    ensures x <= w
  {
    if w <= 0.0 {
      Product(-w, f);
    }
    Product(w, 1.0 - f);
  }

  lemma Apart(cfg: Config, t: Table, lens: seq<nat>, lmax: nat, i: nat, j: nat, f: real)
    requires LevelStart(t, lens, lmax) && i < |t| && j < |t| && Usable(t[i]) && Usable(t[j]) && f > 0.0
    requires EffectiveWeight(cfg, t[i]) == EffectiveWeight(cfg, t[j]) * f
    ensures var bi, bj := BytesCarried(cfg, t, lens, i) as real, BytesCarried(cfg, t, lens, j) as real;
            bi <= f * bj + lmax as real && f * bj <= bi + f * (lmax as real)
  {
    hide EffectiveWeight, BytesCarried, LevelStart;
    var wi, wj := EffectiveWeight(cfg, t[i]), EffectiveWeight(cfg, t[j]);
    var bi, bj := BytesCarried(cfg, t, lens, i) as real, BytesCarried(cfg, t, lens, j) as real;
    ByWeights(cfg, t, lens, lmax, i, j, f);
    var g := 1.0 / f;
    assert wj == g * wi;
    ByWeights(cfg, t, lens, lmax, j, i, g);
    Multiplied(bj, g * bi + lmax as real, f);
    Distributes(g, f, bi, lmax as real);
  }

  lemma Distributes(g: real, f: real, x: real, y: real)
    requires g * f == 1.0
    ensures (g * x + y) * f == x + f * y
  {
    assert (g * x + y) * f == (g * x) * f + y * f;
    assert (g * x) * f == (g * f) * x;
  }

  /** Likewise a path capped for its round trip against one that is not. */
  lemma CappedShare(cfg: Config, t: Table, lens: seq<nat>, lmax: nat, i: nat, j: nat)
    requires cfg.Valid() && LevelStart(t, lens, lmax) && i < |t| && j < |t| && t[i].present && t[j].present
    requires t[i].state == Active && t[j].state == Active
    requires t[i].weight == t[j].weight && t[i].capped && !t[j].capped
    requires t[j].weight * cfg.spreadCap >= 1.0
    ensures var capped, free := BytesCarried(cfg, t, lens, i) as real, BytesCarried(cfg, t, lens, j) as real;
            && capped <= cfg.spreadCap * free + lmax as real
            && cfg.spreadCap * free <= capped + cfg.spreadCap * (lmax as real)
  {
    hide EffectiveWeight, BytesCarried, LevelStart;
    CappedWeight(cfg, t[i], t[j]);
    Apart(cfg, t, lens, lmax, i, j, cfg.spreadCap);
  }

  lemma CappedWeight(cfg: Config, p: Path, q: Path)
    requires cfg.Valid() && p.state == Active && q.state == Active && p.weight == q.weight && p.capped && !q.capped
    requires q.weight * cfg.spreadCap >= 1.0
    ensures EffectiveWeight(cfg, p) == EffectiveWeight(cfg, q) * cfg.spreadCap
  {
    Shrinks(q.weight, cfg.spreadCap, q.weight * cfg.spreadCap);
  }

  /** Active paths that are not capped share in proportion to their weights. */
  lemma ActiveShare(cfg: Config, t: Table, lens: seq<nat>, lmax: nat, i: nat, j: nat)
    requires LevelStart(t, lens, lmax) && i < |t| && j < |t| && t[i].present && t[j].present
    requires t[i].state == Active && t[j].state == Active && !t[i].capped && !t[j].capped
    requires t[i].weight >= 1.0 && t[j].weight >= 1.0
    ensures var bi, bj := BytesCarried(cfg, t, lens, i) as real, BytesCarried(cfg, t, lens, j) as real;
            bi * t[j].weight <= bj * t[i].weight + (lmax as real) * t[j].weight
  {
    hide EffectiveWeight, BytesCarried, LevelStart;
    var wi, wj := t[i].weight, t[j].weight;
    PlainWeight(cfg, t[i]);
    PlainWeight(cfg, t[j]);
    var f := wi / wj;
    PositiveRatio(wi, wj);
    ByWeights(cfg, t, lens, lmax, i, j, f);
    var bi, bj := BytesCarried(cfg, t, lens, i) as real, BytesCarried(cfg, t, lens, j) as real;
    Multiplied(bi, f * bj + lmax as real, wj);
    Regroups(f, bj, lmax as real, wi, wj);
  }

  lemma PlainWeight(cfg: Config, p: Path)
    requires p.weight >= 1.0 && !p.capped && p.state == Active
    ensures EffectiveWeight(cfg, p) == p.weight
  {
  }

  lemma PositiveRatio(a: real, b: real)
    requires a >= 1.0 && b >= 1.0
    ensures a / b > 0.0 && a == a / b * b
  {
  }

  lemma Regroups(f: real, x: real, y: real, a: real, b: real)
    requires a == f * b
    ensures (f * x + y) * b == x * a + y * b
  {
    assert (f * x + y) * b == (f * x) * b + y * b;
    assert (f * x) * b == x * (f * b);
  }

  /** No path is scheduled by less than one byte per second. */
  lemma AtLeastOne(cfg: Config, p: Path)
    requires p.weight < 1.0 && !p.capped && p.state == Active
    ensures EffectiveWeight(cfg, p) == 1.0
  {
  }

  // ----- Which paths are capped -----

  /** `Fastest` is the least positive round trip of a present active path, and 0 without one. */
  lemma {:induction false} FastestIsLeast(t: Table, k: nat)
    requires k <= |t|
    ensures Fastest(t, k) >= 0
    ensures forall i | 0 <= i < k && t[i].present && t[i].state == Active && t[i].srtt > 0 ::
              0 < Fastest(t, k) <= t[i].srtt
    ensures Fastest(t, k) > 0 ==>
              exists i | 0 <= i < k :: t[i].present && t[i].state == Active && t[i].srtt == Fastest(t, k)
  {
    if k > 0 {
      FastestIsLeast(t, k - 1);
    }
  }

  /** After a metrics report a present path is capped exactly if some active path has a measured round
      trip that is shorter by more than the allowed spread. */
  lemma CappedIff(cfg: Config, t: Table, id: nat, m: Metrics, i: nat)
    requires id < |t| && i < |t| && t[id].present && t[i].present && cfg.maxRTTSpread >= 0
    ensures var u := OnMetrics(cfg, t, id, m);
            && |u| == |t| && u[i].present && u[id].srtt == m.srtt
            && (u[i].capped <==>
                  exists j | 0 <= j < |u| :: && u[j].present && u[j].state == Active && u[j].srtt > 0
                                             && u[i].srtt > u[j].srtt + cfg.maxRTTSpread)
  {
    hide NextWeight, Fastest;
    var t1 := t[id := t[id].(weight := NextWeight(cfg, t[id].weight, m), srtt := m.srtt)];
    FastestIsLeast(t1, |t1|);
    var u := OnMetrics(cfg, t, id, m);
    var f := Fastest(t1, |t1|);
    assert forall j | 0 <= j < |u| ::
        u[j].present == t1[j].present && u[j].state == t1[j].state && u[j].srtt == t1[j].srtt;
    if u[i].capped {
      var j :| 0 <= j < |t1| && t1[j].present && t1[j].state == Active && t1[j].srtt == f;
      assert u[j].srtt == f;
    }
  }

  // ----- How a weight moves -----

  /** Loss on a path that delivers at least half its weight sets the weight just under the delivery
      rate; on one that delivers less it shrinks by the decrease factor.  Without loss, a delivery
      rate above the weight becomes the weight, and a path used to nine tenths grows by the
      increase factor; otherwise nothing moves.  All within the configured bounds. */
  lemma WeightMoves(cfg: Config, w: real, m: Metrics)
    requires cfg.Valid() && cfg.minBps <= w <= cfg.maxBps && !Bloated(cfg, m) && cfg.lossFloor <= cfg.lossDecrease
    ensures var v := NextWeight(cfg, w, m);
            && (m.loss > cfg.lossDecrease && m.deliveryBps >= w / 2.0 ==>
                  v == Clamp(0.95 * m.deliveryBps, cfg.minBps, cfg.maxBps))
            && (m.loss > cfg.lossDecrease && m.deliveryBps < w / 2.0 ==>
                  v == Clamp(Scaled(w, cfg.decreaseFactor), cfg.minBps, cfg.maxBps))
            && (m.loss < cfg.lossFloor && m.deliveryBps >= 0.9 * w ==>
                  v == Clamp(MaxReal(Scaled(w, cfg.increaseFactor), m.deliveryBps), cfg.minBps, cfg.maxBps))
            && (m.loss < cfg.lossFloor && m.deliveryBps < 0.9 * w ==> v == w)
            && (cfg.lossFloor <= m.loss <= cfg.lossDecrease ==> v == w)
  {
    hide Scaled, Bloated;
  }

  /** Round trips of more than the given multiple of the lowest one take a path's weight down by the
      bloat factor where the bounds allow. */
  lemma BloatShrinks(cfg: Config, w: real, m: Metrics)
    requires cfg.Valid() && cfg.minBps <= w <= cfg.maxBps && cfg.lossFloor <= m.loss <= cfg.lossDecrease
    requires m.minRTT > 0 && m.srtt as real > cfg.bloatRTTMult * (m.minRTT as real)
    ensures NextWeight(cfg, w, m) == Clamp(w * cfg.bloatFactor, cfg.minBps, cfg.maxBps)
  {
    var limit := cfg.bloatRTTMult * (m.minRTT as real);
    assert Scaled(m.minRTT as real, cfg.bloatRTTMult) == limit;
    assert limit.Floor as real <= limit;
    assert Bloated(cfg, m);
    hide Bloated;
    assert Scaled(w, cfg.bloatFactor) == w * cfg.bloatFactor;
    hide Scaled;
  }

  function MaxReal(a: real, b: real): real { if a < b then b else a }

  lemma ClampMeans(v: real, lo: real, hi: real)
    requires lo <= hi
    ensures lo <= Clamp(v, lo, hi) <= hi && (lo <= v <= hi ==> Clamp(v, lo, hi) == v)
    ensures v < lo ==> Clamp(v, lo, hi) == lo
    ensures v > hi ==> Clamp(v, lo, hi) == hi
  {
  }

  /** A path that joins: active, not capped, level with the highest pass, its limit kept; its weight
      is the slow-start one if it rejoins, else the hint if there is one, else the initial one. */
  lemma NewcomerIs(cfg: Config, t: Table, id: nat, hint: real, rejoin: bool)
    requires cfg.Valid() && id < |t|
    ensures var u := AddPath(cfg, t, id, hint, rejoin); var p := u[id];
            && |u| == |t| && (forall j | 0 <= j < |t| && j != id :: u[j] == t[j])
            && p.present && p.state == Active && !p.capped && p.id == id && p.srtt == 0 && p.maxInner == t[id].maxInner
            && (forall j | 0 <= j < |t| && t[j].present :: t[j].pass <= p.pass)
            && (p.pass == 0.0 || exists j | 0 <= j < |t| :: t[j].present && t[j].pass == p.pass)
            && (rejoin ==> p.weight == Clamp(cfg.slowStartBps, cfg.minBps, cfg.maxBps))
            && (!rejoin && hint > 0.0 ==> p.weight == Clamp(hint, cfg.minBps, cfg.maxBps))
            && (!rejoin && hint <= 0.0 ==> p.weight == Clamp(cfg.initialBps, cfg.minBps, cfg.maxBps))
  {
    MaxPassIsHighest(t, |t|);
  }

  /** The smaller updates: a removed path leaves nothing behind, not even its limit; a limit is
      recorded for an absent path too and kept when it joins; the state of an absent path and
      metrics about one change nothing; and no update touches another path's entry. */
  lemma UpdatesAre(cfg: Config, t: Table, id: nat, limit: int, st: Health, m: Metrics)
    requires id < |t|
    ensures var u := RemovePath(t, id);
            |u| == |t| && !u[id].present && u[id].maxInner == 0 && forall j | 0 <= j < |t| && j != id :: u[j] == t[j]
    ensures var u := SetPathMTU(t, id, limit);
            && |u| == |t| && u[id] == t[id].(maxInner := limit) && (forall j | 0 <= j < |t| && j != id :: u[j] == t[j])
            && forall hint, rejoin :: AddPath(cfg, u, id, hint, rejoin)[id].maxInner == limit
    ensures var u := SetState(t, id, st);
            && |u| == |t| && (forall j | 0 <= j < |t| && j != id :: u[j] == t[j])
            && u[id] == if t[id].present then t[id].(state := st) else t[id]
    ensures !t[id].present ==> OnMetrics(cfg, t, id, m) == t
  {
    hide NextWeight, Fastest;
  }
}
