/** What stride scheduling guarantees over every run: weighted fairness, bounded spread, and
    how long an eligible path can be passed over. */
module SchedRuns {
  import opened Common
  import opened SchedSpec

  datatype Op =
    | Assigned(len: nat)
    | Added(id: nat, initialBps: real, rejoin: bool)
    | Removed(id: nat)
    | StateSet(id: nat, st: Health)
    | Measured(id: nat, m: Metrics)
    | MtuSet(id: nat, maxInner: int)

  /** No usable path is closed to packets of this length. */
  ghost predicate Carries(t: Table, len: int) {
    forall i | 0 <= i < |t| && Usable(t[i]) :: Fits(t[i], len)
  }

  /** Packets are at most `lmax` long and excluded from no usable path by their size; a path
      that is down comes back only by being added. */
  ghost predicate Allowed(t: Table, op: Op, lmax: nat) {
    && |t| == MAX_PATHS
    && match op
       case Assigned(len) => len <= lmax && Carries(t, len)
       case StateSet(id, st) => id < MAX_PATHS && (t[id].state == Down ==> st == Down)
       case _ => op.id < MAX_PATHS
  }

  function Next(cfg: Config, t: Table, op: Op): Table
    requires op.Assigned? || op.id < |t|
  {
    match op
    case Assigned(len) => Assign(cfg, t, len)
    case Added(id, bps, rejoin) => AddPath(cfg, t, id, bps, rejoin)
    case Removed(id) => RemovePath(t, id)
    case StateSet(id, st) => SetState(t, id, st)
    case Measured(id, m) => OnMetrics(cfg, t, id, m)
    case MtuSet(id, mi) => SetPathMTU(t, id, mi)
  }

  ghost predicate AllowedRun(cfg: Config, t: Table, ops: seq<Op>, lmax: nat)
    decreases ops
  {
    ops == [] || (Allowed(t, ops[0], lmax) && AllowedRun(cfg, Next(cfg, t, ops[0]), ops[1..], lmax))
  }

  ghost function After(cfg: Config, t: Table, ops: seq<Op>, lmax: nat): Table
    requires AllowedRun(cfg, t, ops, lmax)
    decreases ops
  {
    if ops == [] then t else After(cfg, Next(cfg, t, ops[0]), ops[1..], lmax)
  }

  // ----- Bounded spread -----

  /** Nothing in the table is more than `d` ahead of a usable path. */
  ghost predicate Spread(t: Table, d: real) {
    forall i, j | 0 <= i < |t| && 0 <= j < |t| && Usable(t[i]) && t[j].present :: t[j].pass <= t[i].pass + d
  }

  lemma AssignKeeps(cfg: Config, t: Table, len: nat, lmax: nat)
    requires cfg.Valid() && Inv(cfg, t) && Allowed(t, Assigned(len), lmax)
    ensures Inv(cfg, Assign(cfg, t, len))
    ensures Spread(t, MaxStride(cfg, lmax)) ==> Spread(Assign(cfg, t, len), MaxStride(cfg, lmax))
  {
    hide EffectiveWeight, MaxStride;
    PickIsLowest(t, len);
    var best := Pick(t, len);
    if best.Some? {
      StrideInRange(cfg, t[best.value], len, lmax);
    }
  }

  /** One packet moves a pass by at least `len / MaxEffective` and at most the maximal stride. */
  lemma StrideInRange(cfg: Config, p: Path, len: nat, lmax: nat)
    requires cfg.Valid() && p.present && PathOk(cfg, p) && len <= lmax
    ensures 0.0 <= Price(len, EffectiveWeight(cfg, p)) <= MaxStride(cfg, lmax)
    ensures Price(len, MaxEffective(cfg)) <= Price(len, EffectiveWeight(cfg, p))
  {
    hide EffectiveWeight, MinEffective, MaxEffective;
    EffectiveInRange(cfg, p);
    PriceMonotone(len, lmax, MinEffective(cfg), EffectiveWeight(cfg, p));
    PriceMonotone(len, len, EffectiveWeight(cfg, p), MaxEffective(cfg));
  }

  lemma AddKeeps(cfg: Config, t: Table, id: nat, bps: real, rejoin: bool, d: real)
    requires cfg.Valid() && Inv(cfg, t) && id < MAX_PATHS && d >= 0.0
    ensures var t' := AddPath(cfg, t, id, bps, rejoin);
            && Inv(cfg, t') && (Spread(t, d) ==> Spread(t', d))
            && (forall j | 0 <= j < |t| && t[j].present :: t[j].pass <= t'[id].pass)
  {
    MaxPassIsHighest(t, |t|);
  }

  lemma NextKeeps(cfg: Config, t: Table, op: Op, lmax: nat)
    requires cfg.Valid() && Inv(cfg, t) && Allowed(t, op, lmax)
    ensures Inv(cfg, Next(cfg, t, op))
    ensures Spread(t, MaxStride(cfg, lmax)) ==> Spread(Next(cfg, t, op), MaxStride(cfg, lmax))
  {
    hide MaxStride, NextWeight;
    match op
    case Assigned(len) => AssignKeeps(cfg, t, len, lmax);
    case Added(id, bps, rejoin) =>
      StrideNonnegative(cfg, lmax);
      AddKeeps(cfg, t, id, bps, rejoin, MaxStride(cfg, lmax));
    case Measured(id, m) => WeightInRange(cfg, t[id].weight, m);
    case _ =>
  }

  lemma StrideNonnegative(cfg: Config, lmax: nat)
    requires cfg.Valid()
    ensures MaxStride(cfg, lmax) >= 0.0
  {
    hide MinEffective;
    PriceMonotone(0, lmax, MinEffective(cfg), MinEffective(cfg));
  }

  /** Bounded spread: after any allowed run from an empty scheduler no present path is more
      than one maximal stride ahead of any usable one. */
  lemma SpreadIsBounded(cfg: Config, ops: seq<Op>, lmax: nat)
    requires cfg.Valid() && AllowedRun(cfg, EmptyTable(), ops, lmax)
    ensures Inv(cfg, After(cfg, EmptyTable(), ops, lmax))
    ensures Spread(After(cfg, EmptyTable(), ops, lmax), MaxStride(cfg, lmax))
  {
    SpreadStays(cfg, EmptyTable(), ops, lmax);
  }

  lemma {:induction false} SpreadStays(cfg: Config, t: Table, ops: seq<Op>, lmax: nat)
    requires cfg.Valid() && Inv(cfg, t) && Spread(t, MaxStride(cfg, lmax)) && AllowedRun(cfg, t, ops, lmax)
    ensures Inv(cfg, After(cfg, t, ops, lmax))
    ensures Spread(After(cfg, t, ops, lmax), MaxStride(cfg, lmax))
    decreases ops
  {
    if ops != [] {
      hide Spread, Next, MaxStride, Inv;
      NextKeeps(cfg, t, ops[0], lmax);
      SpreadStays(cfg, Next(cfg, t, ops[0]), ops[1..], lmax);
    }
  }

  // ----- Fairness -----

  /** The table after the packets `lens` were assigned, and the bytes path `i` got of them. */
  function Served(cfg: Config, t: Table, lens: seq<nat>): Table {
    if lens == [] then t else Assign(cfg, Served(cfg, t, lens[..|lens| - 1]), lens[|lens| - 1])
  }

  function BytesCarried(cfg: Config, t: Table, lens: seq<nat>, i: nat): nat {
    if lens == [] then 0
    else
      var prev, len := lens[..|lens| - 1], lens[|lens| - 1];
      BytesCarried(cfg, t, prev, i) + if Pick(Served(cfg, t, prev), len) == Some(i) then len else 0
  }

  ghost predicate Level(t: Table) {
    forall i, j | 0 <= i < |t| && 0 <= j < |t| && Usable(t[i]) && Usable(t[j]) :: t[i].pass == t[j].pass
  }

  /** Usable paths carry every packet, start level, and no packet exceeds `lmax`. */
  ghost predicate LevelStart(t: Table, lens: seq<nat>, lmax: nat) {
    Level(t) && forall n <- lens :: n <= lmax && Carries(t, n)
  }

  /** Two tables that differ in passes only. */
  ghost predicate SameButPass(t: Table, u: Table) {
    |t| == |u| && forall i | 0 <= i < |t| :: u[i] == t[i].(pass := u[i].pass)
  }

  /** Every pass is the starting one plus the bytes carried over the weight, and is ahead of
      no usable path by more than its own price of a maximal packet. */
  ghost predicate Balanced(cfg: Config, t: Table, lens: seq<nat>, lmax: nat) {
    var u := Served(cfg, t, lens);
    && SameButPass(t, u)
    && (forall i | 0 <= i < |t| ::
          u[i].pass == t[i].pass + Price(BytesCarried(cfg, t, lens, i), EffectiveWeight(cfg, t[i])))
    && (forall i, j | 0 <= i < |t| && 0 <= j < |t| && Usable(t[i]) && Usable(t[j]) ::
          u[i].pass - u[j].pass <= Price(lmax, EffectiveWeight(cfg, t[i])))
  }

  lemma AssignBalances(cfg: Config, t: Table, lens: seq<nat>, lmax: nat)
    requires lens != [] && LevelStart(t, lens, lmax) && Balanced(cfg, t, lens[..|lens| - 1], lmax)
    ensures Balanced(cfg, t, lens, lmax)
  {
    hide EffectiveWeight;
    var prev, len := lens[..|lens| - 1], lens[|lens| - 1];
    var u, v := Served(cfg, t, prev), Served(cfg, t, lens);
    PickIsLowest(u, len);
    var best := Pick(u, len);
    if best.Some? {
      var b := best.value;
      var w := EffectiveWeight(cfg, t[b]);
      SameWeight(cfg, u[b], t[b]);
      PriceAdds(BytesCarried(cfg, t, prev, b), len, w);
      assert v == u[b := u[b].(pass := u[b].pass + Price(len, w))];
      assert len in lens;
      PriceMonotone(len, lmax, w, w);
      forall i, j | 0 <= i < |t| && 0 <= j < |t| && Usable(t[i]) && Usable(t[j])
        ensures v[i].pass - v[j].pass <= Price(lmax, EffectiveWeight(cfg, t[i]))
      {
        assert u[i].pass - u[j].pass <= Price(lmax, EffectiveWeight(cfg, t[i]));
        assert Eligible(u[j], len);
        if i == b && j == b {
        } else if i == b {
          assert u[b].pass <= u[j].pass && v[j] == u[j];
        }
      }
    }
  }

  lemma SameWeight(cfg: Config, p: Path, q: Path)
    requires p == q.(pass := p.pass)
    ensures EffectiveWeight(cfg, p) == EffectiveWeight(cfg, q)
  {
  }

  lemma {:induction false} ServiceIsBalanced(cfg: Config, t: Table, lens: seq<nat>, lmax: nat)
    requires LevelStart(t, lens, lmax)
    ensures Balanced(cfg, t, lens, lmax)
  {
    if lens == [] {
      forall i | 0 <= i < |t| ensures 0.0 <= Price(lmax, EffectiveWeight(cfg, t[i])) {
        PriceMonotone(0, lmax, EffectiveWeight(cfg, t[i]), EffectiveWeight(cfg, t[i]));
      }
    } else {
      hide Balanced;
      LevelPrefix(t, lens, lmax);
      ServiceIsBalanced(cfg, t, lens[..|lens| - 1], lmax);
      AssignBalances(cfg, t, lens, lmax);
    }
  }

  lemma LevelPrefix(t: Table, lens: seq<nat>, lmax: nat)
    requires lens != [] && LevelStart(t, lens, lmax)
    ensures LevelStart(t, lens[..|lens| - 1], lmax)
  {
    hide Carries, Level;
    forall n <- lens[..|lens| - 1] ensures n <= lmax && Carries(t, n) {
      assert n in lens;
    }
  }

  /** Weighted fairness at every point of every run: the bytes of two usable paths, each over
      its weight, differ by at most the price of one maximal packet on the lighter one. */
  lemma StrideIsFair(cfg: Config, t: Table, lens: seq<nat>, lmax: nat, i: nat, j: nat)
    requires LevelStart(t, lens, lmax)
    requires i < |t| && j < |t| && Usable(t[i]) && Usable(t[j])
    ensures var wi, wj := EffectiveWeight(cfg, t[i]), EffectiveWeight(cfg, t[j]);
            var gap := Price(BytesCarried(cfg, t, lens, i), wi) - Price(BytesCarried(cfg, t, lens, j), wj);
            var bound := Price(lmax, if wi < wj then wi else wj);
            -bound <= gap <= bound
  {
    hide EffectiveWeight, BytesCarried;
    ServiceIsBalanced(cfg, t, lens, lmax);
    var wi, wj := EffectiveWeight(cfg, t[i]), EffectiveWeight(cfg, t[j]);
    var w := if wi < wj then wi else wj;
    PriceMonotone(lmax, lmax, w, wi);
    PriceMonotone(lmax, lmax, w, wj);
    var u := Served(cfg, t, lens);
    assert t[i].pass == t[j].pass;
    assert u[i].pass - u[j].pass <= Price(lmax, wi);
    assert u[j].pass - u[i].pass <= Price(lmax, wj);
  }

  // ----- Starvation -----

  /** Path `j` is picked before path `i`: a lower pass, or the same pass and a lower index. */
  predicate Ahead(t: Table, i: nat, j: nat)
    requires i < |t| && j < |t|
  {
    t[j].pass < t[i].pass || (j < i && t[j].pass == t[i].pass)
  }

  /** How many more non-empty packets path `j` can take before path `i`, at most. */
  function Credit(t: Table, i: nat, j: nat, w: real): real
    requires i < |t| && j < |t|
  {
    if Usable(t[j]) && Ahead(t, i, j) then Scaled(t[i].pass - t[j].pass, w) + 1.0 else 0.0
  }

  function Credits(t: Table, i: nat, w: real, k: nat): real
    requires i < |t| && k <= |t|
  {
    if k == 0 then 0.0 else Credits(t, i, w, k - 1) + Credit(t, i, k - 1, w)
  }

  lemma {:induction false} CreditsChange(t: Table, u: Table, i: nat, w: real, k: nat, x: nat)
    requires |t| == |u| && i < |t| && k <= |t| && x < |t|
    requires forall j | 0 <= j < |t| && j != x :: Credit(u, i, j, w) == Credit(t, i, j, w)
    ensures Credits(u, i, w, k) == Credits(t, i, w, k) + if x < k then Credit(u, i, x, w) - Credit(t, i, x, w) else 0.0
  {
    hide Credit;
    if k > 0 {
      CreditsChange(t, u, i, w, k - 1, x);
    }
  }

  lemma {:induction false} CreditsNonnegative(t: Table, i: nat, w: real, k: nat)
    requires i < |t| && k <= |t| && w > 0.0
    ensures Credits(t, i, w, k) >= 0.0
  {
    if k > 0 {
      CreditsNonnegative(t, i, w, k - 1);
      CreditNonnegative(t, i, k - 1, w);
    }
  }

  lemma CreditNonnegative(t: Table, i: nat, j: nat, w: real)
    requires i < |t| && j < |t| && w > 0.0
    ensures Credit(t, i, j, w) >= 0.0
    ensures Usable(t[j]) && Ahead(t, i, j) ==> Credit(t, i, j, w) >= 1.0
  {
    if Usable(t[j]) && Ahead(t, i, j) {
      Product(t[i].pass - t[j].pass, w);
      assert Scaled(t[i].pass - t[j].pass, w) >= 0.0;
    }
  }

  /** Path `i` stays usable and is neither picked nor added again. */
  ghost predicate PassedOver(cfg: Config, t: Table, ops: seq<Op>, lmax: nat, i: nat)
    requires AllowedRun(cfg, t, ops, lmax)
    decreases ops
  {
    && i < |t| && Usable(t[i])
    && (ops != [] ==>
          && !(ops[0].Assigned? && Pick(t, ops[0].len) == Some(i))
          && !(ops[0].Added? && ops[0].id == i)
          && PassedOver(cfg, Next(cfg, t, ops[0]), ops[1..], lmax, i))
  }

  function Packets(ops: seq<Op>): nat {
    if ops == [] then 0 else (if ops[0].Assigned? && ops[0].len > 0 then 1 else 0) + Packets(ops[1..])
  }

  /** Additions of a path with a lower index; only those can win a tie against path `i`. */
  function Additions(ops: seq<Op>, i: nat): nat {
    if ops == [] then 0 else (if ops[0].Added? && ops[0].id < i then 1 else 0) + Additions(ops[1..], i)
  }

  /** A packet that goes elsewhere uses up a credit. */
  lemma AssignSpends(cfg: Config, t: Table, len: nat, lmax: nat, i: nat)
    requires cfg.Valid() && Inv(cfg, t) && Allowed(t, Assigned(len), lmax)
    requires i < |t| && Usable(t[i]) && Pick(t, len) != Some(i)
    ensures var w := MaxEffective(cfg); var u := Assign(cfg, t, len);
            Credits(u, i, w, |u|) <= Credits(t, i, w, |t|) - if len > 0 then 1.0 else 0.0
  {
    hide EffectiveWeight, MaxStride, Credits, Scaled;
    var w := MaxEffective(cfg);
    var u := Assign(cfg, t, len);
    PickIsLowest(t, len);
    var b := Pick(t, len).value;
    StrideInRange(cfg, t[b], len, lmax);
    CreditsChange(t, u, i, w, |t|, b);
    CreditNonnegative(t, i, b, w);
    Spend(t[i].pass - t[b].pass, t[i].pass - u[b].pass, len, w);
  }

  lemma Spend(before: real, after: real, len: nat, w: real)
    requires w >= 1.0 && before - after >= Price(len, w)
    ensures Scaled(after, w) + (len as real) <= Scaled(before, w)
  {
    Product(before - after - Price(len, w), w);
    assert (Price(len, w)) * w == len as real;
  }

  /** No other call adds more than the one credit a newcomer with a lower index brings. */
  lemma OtherSpends(cfg: Config, t: Table, op: Op, lmax: nat, i: nat)
    requires cfg.Valid() && Inv(cfg, t) && Allowed(t, op, lmax) && !op.Assigned?
    requires i < |t| && Usable(t[i]) && Usable(Next(cfg, t, op)[i]) && !(op.Added? && op.id == i)
    ensures var w := MaxEffective(cfg); var u := Next(cfg, t, op);
            Credits(u, i, w, |u|) <= Credits(t, i, w, |t|) + if op.Added? && op.id < i then 1.0 else 0.0
  {
    hide Scaled, Credits, NextWeight, Fastest;
    var w := MaxEffective(cfg);
    var u := Next(cfg, t, op);
    CreditNonnegative(t, i, op.id, w);
    if op.Added? {
      AddKeeps(cfg, t, op.id, op.initialBps, op.rejoin, 0.0);
      ScaledZero(w);
    }
    CreditsChange(t, u, i, w, |t|, op.id);
  }

  lemma ScaledZero(w: real)
    ensures Scaled(0.0, w) == 0.0
  {
  }

  lemma {:induction false} WaitIsPaid(cfg: Config, t: Table, ops: seq<Op>, lmax: nat, i: nat)
    requires cfg.Valid() && Inv(cfg, t) && AllowedRun(cfg, t, ops, lmax) && PassedOver(cfg, t, ops, lmax, i)
    ensures Packets(ops) as real <= Credits(t, i, MaxEffective(cfg), |t|) + Additions(ops, i) as real
    decreases ops
  {
    if ops == [] {
      CreditsNonnegative(t, i, MaxEffective(cfg), |t|);
    } else {
      hide Next, Inv, Credits, MaxEffective;
      var op := ops[0];
      NextKeeps(cfg, t, op, lmax);
      WaitIsPaid(cfg, Next(cfg, t, op), ops[1..], lmax, i);
      if op.Assigned? {
        AssignIsNext(cfg, t, op.len);
        AssignSpends(cfg, t, op.len, lmax, i);
      } else {
        OtherSpends(cfg, t, op, lmax, i);
      }
    }
  }

  lemma AssignIsNext(cfg: Config, t: Table, len: nat)
    ensures Next(cfg, t, Assigned(len)) == Assign(cfg, t, len)
  {
  }

  function Times(k: nat, x: real): real { (k as real) * x }

  lemma TimesStep(k: nat, x: real)
    ensures Times(0, x) == 0.0 && Times(k + 1, x) == Times(k, x) + x
  {
  }

  lemma CreditBound(t: Table, i: nat, j: nat, w: real, d: real)
    requires i < |t| && j < |t| && w > 0.0 && d >= 0.0 && Usable(t[i]) && Spread(t, d)
    ensures Credit(t, i, j, w) <= Scaled(d, w) + 1.0
  {
    Product(d, w);
    if Usable(t[j]) && Ahead(t, i, j) {
      Product(d - (t[i].pass - t[j].pass), w);
    }
  }

  lemma {:induction false} CreditsBound(t: Table, i: nat, w: real, d: real, k: nat)
    requires i < |t| && k <= |t| && w > 0.0 && d >= 0.0 && Usable(t[i]) && Spread(t, d)
    ensures Credits(t, i, w, k) <= Times(k, Scaled(d, w) + 1.0)
  {
    hide Times, Scaled, Spread, Credit;
    TimesStep(if k > 0 then k - 1 else 0, Scaled(d, w) + 1.0);
    if k > 0 {
      CreditsBound(t, i, w, d, k - 1);
      CreditBound(t, i, k - 1, w, d);
    }
  }

  lemma TableSize(cfg: Config, t: Table)
    requires Inv(cfg, t)
    ensures |t| == MAX_PATHS
  {
  }

  /** The non-empty packets that may pass a usable path over while no path is added. */
  function WaitBound(cfg: Config, lmax: nat): real
    requires cfg.Valid()
  {
    Times(MAX_PATHS, Scaled(MaxStride(cfg, lmax), MaxEffective(cfg)) + 1.0)
  }

  lemma CreditsInUse(cfg: Config, t: Table, lmax: nat, i: nat)
    requires cfg.Valid() && Inv(cfg, t) && i < |t| && Usable(t[i]) && Spread(t, MaxStride(cfg, lmax))
    ensures Credits(t, i, MaxEffective(cfg), |t|) <= WaitBound(cfg, lmax)
  {
    hide MaxStride, Scaled, Credits, Inv, Spread, MaxEffective, Times;
    StrideNonnegative(cfg, lmax);
    TableSize(cfg, t);
    CreditsBound(t, i, MaxEffective(cfg), MaxStride(cfg, lmax), MAX_PATHS);
  }

  /** No starvation: from any state an allowed run reaches, a usable path is passed over by at
      most a fixed number of non-empty packets, plus one for every addition meanwhile of a path
      with a lower index. */
  lemma WaitIsBounded(cfg: Config, before: seq<Op>, ops: seq<Op>, lmax: nat, i: nat)
    requires cfg.Valid() && AllowedRun(cfg, EmptyTable(), before, lmax)
    requires var t := After(cfg, EmptyTable(), before, lmax);
             AllowedRun(cfg, t, ops, lmax) && PassedOver(cfg, t, ops, lmax, i)
    ensures Packets(ops) as real <= WaitBound(cfg, lmax) + Additions(ops, i) as real
  {
    hide MaxStride, Credits, Inv, Spread, MaxEffective, WaitBound, AllowedRun, Packets, Additions;
    SpreadIsBounded(cfg, before, lmax);
    var t := After(cfg, EmptyTable(), before, lmax);
    WaitIsPaid(cfg, t, ops, lmax, i);
    CreditsInUse(cfg, t, lmax, i);
  }

  lemma {:induction false} NoLowerIndex(ops: seq<Op>)
    ensures Additions(ops, 0) == 0
  {
    if ops != [] {
      NoLowerIndex(ops[1..]);
    }
  }

  /** The path with the lowest index cannot be starved by any additions. */
  lemma FirstIsNeverStarved(cfg: Config, before: seq<Op>, ops: seq<Op>, lmax: nat)
    requires cfg.Valid() && AllowedRun(cfg, EmptyTable(), before, lmax)
    requires var t := After(cfg, EmptyTable(), before, lmax);
             AllowedRun(cfg, t, ops, lmax) && PassedOver(cfg, t, ops, lmax, 0)
    ensures Packets(ops) as real <= WaitBound(cfg, lmax)
  {
    hide *;
    WaitIsBounded(cfg, before, ops, lmax, 0);
    NoLowerIndex(ops);
  }

  // ----- A hog -----

  /** A path removed, added again and given a packet, `n` times over. */
  function Churn(n: nat, len: nat): seq<Op> {
    if n == 0 then [] else [Removed(0), Added(0, 0.0, false), Assigned(len)] + Churn(n - 1, len)
  }

  /** Path `i` usable at pass zero, and besides it at most path 0. */
  ghost predicate TwoPaths(cfg: Config, t: Table, i: nat) {
    && Inv(cfg, t) && 0 < i < |t| && Usable(t[i]) && t[i].pass == 0.0
    && (forall j | 0 <= j < |t| :: t[j].maxInner == 0 && (j != 0 && j != i ==> !t[j].present))
  }

  /** One more operation in front of a run that passes path `i` over. */
  lemma PassedOverFirst(cfg: Config, t: Table, op: Op, rest: seq<Op>, lmax: nat, i: nat)
    requires Allowed(t, op, lmax) && i < |t| && Usable(t[i])
    requires !(op.Assigned? && Pick(t, op.len) == Some(i)) && !(op.Added? && op.id == i)
    requires AllowedRun(cfg, Next(cfg, t, op), rest, lmax) && PassedOver(cfg, Next(cfg, t, op), rest, lmax, i)
    ensures AllowedRun(cfg, t, [op] + rest, lmax) && PassedOver(cfg, t, [op] + rest, lmax, i)
    ensures Packets([op] + rest) == Packets(rest) + if op.Assigned? && op.len > 0 then 1 else 0
    ensures Additions([op] + rest, i) == Additions(rest, i) + if op.Added? && op.id < i then 1 else 0
  {
    assert ([op] + rest)[1..] == rest;
  }

  lemma ChurnOnce(cfg: Config, t: Table, len: nat, i: nat)
    requires cfg.Valid() && TwoPaths(cfg, t, i)
    ensures var r := RemovePath(t, 0); var u := AddPath(cfg, r, 0, 0.0, false);
            && |r| == |u| == MAX_PATHS && Usable(r[i]) && Usable(u[i])
            && Pick(u, len) == Some(0) && Allowed(u, Assigned(len), len)
            && TwoPaths(cfg, Assign(cfg, u, len), i)
  {
    hide EffectiveWeight;
    var r := RemovePath(t, 0);
    MaxPassIsHighest(r, |r|);
    var u := AddPath(cfg, r, 0, 0.0, false);
    PickIsLowest(u, len);
    assert Eligible(u[0], len);
    StrideInRange(cfg, u[0], len, len);
  }

  /** Without counting additions there is no bound for any path but the first: path 0, removed
      and added again before every packet, takes all of them, because it re-enters level with
      the other path and the lower index wins the tie. */
  lemma {:induction false} ChurnStarves(cfg: Config, t: Table, n: nat, len: nat, i: nat)
    requires cfg.Valid() && TwoPaths(cfg, t, i) && len > 0
    ensures AllowedRun(cfg, t, Churn(n, len), len)
    ensures PassedOver(cfg, t, Churn(n, len), len, i)
    ensures Packets(Churn(n, len)) == n == Additions(Churn(n, len), i)
    decreases n
  {
    if n > 0 {
      hide AddPath, RemovePath, Assign, Pick, Packets, Additions, Usable, Inv;
      var rest := Churn(n - 1, len);
      var r := RemovePath(t, 0);
      var u := AddPath(cfg, r, 0, 0.0, false);
      ChurnOnce(cfg, t, len, i);
      ChurnStarves(cfg, Assign(cfg, u, len), n - 1, len, i);
      PassedOverFirst(cfg, u, Assigned(len), rest, len, i);
      PassedOverFirst(cfg, r, Added(0, 0.0, false), [Assigned(len)] + rest, len, i);
      PassedOverFirst(cfg, t, Removed(0), [Added(0, 0.0, false)] + ([Assigned(len)] + rest), len, i);
      assert Churn(n, len) == [Removed(0)] + ([Added(0, 0.0, false)] + ([Assigned(len)] + rest));
    }
  }

  /** Two paths joining an empty scheduler. */
  function Joined(i: nat): seq<Op> { [Added(0, 0.0, false), Added(i, 0.0, false)] }

  lemma JoinedIsTwoPaths(cfg: Config, lmax: nat, i: nat)
    requires cfg.Valid() && 0 < i < MAX_PATHS
    ensures AllowedRun(cfg, EmptyTable(), Joined(i), lmax)
    ensures TwoPaths(cfg, After(cfg, EmptyTable(), Joined(i), lmax), i)
  {
    var t0 := EmptyTable();
    MaxPassIsHighest(t0, |t0|);
    var t1 := AddPath(cfg, t0, 0, 0.0, false);
    MaxPassIsHighest(t1, |t1|);
    var t2 := AddPath(cfg, t1, i, 0.0, false);
    assert Joined(i)[1..] == [Added(i, 0.0, false)] && [Added(i, 0.0, false)][1..] == [];
    assert AllowedRun(cfg, t2, [], lmax) && After(cfg, t2, [], lmax) == t2;
    assert AllowedRun(cfg, t1, [Added(i, 0.0, false)], lmax);
    assert After(cfg, t1, [Added(i, 0.0, false)], lmax) == t2;
  }

  /** From an empty scheduler: after two paths have joined, any number of packets passes the one
      with the higher index over, however high. */
  lemma StarvedFromStart(cfg: Config, n: nat, len: nat, i: nat)
    requires cfg.Valid() && 0 < i < MAX_PATHS && len > 0
    ensures AllowedRun(cfg, EmptyTable(), Joined(i), len)
    ensures var t := After(cfg, EmptyTable(), Joined(i), len);
            && AllowedRun(cfg, t, Churn(n, len), len) && PassedOver(cfg, t, Churn(n, len), len, i)
            && Packets(Churn(n, len)) == n
  {
    hide *;
    JoinedIsTwoPaths(cfg, len, i);
    ChurnStarves(cfg, After(cfg, EmptyTable(), Joined(i), len), n, len, i);
  }
}
