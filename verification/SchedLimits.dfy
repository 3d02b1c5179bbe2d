/** The scheduler under path MTU limits: what they do to the spread of passes, and what is left. */
module SchedLimits {
  import opened Common
  import opened SchedSpec
  import opened SchedRuns

  /** Path `q` admits every packet that path `p` admits. */
  predicate Wider(q: Path, p: Path) { q.maxInner == 0 || (p.maxInner != 0 && p.maxInner <= q.maxInner) }

  lemma WiderFits(q: Path, p: Path)
    ensures Wider(q, p) ==> forall len: int :: Fits(p, len) ==> Fits(q, len)
  {
  }

  /** No present path is more than `d` ahead of a usable one that is at least as wide. */
  ghost predicate WiderSpread(t: Table, d: real) {
    forall i, j | 0 <= i < |t| && 0 <= j < |t| && t[i].present && Usable(t[j]) && Wider(t[j], t[i]) ::
      t[i].pass - t[j].pass <= d
  }

  /** Packets of any size up to `lmax`, whatever paths they exclude, metrics, removals and state
      changes; limits stay and nothing is added. */
  predicate Steady(t: Table, op: Op, lmax: nat) {
    && |t| == MAX_PATHS
    && match op
       case Assigned(len) => len <= lmax
       case StateSet(id, st) => id < MAX_PATHS && (t[id].state == Down ==> st == Down)
       case Removed(id) => id < MAX_PATHS
       case Measured(id, _) => id < MAX_PATHS
       case Added(_, _, _) => false
       case MtuSet(_, _) => false
  }

  ghost predicate SteadyRun(cfg: Config, t: Table, ops: seq<Op>, lmax: nat)
    decreases ops
  {
    ops == [] || (Steady(t, ops[0], lmax) && SteadyRun(cfg, Next(cfg, t, ops[0]), ops[1..], lmax))
  }

  ghost function AfterSteady(cfg: Config, t: Table, ops: seq<Op>, lmax: nat): Table
    requires SteadyRun(cfg, t, ops, lmax)
    decreases ops
  {
    if ops == [] then t else AfterSteady(cfg, Next(cfg, t, ops[0]), ops[1..], lmax)
  }

  lemma AssignKeepsWider(cfg: Config, t: Table, len: nat, lmax: nat)
    requires cfg.Valid() && Inv(cfg, t) && len <= lmax && WiderSpread(t, MaxStride(cfg, lmax))
    ensures Inv(cfg, Assign(cfg, t, len)) && WiderSpread(Assign(cfg, t, len), MaxStride(cfg, lmax))
  {
    hide EffectiveWeight, MaxStride;
    PickIsLowest(t, len);
    var best := Pick(t, len);
    if best.Some? {
      var b := best.value;
      StrideInRange(cfg, t[b], len, lmax);
      var u := Assign(cfg, t, len);
      forall i, j | 0 <= i < |u| && 0 <= j < |u| && u[i].present && Usable(u[j]) && Wider(u[j], u[i])
        ensures u[i].pass - u[j].pass <= MaxStride(cfg, lmax)
      {
        assert t[i].pass - t[j].pass <= MaxStride(cfg, lmax);
        if i == b && j != b {
          WiderFits(t[j], t[b]);
          assert Eligible(t[j], len);
        }
      }
    }
  }

  lemma OtherKeepsWider(cfg: Config, t: Table, op: Op, lmax: nat, d: real)
    requires cfg.Valid() && Inv(cfg, t) && Steady(t, op, lmax) && !op.Assigned? && WiderSpread(t, d)
    ensures Inv(cfg, Next(cfg, t, op)) && WiderSpread(Next(cfg, t, op), d)
  {
    hide Fastest;
    if op.Measured? {
      WeightInRange(cfg, t[op.id].weight, op.m);
      hide NextWeight;
    }
  }

  /** With exclusions, whatever their pattern, a path still never gets more than one maximal stride
      ahead of one that is at least as wide; so paths with equal limits stay together. */
  lemma {:induction false} WiderSpreadStays(cfg: Config, t: Table, ops: seq<Op>, lmax: nat)
    requires cfg.Valid() && Inv(cfg, t) && WiderSpread(t, MaxStride(cfg, lmax)) && SteadyRun(cfg, t, ops, lmax)
    ensures WiderSpread(AfterSteady(cfg, t, ops, lmax), MaxStride(cfg, lmax))
    decreases ops
  {
    if ops != [] {
      hide Inv, WiderSpread, MaxStride, Assign;
      var op := ops[0];
      if op.Assigned? {
        AssignIsNext(cfg, t, op.len);
        AssignKeepsWider(cfg, t, op.len, lmax);
      } else {
        OtherKeepsWider(cfg, t, op, lmax, MaxStride(cfg, lmax));
      }
      WiderSpreadStays(cfg, Next(cfg, t, op), ops[1..], lmax);
    }
  }

  // ----- A restricted path falls behind -----

  /** Two paths at pass zero, the second closed to packets of more than 100 bytes. */
  ghost predicate OneRestricted(cfg: Config, t: Table) {
    && Inv(cfg, t) && |t| == MAX_PATHS
    && t[0].present && t[0].state == Active && t[0].maxInner == 0
    && t[1].present && t[1].state == Active && t[1].maxInner == 100 && t[1].pass == 0.0
    && forall j | 2 <= j < |t| :: !t[j].present
  }

  lemma LargeGoesToFirst(cfg: Config, t: Table, len: nat)
    requires cfg.Valid() && OneRestricted(cfg, t) && len > 100
    ensures OneRestricted(cfg, Assign(cfg, t, len))
    ensures Assign(cfg, t, len)[0].pass >= t[0].pass + Price(len, MaxEffective(cfg))
  {
    hide EffectiveWeight, MaxEffective;
    PickIsLowest(t, len);
    assert Eligible(t[0], len) && !Eligible(t[1], len);
    StrideInRange(cfg, t[0], len, len);
  }

  function Large(n: nat): seq<nat> { seq(n, _ => 1000) }

  lemma {:induction false} LargePackets(cfg: Config, t: Table, n: nat)
    requires cfg.Valid() && OneRestricted(cfg, t)
    ensures OneRestricted(cfg, Served(cfg, t, Large(n)))
    ensures Served(cfg, t, Large(n))[0].pass >= t[0].pass + Times(n, Price(1000, MaxEffective(cfg)))
  {
    var x := Price(1000, MaxEffective(cfg));
    hide OneRestricted, Times, Assign, MaxEffective;
    TimesStep(if n > 0 then n - 1 else 0, x);
    if n > 0 {
      assert Large(n)[..n - 1] == Large(n - 1);
      LargePackets(cfg, t, n - 1);
      LargeGoesToFirst(cfg, Served(cfg, t, Large(n - 1)), 1000);
      StillTable(cfg, Served(cfg, t, Large(n - 1)));
    }
    StillTable(cfg, Served(cfg, t, Large(n)));
  }

  lemma StillTable(cfg: Config, t: Table)
    requires OneRestricted(cfg, t)
    ensures |t| == MAX_PATHS
  {
  }

  /** Two paths join an empty scheduler, and the second one is found to carry 100 bytes at most. */
  function Restricted(cfg: Config): Table {
    var t1 := AddPath(cfg, EmptyTable(), 0, 0.0, false);
    SetPathMTU(AddPath(cfg, t1, 1, 0.0, false), 1, 100)
  }

  lemma RestrictedIs(cfg: Config)
    requires cfg.Valid()
    ensures OneRestricted(cfg, Restricted(cfg)) && Restricted(cfg)[0].pass == 0.0
  {
    var t0 := EmptyTable();
    MaxPassIsHighest(t0, |t0|);
    var t1 := AddPath(cfg, t0, 0, 0.0, false);
    MaxPassIsHighest(t1, |t1|);
  }

  lemma Outgrows(x: real, d: real) returns (n: nat)
    requires x > 0.0
    ensures Times(n, x) > d
  {
    if d < 0.0 {
      n := 0;
    } else {
      var q := d / x;
      n := q.Floor + 1;
      Exceeds(n as real, q, x);
    }
  }

  lemma Exceeds(n: real, q: real, x: real)
    requires n > q && x > 0.0
    ensures n * x > q * x
  {
    assert (n - q) * x > 0.0;
  }

  /** Spread is lost under exclusions: for every bound, enough packets that the second path does not
      admit put the first one further ahead of it than that. */
  lemma ExclusionBreaksSpread(cfg: Config, d: real) returns (n: nat)
    requires cfg.Valid()
    ensures !Spread(Served(cfg, Restricted(cfg), Large(n)), d)
  {
    var x := Price(1000, MaxEffective(cfg));
    RestrictedIs(cfg);
    LargeCosts(cfg);
    n := Outgrows(x, d);
    hide Times, Restricted;
    LargePackets(cfg, Restricted(cfg), n);
    var u := Served(cfg, Restricted(cfg), Large(n));
    assert u[0].present && Usable(u[1]) && u[0].pass - u[1].pass > d;
  }

  lemma LargeCosts(cfg: Config)
    requires cfg.Valid()
    ensures MaxEffective(cfg) >= 1.0 && Price(1000, MaxEffective(cfg)) > 0.0
  {
  }
}
