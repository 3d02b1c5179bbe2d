/** The scheduler as the program keeps it: an array of path states updated in place. */
module Sched {
  import opened Common
  import opened SchedSpec

  class Scheduler {
    const cfg: Config
    const paths: array<Path>
    var mode: Mode

    ghost predicate Valid()
      reads this, paths
    {
      cfg.Valid() && Inv(cfg, paths[..])
    }

    constructor (cfg: Config, mode: Mode)
      requires cfg.Valid()
      ensures Valid() && fresh(paths)
      ensures paths[..] == EmptyTable() && this.mode == mode && this.cfg == cfg
    {
      this.cfg, this.mode := cfg, mode;
      paths := new Path[MAX_PATHS](_ => Absent());
    }

    /** In bonding the chosen path carries the packet and pays for it; in redundant mode every
        eligible path carries it and none pays. */
    method Assign(len: nat) returns (out: seq<nat>)
      requires Valid()
      modifies paths
      ensures Valid()
      ensures forall id <- out :: id < MAX_PATHS && Eligible(old(paths[..])[id], len)
      ensures mode == Redundant ==>
                && paths[..] == old(paths[..])
                && (forall i | 0 <= i < MAX_PATHS && Eligible(paths[i], len) :: i in out)
                && forall i, j | 0 <= i < j < |out| :: out[i] < out[j]
      ensures mode != Redundant ==>
                && paths[..] == SchedSpec.Assign(cfg, old(paths[..]), len)
                && out == (var best := Pick(old(paths[..]), len); if best.Some? then [best.value] else [])
    {
      if mode == Redundant {
        out := EveryEligible(len);
      } else {
        out := Cheapest(len);
      }
    }

    method EveryEligible(len: nat) returns (out: seq<nat>)
      requires Valid()
      ensures forall id <- out :: id < MAX_PATHS && Eligible(paths[id], len)
      ensures forall i | 0 <= i < MAX_PATHS && Eligible(paths[i], len) :: i in out
      ensures forall i, j | 0 <= i < j < |out| :: out[i] < out[j]
    {
      out := [];
      for i := 0 to MAX_PATHS
        invariant forall id <- out :: id < i && Eligible(paths[id], len)
        invariant forall j | 0 <= j < i && Eligible(paths[j], len) :: j in out
        invariant forall j | 0 <= j < |out| :: out[j] < i
        invariant forall j, k | 0 <= j < k < |out| :: out[j] < out[k]
      {
        var p := paths[i];
        if p.present && p.state != Down && (p.maxInner == 0 || len <= p.maxInner) {
          assert paths[..][i] == p;
          out := out + [p.id];
        }
      }
    }

    method Cheapest(len: nat) returns (out: seq<nat>)
      requires Valid()
      modifies paths
      ensures Valid()
      ensures paths[..] == SchedSpec.Assign(cfg, old(paths[..]), len)
      ensures out == (var best := Pick(old(paths[..]), len); if best.Some? then [best.value] else [])
      ensures forall id <- out :: id < MAX_PATHS && Eligible(old(paths[..])[id], len)
    {
      ghost var t := paths[..];
      PickIsLowest(t, len);
      var found, best := false, 0;
      for i := 0 to MAX_PATHS
        invariant found ==> best < i
        invariant PickAmong(t, len, i) == if found then Some(best) else None
      {
        var p := paths[i];
        assert t[i] == p;
        if !p.present || p.state == Down || (p.maxInner != 0 && len > p.maxInner) {
          continue;
        }
        if !found || p.pass < paths[best].pass {
          found, best := true, i;
        }
      }
      if !found {
        return [];
      }
      var p := paths[best];
      assert t[best] == p;
      EffectiveInRange(cfg, p);
      PriceMonotone(len, len, EffectiveWeight(cfg, p), EffectiveWeight(cfg, p));
      paths[best] := p.(pass := p.pass + Price(len, EffectiveWeight(cfg, p)));
      return [p.id];
    }

    method AddPath(id: nat, initialBps: real, rejoin: bool)
      requires Valid() && id < MAX_PATHS
      modifies paths
      ensures Valid()
      ensures paths[..] == SchedSpec.AddPath(cfg, old(paths[..]), id, initialBps, rejoin)
    {
      ghost var t := paths[..];
      var w := cfg.initialBps;
      if initialBps > 0.0 {
        w := initialBps;
      }
      if rejoin {
        w := cfg.slowStartBps;
      }
      var pass := 0.0;
      for i := 0 to MAX_PATHS
        invariant pass == MaxPass(t, i)
      {
        if paths[i].present && paths[i].pass > pass {
          pass := paths[i].pass;
        }
      }
      MaxPassIsHighest(t, MAX_PATHS);
      paths[id] := Path(id, true, Active, Clamp(w, cfg.minBps, cfg.maxBps), pass, 0, false, initialBps,
                        paths[id].maxInner);
    }

    method RemovePath(id: nat)
      requires Valid() && id < MAX_PATHS
      modifies paths
      ensures Valid()
      ensures paths[..] == SchedSpec.RemovePath(old(paths[..]), id)
    {
      paths[id] := Absent();
    }

    method SetState(id: nat, st: Health)
      requires Valid() && id < MAX_PATHS
      modifies paths
      ensures Valid()
      ensures paths[..] == SchedSpec.SetState(old(paths[..]), id, st)
    {
      if paths[id].present {
        paths[id] := paths[id].(state := st);
      }
    }

    method SetPathMTU(id: nat, maxInner: int)
      requires Valid() && id < MAX_PATHS
      modifies paths
      ensures Valid()
      ensures paths[..] == SchedSpec.SetPathMTU(old(paths[..]), id, maxInner)
    {
      paths[id] := paths[id].(maxInner := maxInner);
    }

    method OnMetrics(id: nat, m: Metrics)
      requires Valid() && id < MAX_PATHS
      modifies paths
      ensures Valid()
      ensures paths[..] == SchedSpec.OnMetrics(cfg, old(paths[..]), id, m)
    {
      hide NextWeight;
      if !paths[id].present {
        return;
      }
      var w := NextWeight(cfg, paths[id].weight, m);
      WeightInRange(cfg, paths[id].weight, m);
      paths[id] := paths[id].(weight := w, srtt := m.srtt);
      Respread();
    }

    method Respread()
      requires Valid()
      modifies paths
      ensures Valid()
      ensures paths[..] == Recap(cfg, old(paths[..]), Fastest(old(paths[..]), MAX_PATHS))
    {
      ghost var t := paths[..];
      var fastest := 0;
      for i := 0 to MAX_PATHS
        invariant fastest == Fastest(t, i)
      {
        var q := paths[i];
        if q.present && q.state == Active && q.srtt > 0 && (fastest == 0 || q.srtt < fastest) {
          fastest := q.srtt;
        }
      }
      ghost var goal := Recap(cfg, t, fastest);
      for i := 0 to MAX_PATHS
        invariant forall j | 0 <= j < i :: paths[j] == goal[j]
        invariant forall j | i <= j < MAX_PATHS :: paths[j] == t[j]
      {
        if paths[i].present {
          paths[i] := paths[i].(capped := fastest > 0 && paths[i].srtt > fastest + cfg.maxRTTSpread);
        }
      }
      assert paths[..] == goal;
    }
  }
}
