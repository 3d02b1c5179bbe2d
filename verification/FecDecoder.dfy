/** The decoder as the program keeps it: a ring of slots and a table of groups, updated in
    place. */
module FecDecoder {
  import opened Common
  import opened Wire
  import opened ErasureCodes
  import opened FecEncoderSpec
  import opened FecDecoderSpec

  class Decoder {
    const code: Code
    const ring: array<Slot>
    var started: bool
    var highest: nat
    var groups: map<nat, RxGroup>
    var recovered: nat
    var failed: nat

    ghost function Model(): Dec
      reads this, ring
    {
      Dec(ring[..], started, highest, groups, recovered, failed)
    }

    /** Groups are filed under their base and have one slot for each parity shard. */
    ghost predicate Valid()
      reads this, ring
    {
      && ring.Length == RING_SIZE
      && forall base <- groups :: groups[base].base == base && |groups[base].parity| == groups[base].r
    }

    constructor (code: Code)
      ensures Valid() && fresh(ring) && Model() == NewDecoder() && this.code == code
    {
      this.code := code;
      ring := new Slot[RING_SIZE](_ => Free);
      started, highest, groups, recovered, failed := false, 0, map[], 0, 0;
    }

    method AddData(sn: nat, pkt: Bytes) returns (out: seq<Recovered>)
      requires Valid()
      modifies this, ring
      ensures Valid()
      ensures FecDecoderSpec.AddData(code, old(Model()), sn, pkt, Model(), out)
    {
      hide TryReconstruct;
      if |pkt| > SHARD_CAP {
        return [];
      }
      ring[sn % RING_SIZE] := Used(sn, pkt);
      if !started || sn > highest {
        highest, started := sn, true;
      }
      assert Model() == Record(old(Model()), sn, pkt);
      PruneStale();
      var todo := groups.Keys;
      while todo != {}
        invariant todo <= groups.Keys
        invariant forall b <- groups :: b in todo || !(b <= sn < b + groups[b].k)
        decreases todo
      {
        var base :| base in todo;
        if base <= sn < base + groups[base].k {
          assert base in Covering(Model(), sn);
          out := Reconstruct(groups[base]);
          return;
        }
        todo := todo - {base};
      }
      assert Covering(Model(), sn) == {};
      return [];
    }

    method AddParity(h: FECHeader, shard: Bytes) returns (out: seq<Recovered>)
      requires Valid() && h.index < h.r
      modifies this, ring
      ensures Valid()
      ensures (Model(), out) == FecDecoderSpec.AddParity(code, old(Model()), h, shard)
    {
      hide TryReconstruct;
      if |shard| > SHARD_CAP {
        return [];
      }
      if h.base !in groups {
        if |groups| >= MAX_GROUPS {
          Evict();
        }
        groups := groups[h.base := NewGroup(h, |shard|)];
      }
      assert Model() == Track(old(Model()), h, |shard|);
      var g := groups[h.base];
      if h.k != g.k || h.r != g.r || |shard| != g.shardSize {
        return [];
      }
      g := Store(g, h.index, shard);
      groups := groups[h.base := g];
      out := Reconstruct(g);
    }

    method Reconstruct(g: RxGroup) returns (out: seq<Recovered>)
      requires Valid()
      modifies this`groups, this`recovered
      ensures Valid()
      ensures (Model(), out) == TryReconstruct(code, old(Model()), g)
    {
      var present := 0;
      for i := 0 to g.k
        invariant present == PresentIn(ring[..], g.base, i)
      {
        var s := ring[(g.base + i) % RING_SIZE];
        if s.Used? && s.sn == g.base + i {
          present := present + 1;
        }
      }
      if present >= g.k {
        groups := groups - {g.base};
        return [];
      }
      if g.got < g.k - present {
        return [];
      }
      var ok, work := Assemble(g);
      if !ok {
        return [];
      }
      var data := code.rebuild(g.k, g.r, work + g.parity);
      if data.None? || |data.value| != g.k {
        return [];
      }
      out := Collect(g, data.value);
      recovered := recovered + |out|;
      groups := groups - {g.base};
    }

    /** The data shards on hand, padded; fails when a packet is longer than a shard. */
    method Assemble(g: RxGroup) returns (ok: bool, work: seq<Option<Bytes>>)
      requires Valid()
      ensures ok <==> !Oversized(ring[..], g.base, g.shardSize, g.k)
      ensures ok ==> work == DataPart(ring[..], g.base, g.shardSize, g.k)
    {
      work := [];
      for i := 0 to g.k
        invariant work == DataPart(ring[..], g.base, g.shardSize, i)
        invariant !Oversized(ring[..], g.base, g.shardSize, i)
      {
        var s := ring[(g.base + i) % RING_SIZE];
        if s.Used? && s.sn == g.base + i {
          if |s.pkt| > g.shardSize {
            OversizedStays(ring[..], g.base, g.shardSize, i + 1, g.k);
            return false, [];
          }
          work := work + [Some(Pad(s.pkt, g.shardSize))];
        } else {
          work := work + [None];
        }
      }
      return true, work;
    }

    method Collect(g: RxGroup, data: seq<Bytes>) returns (out: seq<Recovered>)
      requires Valid() && |data| == g.k
      ensures out == Harvest(ring[..], g.base, data, g.k)
    {
      out := [];
      for i := 0 to g.k
        invariant out == Harvest(ring[..], g.base, data, i)
      {
        var sn := g.base + i;
        var s := ring[sn % RING_SIZE];
        var len := InnerIPLen(data[i]);
        if !(s.Used? && s.sn == sn) && len.Some? && len.value <= |data[i]| {
          out := out + [Recovered(sn, data[i][..len.value])];
        }
      }
    }

    method PruneStale()
      requires Valid()
      modifies this`groups, this`failed
      ensures Valid()
      ensures Model() == Prune(old(Model()))
    {
      if highest < RING_SIZE {
        assert groups - {} == groups;
        return;
      }
      ghost var all, stale := groups, Stale(Model());
      var floor := highest - RING_SIZE + MAX_FEC_SHARDS;
      var todo := groups.Keys;
      ghost var gone: set<nat> := {};
      while todo != {}
        invariant todo <= all.Keys
        invariant gone == set b | b in stale && b !in todo
        invariant groups == all - gone
        invariant failed == old(failed) + |gone|
        decreases todo
      {
        var base :| base in todo;
        todo := todo - {base};
        if base < floor {
          failed := failed + 1;
          groups := groups - {base};
          gone := gone + {base};
        }
      }
      assert gone == stale;
    }

    method Evict()
      requires Valid()
      modifies this`groups, this`failed
      ensures Valid()
      ensures Model() == EvictOldest(old(Model()))
    {
      var first, oldest := true, 0;
      var todo := groups.Keys;
      while todo != {}
        invariant todo <= groups.Keys
        invariant first ==> todo == groups.Keys
        invariant !first ==> oldest in groups && forall b <- groups :: b in todo || oldest <= b
        decreases todo
      {
        var base :| base in todo;
        todo := todo - {base};
        if first || base < oldest {
          oldest, first := base, false;
        }
      }
      if !first {
        failed := failed + 1;
        groups := groups - {oldest};
      }
    }
  }

  lemma {:induction false} OversizedStays(ring: seq<Slot>, base: nat, size: nat, n: nat, k: nat)
    requires n <= k && Oversized(ring, base, size, n)
    ensures Oversized(ring, base, size, k)
  {
    if n < k {
      OversizedStays(ring, base, size, n, k - 1);
    }
  }
}
