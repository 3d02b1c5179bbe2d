/** The reorder buffer as the program keeps it: an 8192-slot ring, a count of held packets
    and the duplicate bitmap, refining the map of `ReorderSpec`. */
module Reorder {
  import opened Common
  import opened BlockWindow
  import opened ReorderSpec

  datatype Slot<P> = Free | Used(sn: nat, pkt: P)

  /** The order in which the ring is walked during an advance does not depend on `next`. */
  lemma AdvanceIgnoresNext<P>(b: Buf<P>, n: nat, target: nat)
    ensures AdvanceTo(b.(next := n), target) == AdvanceTo(b, target)
  {
    var low := Below(b.held, target);
    if low != {} {
      assert Deliver(b.(next := n), Least(low)) == Deliver(b, Least(low));
    }
  }

  /** Delivering the lowest held packet below the target first changes nothing. */
  lemma AdvanceDelivers<P>(b: Buf<P>, k: nat, target: nat)
    requires k in b.held && k < target && forall i <- b.held :: k <= i
    ensures AdvanceTo(Deliver(b, k), target) == AdvanceTo(b, target)
  {
    assert k in Below(b.held, target);
    assert Least(Below(b.held, target)) == k;
  }

  /** Within one span a slot determines the number. */
  lemma SlotIsNumber(a: nat, b: nat, next: nat)
    requires next < a < next + RING_SIZE && next < b < next + RING_SIZE
    requires a % RING_SIZE == b % RING_SIZE
    ensures a == b
  {
  }

  lemma CheckedKeeps<P>(b: Buf<P>, sn: nat)
    requires Inv(b)
    ensures Inv(b.(window := b.window.Check(sn).0))
  {
    b.window.CheckValid(sn);
  }

  lemma ArmedIsHolding<P>(b: Buf<P>)
    requires Inv(b) && b.deadline.Some?
    ensures b.held != map[] && |b.held| > 0
  {
  }

  lemma DrainStep<P>(b: Buf<P>)
    ensures b.next in b.held ==> DrainRun(b) == DrainRun(Deliver(b, b.next))
    ensures b.next !in b.held ==> DrainRun(b) == b
  {
  }

  class Buffer<P> {
    const maxHold: int
    const ring: array<Slot<P>>
    const seen: Bitmap
    var started: bool
    var nextSeq: nat
    var held: nat
    var deadline: Option<int>
    var emitted: seq<Emission<P>>
    var released: seq<Item<P>>
    var stats: Stats
    ghost var packets: map<nat, P>

    ghost function Model(): Buf<P>
      reads this, seen
    {
      Buf(maxHold, seen.model, started, nextSeq, packets, deadline, emitted, released, stats)
    }

    /** The ring holds exactly `packets`, each at the slot of its number. */
    ghost predicate Linked()
      reads `held, `packets, ring
    {
      && ring.Length == RING_SIZE
      && held == |packets|
      && (forall k <- packets :: ring[k % RING_SIZE] == Used(k, packets[k]))
      && (forall i | 0 <= i < RING_SIZE && ring[i].Used? ::
            ring[i].sn in packets && ring[i].sn % RING_SIZE == i)
    }

    ghost predicate Valid()
      reads this, ring, seen, seen.blocks
    {
      Linked() && seen.Valid() && Inv(Model())
    }

    constructor (maxHold: int)
      ensures Valid() && fresh(ring) && fresh(seen) && fresh(seen.blocks)
      ensures Model() == Empty(maxHold)
    {
      this.maxHold := maxHold;
      ring := new Slot<P>[RING_SIZE](_ => Free);
      seen := new Bitmap(SEEN_BLOCKS);
      started, nextSeq, held, deadline := false, 0, 0, None;
      emitted, released, stats := [], [], Stats(0, 0, 0, 0, 0, 0);
      packets := map[];
    }

    method Push(sn: nat, pkt: P, clock: int, timeout: int)
      requires Valid()
      modifies this, ring, seen, seen.blocks
      ensures Valid()
      ensures Model() == ReorderSpec.Push(old(Model()), sn, pkt, clock, timeout)
    {
      hide MakeRoom, Place, Inv;
      ghost var b := Model();
      PushKeeps(b, sn, pkt, clock, timeout);
      CheckedKeeps(b, sn);
      var ok := seen.Check(sn);
      if ok {
        MakeRoomKeeps(Model(), sn);
        MakeRoomInRing(sn);
        PlaceInRing(sn, pkt, clock, timeout);
      } else {
        stats := stats.(dupDrop := stats.dupDrop + 1);
        released := released + [Item(sn, pkt)];
      }
    }

    method FlushExpired(now: int, clock: int, timeout: int) returns (next: Option<int>)
      requires Valid()
      modifies this, ring
      ensures Valid()
      ensures Model() == ReorderSpec.FlushExpired(old(Model()), now, clock, timeout)
      ensures next == deadline
    {
      hide GiveUp, Inv;
      FlushKeeps(Model(), now, clock, timeout);
      if deadline.None? || now < deadline.value {
        return deadline;
      }
      ArmedIsHolding(Model());
      GiveUpInRing(clock, timeout);
      return deadline;
    }

    method MakeRoomInRing(sn: nat)
      requires Linked() && Inv(Model())
      modifies this, ring
      ensures Linked()
      ensures Model() == MakeRoom(old(Model()), sn)
    {
      hide AdvanceTo, Window.Valid, Linked;
      if !started {
        started, nextSeq := true, sn;
      }
      if sn > nextSeq && sn - nextSeq >= RING_SIZE {
        stats := stats.(overflowSkip := stats.overflowSkip + 1);
        AdvanceRing(sn);
      }
    }

    method PlaceInRing(sn: nat, pkt: P, clock: int, timeout: int)
      requires Linked() && Ready(Model(), sn)
      modifies this, ring
      ensures Linked()
      ensures Model() == Place(old(Model()), sn, pkt, clock, timeout)
    {
      hide Drain, Hold, Window.Valid, Linked;
      if sn == nextSeq {
        EmitPacket(Item(sn, pkt), false);
        nextSeq := nextSeq + 1;
        DrainRing(clock, timeout);
      } else if sn < nextSeq {
        stats := stats.(latePass := stats.latePass + 1);
        EmitPacket(Item(sn, pkt), true);
      } else {
        HoldPacket(sn, pkt, clock, timeout);
      }
    }

    method EmitPacket(item: Item<P>, late: bool)
      modifies this`emitted, this`stats
      ensures Model() == Emit(old(Model()), item, late)
    {
      emitted := emitted + [Emission(item, late)];
      stats := stats.(emitted := stats.emitted + 1);
    }

    /** Emits the packet in slot `i` and frees the slot. */
    method EmitSlot(i: nat)
      requires Linked() && i < RING_SIZE && ring[i].Used?
      modifies this`emitted, this`stats, this`held, this`packets, ring
      ensures Linked() && held == old(held) - 1
      ensures Model() == Deliver(old(Model()), old(ring[i].sn)).(next := nextSeq)
    {
      var s := ring[i];
      EmitPacket(Item(s.sn, s.pkt), false);
      ring[i] := Free;
      held := held - 1;
      packets := packets - {s.sn};
      assert packets.Keys == old(packets).Keys - {s.sn};
    }

    method DrainRing(clock: int, timeout: int)
      requires Linked()
      modifies this, ring
      ensures Linked()
      ensures Model() == Drain(old(Model()), clock, timeout)
    {
      hide DrainRun;
      while held > 0
        invariant Linked()
        invariant DrainRun(Model()) == DrainRun(old(Model()))
        decreases held
      {
        var s := ring[nextSeq % RING_SIZE];
        if s.Free? || s.sn != nextSeq {
          break;
        }
        DrainStep(Model());
        EmitSlot(nextSeq % RING_SIZE);
        nextSeq := nextSeq + 1;
      }
      assert nextSeq !in packets;
      DrainStep(Model());
      if held == 0 {
        deadline := None;
      } else if deadline.None? {
        deadline := Some(clock + timeout);
      }
    }

    method GiveUpInRing(clock: int, timeout: int)
      requires Linked() && held > 0
      modifies this, ring
      ensures Linked()
      ensures Model() == GiveUp(old(Model()), clock, timeout)
    {
      hide Drain;
      ghost var b := Model();
      stats := stats.(timeoutFlush := stats.timeoutFlush + 1);
      var found, oldest := LowestSlot(None);
      if !found {
        assert false;
      }
      assert ring[oldest].sn == Least(packets.Keys);
      nextSeq := ring[oldest].sn;
      deadline := None;
      DrainRing(clock, timeout);
    }

    /** Slot `i` is the used slot with the lowest number, and that number is below `target`
        if one is given. */
    ghost predicate IsLowest(i: nat, target: Option<nat>)
      requires ring.Length == RING_SIZE
      reads `packets, ring
    {
      && i < RING_SIZE && ring[i].Used?
      && ring[i].sn in packets
      && (target.Some? ==> ring[i].sn < target.value)
      && forall k <- packets :: ring[i].sn <= k
    }

    method LowestSlot(target: Option<nat>) returns (found: bool, best: nat)
      requires Linked()
      ensures found ==> IsLowest(best, target)
      ensures !found ==> forall k <- packets :: target.Some? && k >= target.value
    {
      found, best := false, 0;
      for i := 0 to RING_SIZE
        invariant found ==>
                    && best < i && ring[best].Used?
                    && (target.Some? ==> ring[best].sn < target.value)
        invariant forall j | 0 <= j < i && ring[j].Used? && (target.Some? ==> ring[j].sn < target.value) ::
                    found && ring[best].sn <= ring[j].sn
      {
        if ring[i].Used? && (target.None? || ring[i].sn < target.value)
           && (!found || ring[i].sn < ring[best].sn)
        {
          found, best := true, i;
        }
      }
      forall k <- packets
        ensures found ==> ring[best].sn <= k
        ensures !found ==> target.Some? && k >= target.value
      {
        assert ring[k % RING_SIZE].sn == k;
      }
    }

    method AdvanceRing(target: nat)
      requires Linked() && target >= nextSeq && forall k <- packets :: nextSeq <= k
      modifies this, ring
      ensures Linked()
      ensures Model() == AdvanceTo(old(Model()), target)
    {
      ghost var goal := AdvanceTo(Model(), target);
      if target - nextSeq > RING_SIZE {
        AdvanceBySelection(target, goal);
      } else {
        AdvanceByWalk(target, goal);
      }
      assert Below(packets, target) == {};
      if held == 0 {
        deadline := None;
      }
    }

    /** The huge jump: repeatedly emits the lowest slot below the target. */
    method AdvanceBySelection(target: nat, ghost goal: Buf<P>)
      requires Linked() && AdvanceTo(Model(), target) == goal
      modifies this, ring
      ensures Linked() && AdvanceTo(Model(), target) == goal
      ensures nextSeq == target && forall k <- packets :: k >= target
    {
      hide AdvanceTo;
      var found, best := LowestSlot(Some(target));
      while found
        invariant Linked() && AdvanceTo(Model(), target) == goal
        invariant found ==> IsLowest(best, Some(target))
        invariant !found ==> forall k <- packets :: k >= target
        decreases held
      {
        SelectOne(best, target);
        found, best := LowestSlot(Some(target));
      }
      AdvanceIgnoresNext(Model(), target, target);
      nextSeq := target;
    }

    method SelectOne(best: nat, target: nat)
      requires Linked() && IsLowest(best, Some(target))
      modifies this, ring
      ensures Linked() && AdvanceTo(Model(), target) == AdvanceTo(old(Model()), target)
      ensures held < old(held)
    {
      hide AdvanceTo;
      ghost var b := Model();
      ghost var k := ring[best].sn;
      AdvanceDelivers(b, k, target);
      EmitSlot(best);
      AdvanceIgnoresNext(Deliver(b, k), nextSeq, target);
    }

    /** Walks the sequence numbers up to the target. */
    method AdvanceByWalk(target: nat, ghost goal: Buf<P>)
      requires Linked() && AdvanceTo(Model(), target) == goal
      requires target >= nextSeq && forall k <- packets :: nextSeq <= k
      modifies this, ring
      ensures Linked() && AdvanceTo(Model(), target) == goal
      ensures nextSeq == target && forall k <- packets :: k >= target
    {
      hide AdvanceTo, Linked;
      while nextSeq < target
        invariant Linked() && AdvanceTo(Model(), target) == goal
        invariant nextSeq <= target && forall k <- packets :: nextSeq <= k
      {
        WalkOne(target);
      }
    }

    method WalkOne(target: nat)
      requires Linked() && nextSeq < target && forall k <- packets :: nextSeq <= k
      modifies this, ring
      ensures Linked() && AdvanceTo(Model(), target) == AdvanceTo(old(Model()), target)
      ensures nextSeq == old(nextSeq) + 1 && forall k <- packets :: nextSeq <= k
    {
      hide AdvanceTo;
      ghost var b := Model();
      assert nextSeq in packets ==> ring[nextSeq % RING_SIZE] == Used(nextSeq, packets[nextSeq]);
      var s := ring[nextSeq % RING_SIZE];
      if s.Used? && s.sn == nextSeq {
        AdvanceDelivers(b, nextSeq, target);
        EmitSlot(nextSeq % RING_SIZE);
      } else {
        assert nextSeq !in packets;
        AdvanceIgnoresNext(b, nextSeq + 1, target);
      }
      nextSeq := nextSeq + 1;
    }

    method HoldPacket(sn: nat, pkt: P, clock: int, timeout: int)
      requires Linked() && Ready(Model(), sn) && sn > nextSeq
      modifies this, ring
      ensures Linked()
      ensures Model() == Hold(old(Model()), sn, pkt, clock, timeout)
    {
      hide GiveUp, Window.Valid;
      ghost var b := Model();
      Occupy(sn, pkt);
      stats := stats.(reordered := stats.reordered + 1);
      if deadline.None? {
        deadline := Some(clock + timeout);
      }
      assert Model() == Shelve(b, sn, pkt, clock, timeout);
      if held > maxHold {
        GiveUpInRing(clock, timeout);
      }
    }

    /** Puts a packet into its slot; an occupant is released and, all held numbers lying in
        one span, bears the same number. */
    method Occupy(sn: nat, pkt: P)
      requires Linked() && nextSeq < sn < nextSeq + RING_SIZE
      requires forall k <- packets :: nextSeq < k < nextSeq + RING_SIZE
      modifies this`released, this`held, this`packets, ring
      ensures Linked()
      ensures packets == old(packets)[sn := pkt]
      ensures released == if sn in old(packets) then old(released) + [Item(sn, old(packets)[sn])] else old(released)
    {
      var i := sn % RING_SIZE;
      if ring[i].Used? {
        SlotIsNumber(ring[i].sn, sn, nextSeq);
        released := released + [Item(ring[i].sn, ring[i].pkt)];
        held := held - 1;
      }
      ring[i] := Used(sn, pkt);
      held := held + 1;
      packets := packets[sn := pkt];
      assert packets.Keys == old(packets).Keys + {sn};
    }
  }
}
