/** Recovery is complete: when K different shards of a group arrive while the decoder keeps track
    of them, every packet of the group is received or returned. */
module FecCompleteness {
  import opened Common
  import opened Wire
  import opened ErasureCodes
  import opened FecEncoderSpec
  import opened FecDecoderSpec
  import opened FecRecovery
  import opened FecEndToEnd
  import opened FecRepetition

  // ----- What one call does to the shards of a group -----

  lemma DataTouches(code: Code, d: Dec, sn: nat, pkt: Bytes, d': Dec, out: seq<Recovered>)
    requires |d.ring| == RING_SIZE && AddData(code, d, sn, pkt, d', out) && |pkt| <= SHARD_CAP
    ensures d'.ring == Record(d, sn, pkt).ring
    ensures forall b <- d'.groups :: b in d.groups && d'.groups[b] == d.groups[b]
  {
    hide PresentIn, Oversized, DataPart, Harvest;
  }

  lemma ParityTouches(code: Code, d: Dec, header: FECHeader, shard: Bytes)
    ensures var d' := AddParity(code, d, header, shard).0;
            forall b <- d'.groups :: b != header.base ==> b in d.groups && d'.groups[b] == d.groups[b]
  {
    hide PresentIn, Oversized, DataPart, Harvest, Store;
  }

  /** Parity stored in `x` is stored in `y`. */
  predicate Retains(x: RxGroup, y: RxGroup) {
    |x.parity| == |y.parity| && forall i | 0 <= i < |x.parity| :: x.parity[i].Some? ==> y.parity[i].Some?
  }

  /** The shard is one of the group and is stored. */
  predicate Stores(d: Dec, base: nat, i: nat) {
    base in d.groups && i < |d.groups[base].parity| && d.groups[base].parity[i].Some?
  }

  lemma ShardEffect(code: Code, h: History, d: Dec, header: FECHeader, shard: Bytes, g: Closed)
    requires Honest(h) && Correcting(code, h) && Inv(code, h, d) && |d.ring| == RING_SIZE
    requires Genuine(code, h, Shard(header, shard)) && g in h.groups
    ensures var d' := AddParity(code, d, header, shard).0;
            && d'.ring == d.ring
            && (g.base in d.groups && g.base in d'.groups ==> Retains(d.groups[g.base], d'.groups[g.base]))
            && (header.base == g.base && !Completes(d, Shard(header, shard), g) ==> Stores(d', g.base, header.index))
  {
    hide Honest, Correcting, Inv, AddParity, PresentIn, ParityShards, EvictOldest, Stored;
    var g' :| g' in h.groups && ParityOf(code, g', header, shard);
    ParityYields(code, h, d, header, shard, g');
    if header.base == g.base {
      SameBase(h, g, g');
    } else {
      ParityTouches(code, d, header, shard);
    }
  }

  lemma DataEffect(code: Code, h: History, d: Dec, sn: nat, pkt: Bytes, d': Dec, out: seq<Recovered>, base: nat)
    requires Honest(h) && sn in h.sent && h.sent[sn] == pkt
    requires |d.ring| == RING_SIZE && AddData(code, d, sn, pkt, d', out)
    ensures d'.ring == Record(d, sn, pkt).ring
    ensures base in d'.groups ==> base in d.groups && Retains(d.groups[base], d'.groups[base])
  {
    hide Honest, AddData, Record;
    SentFits(h, sn);
    DataTouches(code, d, sn, pkt, d', out);
  }

  lemma CallEffect(code: Code, h: History, d: Dec, c: Call, g: Closed)
    requires Honest(h) && Correcting(code, h) && Inv(code, h, d)
    requires Happens(code, d, c) && Genuine(code, h, c.input) && g in h.groups
    ensures c.after.ring == RingWith(d, c.input)
    ensures g.base in d.groups && g.base in c.after.groups ==> Retains(d.groups[g.base], c.after.groups[g.base])
    ensures c.input.Shard? && c.input.header.base == g.base && !Completes(d, c.input, g) ==>
              Stores(c.after, g.base, c.input.header.index)
    ensures Completes(d, c.input, g) ==> Whole(h, c.after.ring, g, c.out)
  {
    hide Honest, Correcting, Inv, AddData, AddParity, Has, Completes, Returns, Record, Retains, Stores, ParityOf;
    match c.input {
      case Data(sn, pkt) => DataEffect(code, h, d, sn, pkt, c.after, c.out, g.base);
      case Shard(header, shard) => ShardEffect(code, h, d, header, shard, g);
    }
    forall sn: nat | Covers(g, sn) && Completes(d, c.input, g)
      ensures Has(c.after.ring, sn) || Returns(h, c.out, sn)
    {
      CallReturns(code, h, d, c, g, sn);
    }
  }

  // ----- Runs -----

  function StateAfter(d: Dec, calls: seq<Call>): Dec { if calls == [] then d else calls[|calls| - 1].after }

  lemma {:induction false} LastCall(code: Code, d: Dec, calls: seq<Call>)
    requires IsRun(code, d, calls) && calls != []
    ensures IsRun(code, d, calls[..|calls| - 1])
    ensures Happens(code, StateAfter(d, calls[..|calls| - 1]), calls[|calls| - 1])
    decreases calls
  {
    hide Happens;
    if |calls| > 1 {
      LastCall(code, calls[0].after, calls[1..]);
      assert calls[1..][..|calls| - 2] == calls[..|calls| - 1][1..];
    }
  }

  ghost predicate GotData(calls: seq<Call>, sn: nat) {
    exists c <- calls :: c.input.Data? && c.input.sn == sn
  }

  ghost predicate GotParity(calls: seq<Call>, base: nat, i: nat) {
    exists c <- calls :: c.input.Shard? && c.input.header.base == base && c.input.header.index == i
  }

  ghost predicate WasReturned(h: History, calls: seq<Call>, sn: nat) {
    exists c <- calls :: Returns(h, c.out, sn)
  }

  /** The packet was there at the start, or came, or was recovered. */
  ghost predicate Delivered(h: History, d: Dec, calls: seq<Call>, sn: nat) {
    Has(d.ring, sn) || GotData(calls, sn) || WasReturned(h, calls, sn)
  }

  /** The call neither pushes a packet of the group out of the ring nor prunes or evicts the
      group before it is complete. */
  ghost predicate Untouched(d: Dec, c: Call, g: Closed)
    requires |d.ring| == RING_SIZE
  {
    && (forall sn: nat | Covers(g, sn) && Has(d.ring, sn) :: Has(c.after.ring, sn))
    && (g.base in d.groups && !Completes(d, c.input, g) ==> g.base in c.after.groups)
  }

  ghost predicate Undisturbed(d: Dec, calls: seq<Call>, g: Closed) {
    forall n | 0 <= n < |calls| ::
      var b := StateAfter(d, calls[..n]);
      |b.ring| == RING_SIZE && Untouched(b, calls[n], g)
  }

  /** The shards of the group that arrived are still on hand. */
  ghost predicate OnHandStill(d: Dec, calls: seq<Call>, g: Closed) {
    && (forall sn: nat | Covers(g, sn) && GotData(calls, sn) :: Has(d.ring, sn))
    && (forall i: nat | GotParity(calls, g.base, i) :: Stores(d, g.base, i))
  }

  ghost predicate AllDelivered(h: History, d: Dec, calls: seq<Call>, g: Closed) {
    forall sn: nat | Covers(g, sn) :: Delivered(h, d, calls, sn)
  }

  /** What the ring holds was there at the start or came. */
  ghost predicate RingExplained(d: Dec, calls: seq<Call>, g: Closed) {
    forall sn: nat | Covers(g, sn) && Has(StateAfter(d, calls).ring, sn) :: Has(d.ring, sn) || GotData(calls, sn)
  }

  ghost predicate Progress(h: History, d: Dec, calls: seq<Call>, g: Closed) {
    && RingExplained(d, calls, g)
    && (AllDelivered(h, d, calls, g) || OnHandStill(StateAfter(d, calls), calls, g))
  }

  lemma OneMoreCall(h: History, calls: seq<Call>, c: Call)
    ensures forall sn: nat :: GotData(calls + [c], sn) <==> GotData(calls, sn) || (c.input.Data? && c.input.sn == sn)
    ensures forall base: nat, i: nat ::
              GotParity(calls + [c], base, i)
              <==> GotParity(calls, base, i)
                   || (c.input.Shard? && c.input.header.base == base && c.input.header.index == i)
    ensures forall sn: nat :: WasReturned(h, calls + [c], sn) <==> WasReturned(h, calls, sn) || Returns(h, c.out, sn)
  {
    hide Returns;
    assert c in calls + [c];
    assert forall x <- calls :: x in calls + [c];
    assert forall x <- calls + [c] :: x in calls || x == c;
  }

  lemma RecordHas(d: Dec, sn: nat, pkt: Bytes, x: nat)
    requires |d.ring| == RING_SIZE
    ensures Has(Record(d, sn, pkt).ring, sn)
    ensures Has(Record(d, sn, pkt).ring, x) ==> x == sn || Has(d.ring, x)
  {
  }

  lemma RingWithHas(d: Dec, i: Input, x: nat)
    requires |d.ring| == RING_SIZE
    ensures i.Data? ==> Has(RingWith(d, i), i.sn)
    ensures Has(RingWith(d, i), x) ==> (i.Data? && x == i.sn) || Has(d.ring, x)
  {
    hide Has, Record;
    if i.Data? {
      RecordHas(d, i.sn, i.pkt, x);
    }
  }

  lemma RingStaysExplained(h: History, d: Dec, calls: seq<Call>, c: Call, g: Closed)
    requires RingExplained(d, calls, g) && |StateAfter(d, calls).ring| == RING_SIZE
    requires c.after.ring == RingWith(StateAfter(d, calls), c.input)
    ensures RingExplained(d, calls + [c], g)
  {
    hide Has, RingWith, GotData;
    OneMoreCall(h, calls, c);
    forall sn: nat | Covers(g, sn) && Has(c.after.ring, sn) ensures Has(d.ring, sn) || GotData(calls + [c], sn) {
      RingWithHas(StateAfter(d, calls), c.input, sn);
    }
  }

  lemma StaysOnHand(code: Code, h: History, d: Dec, calls: seq<Call>, c: Call, g: Closed)
    requires Honest(h) && Correcting(code, h) && Inv(code, h, d)
    requires Happens(code, d, c) && Genuine(code, h, c.input) && g in h.groups
    requires OnHandStill(d, calls, g) && Untouched(d, c, g) && !Completes(d, c.input, g)
    ensures OnHandStill(c.after, calls + [c], g)
  {
    hide Honest, Correcting, Inv, Happens, Has, RingWith, GotData, GotParity, Completes, Whole, Genuine;
    CallEffect(code, h, d, c, g);
    OneMoreCall(h, calls, c);
    forall sn: nat | Covers(g, sn) && GotData(calls + [c], sn) ensures Has(c.after.ring, sn) {
      HappensOnRing(code, d, c);
      RingWithHas(d, c.input, sn);
    }
  }

  lemma HappensOnRing(code: Code, d: Dec, c: Call)
    requires Happens(code, d, c)
    ensures |d.ring| == RING_SIZE
  {
    hide AddData, AddParity;
  }

  lemma WholeIsDelivered(h: History, d: Dec, calls: seq<Call>, c: Call, g: Closed)
    requires Whole(h, c.after.ring, g, c.out) && RingExplained(d, calls + [c], g)
    ensures AllDelivered(h, d, calls + [c], g)
  {
    hide Has, GotData, Returns;
    OneMoreCall(h, calls, c);
  }

  lemma DeliveredStays(h: History, d: Dec, calls: seq<Call>, c: Call, g: Closed)
    requires AllDelivered(h, d, calls, g)
    ensures AllDelivered(h, d, calls + [c], g)
  {
    hide Has, GotData, WasReturned;
    OneMoreCall(h, calls, c);
  }

  lemma StepProgress(code: Code, h: History, d: Dec, calls: seq<Call>, c: Call, g: Closed)
    requires Honest(h) && Correcting(code, h) && Inv(code, h, StateAfter(d, calls))
    requires Happens(code, StateAfter(d, calls), c) && Genuine(code, h, c.input) && g in h.groups
    requires Progress(h, d, calls, g)
    requires |StateAfter(d, calls).ring| == RING_SIZE && Untouched(StateAfter(d, calls), c, g)
    ensures Progress(h, d, calls + [c], g)
  {
    hide Honest, Correcting, Inv, Happens, RingExplained, AllDelivered, OnHandStill, Whole, Untouched, Completes,
      Genuine, RingWith;
    var b := StateAfter(d, calls);
    CallEffect(code, h, b, c, g);
    RingStaysExplained(h, d, calls, c, g);
    if AllDelivered(h, d, calls, g) {
      DeliveredStays(h, d, calls, c, g);
    } else if Completes(b, c.input, g) {
      WholeIsDelivered(h, d, calls, c, g);
    } else {
      StaysOnHand(code, h, b, calls, c, g);
    }
  }

  lemma NothingYet(h: History, d: Dec, g: Closed)
    ensures Progress(h, d, [], g)
  {
  }

  lemma UndisturbedPrefix(d: Dec, calls: seq<Call>, c: Call, g: Closed)
    requires Undisturbed(d, calls + [c], g)
    ensures Undisturbed(d, calls, g)
    ensures |StateAfter(d, calls).ring| == RING_SIZE && Untouched(StateAfter(d, calls), c, g)
  {
    hide Untouched, StateAfter;
    var all := calls + [c];
    assert all[..|calls|] == calls && all[|calls|] == c;
    forall n | 0 <= n < |calls|
      ensures |StateAfter(d, calls[..n]).ring| == RING_SIZE && Untouched(StateAfter(d, calls[..n]), calls[n], g)
    {
      assert all[..n] == calls[..n] && all[n] == calls[n];
    }
  }

  lemma {:induction false} RunProgress(code: Code, h: History, d: Dec, calls: seq<Call>, g: Closed)
    requires Honest(h) && Correcting(code, h) && Inv(code, h, d) && g in h.groups
    requires IsRun(code, d, calls) && (forall c <- calls :: Genuine(code, h, c.input)) && Undisturbed(d, calls, g)
    ensures Progress(h, d, calls, g) && Inv(code, h, StateAfter(d, calls))
  {
    hide Honest, Correcting, Inv, Progress, Undisturbed, Untouched, IsRun, Happens, Genuine;
    if calls == [] {
      NothingYet(h, d, g);
    } else {
      var prev, c := calls[..|calls| - 1], calls[|calls| - 1];
      assert calls == prev + [c];
      assert forall x <- prev :: x in calls;
      assert c in calls;
      LastCall(code, d, calls);
      UndisturbedPrefix(d, prev, c, g);
      RunProgress(code, h, d, prev, g);
      CallKeeps(code, h, StateAfter(d, prev), c);
      StepProgress(code, h, d, prev, c, g);
    }
  }

  // ----- Counting -----

  lemma {:induction false} NumbersPresent(ring: seq<Slot>, base: nat, n: nat, nums: set<nat>)
    requires forall sn <- nums :: base <= sn < base + n && Has(ring, sn)
    ensures |nums| <= PresentIn(ring, base, n)
  {
    hide Has;
    if n == 0 {
      assert nums == {};
    } else {
      var top := base + n - 1;
      NumbersPresent(ring, base, n - 1, nums - {top});
    }
  }

  lemma {:induction false} IndicesPresent(parity: seq<Option<Bytes>>, idx: set<nat>)
    requires forall i <- idx :: i < |parity| && parity[i].Some?
    ensures |idx| <= Present(parity)
  {
    if parity == [] {
      assert idx == {};
    } else {
      var top := |parity| - 1;
      IndicesPresent(parity[..top], idx - {top});
    }
  }

  lemma {:induction false} AllNumbers(nums: set<nat>, base: nat, n: nat)
    requires forall sn <- nums :: base <= sn < base + n
    ensures |nums| <= n
    ensures |nums| == n ==> forall sn: nat | base <= sn < base + n :: sn in nums
  {
    if n == 0 {
      assert nums == {};
    } else {
      AllNumbers(nums - {base + n - 1}, base, n - 1);
    }
  }

  /** K shards on hand would have completed a tracked group. */
  lemma EnoughIsComplete(code: Code, h: History, d: Dec, g: Closed, nums: set<nat>, idx: set<nat>)
    requires Honest(h) && Correcting(code, h) && Inv(code, h, d) && g in h.groups && idx != {}
    requires forall sn <- nums :: Covers(g, sn) && Has(d.ring, sn)
    requires forall i <- idx :: Stores(d, g.base, i)
    ensures |nums| + |idx| < |g.members|
  {
    hide Honest, Correcting, RingOk, GroupsKnown, Has, Matches, PresentIn;
    var i :| i in idx;
    assert Stores(d, g.base, i);
    var x := d.groups[g.base];
    KnownAt(code, h, d, g.base);
    TrackedMatches(code, h, x, g);
    MatchFacts(code, x, g);
    GotIsPresent(code, x, g);
    NumbersPresent(d.ring, g.base, |g.members|, nums);
    IndicesPresent(x.parity, idx);
    assert Short(d.ring, x);
  }

  lemma GotIsPresent(code: Code, x: RxGroup, g: Closed)
    requires Matches(code, x, g)
    ensures x.got == Present(x.parity)
  {
  }

  /** Completeness over runs: if at least K different shards of a closed group arrive, packets
      `nums` and parity shards `idx`, and no call disturbs the group before it is complete, then
      every packet of the group was there, came or was returned. */
  lemma RunCompletes(code: Code, h: History, d: Dec, calls: seq<Call>, g: Closed, nums: set<nat>, idx: set<nat>)
    requires Honest(h) && Correcting(code, h) && Inv(code, h, d) && g in h.groups
    requires IsRun(code, d, calls) && (forall c <- calls :: Genuine(code, h, c.input)) && Undisturbed(d, calls, g)
    requires forall sn <- nums :: Covers(g, sn) && GotData(calls, sn)
    requires forall i <- idx :: GotParity(calls, g.base, i)
    requires |nums| + |idx| >= |g.members|
    ensures forall sn: nat | Covers(g, sn) :: Delivered(h, d, calls, sn)
  {
    hide Honest, Correcting, Inv, Undisturbed, IsRun, Genuine, GotData, GotParity, Has, StateAfter;
    RunProgress(code, h, d, calls, g);
    if !AllDelivered(h, d, calls, g) {
      if idx != {} {
        EnoughIsComplete(code, h, StateAfter(d, calls), g, nums, idx);
      } else {
        AllNumbers(nums, g.base, |g.members|);
      }
    }
  }

  // ----- When a group is left alone -----

  /** Numbers that neither share a slot with the group's nor make it stale. */
  predicate Near(g: Closed, sn: nat) {
    g.base + |g.members| <= sn + RING_SIZE && sn <= g.base + RING_SIZE - MAX_FEC_SHARDS
  }

  lemma SlotsApart(a: nat, b: nat)
    requires a < b + RING_SIZE && b < a + RING_SIZE && a % RING_SIZE == b % RING_SIZE
    ensures a == b
  {
  }

  /** A shard under this base evicts no group, or an older one than `g`. */
  ghost predicate HasRoom(d: Dec, base: nat, g: Closed) {
    base in d.groups || |d.groups| < 64 || exists b <- d.groups :: b < g.base
  }

  /** While packet numbers stay near the group, and a new group finds room in the table or an older
      one to replace, nothing disturbs the group. */
  lemma NearIsUntouched(code: Code, h: History, d: Dec, c: Call, g: Closed)
    requires Honest(h) && Correcting(code, h) && Inv(code, h, d) && |d.ring| == RING_SIZE
    requires Happens(code, d, c) && Genuine(code, h, c.input) && g in h.groups
    requires d.highest <= g.base + RING_SIZE - MAX_FEC_SHARDS && (c.input.Data? ==> Near(g, c.input.sn))
    requires c.input.Shard? ==> HasRoom(d, c.input.header.base, g)
    ensures Untouched(d, c, g)
    ensures c.after.highest <= g.base + RING_SIZE - MAX_FEC_SHARDS
  {
    hide Honest, Correcting, Inv, AddData, AddParity, Completes;
    CallEffect(code, h, d, c, g);
    match c.input {
      case Data(sn, pkt) => NearData(code, h, d, sn, pkt, c.after, c.out, g);
      case Shard(header, shard) => RoomyParity(code, h, d, header, shard, g);
    }
  }

  ghost predicate CalmInput(d: Dec, i: Input, g: Closed) {
    (i.Data? ==> Near(g, i.sn)) && (i.Shard? ==> HasRoom(d, i.header.base, g))
  }

  /** Packet numbers stay near the group and every new group finds room or an older one. */
  ghost predicate Calm(d: Dec, calls: seq<Call>, g: Closed) {
    forall n | 0 <= n < |calls| :: CalmInput(StateAfter(d, calls[..n]), calls[n].input, g)
  }

  lemma CalmPrefix(d: Dec, calls: seq<Call>, c: Call, g: Closed)
    requires Calm(d, calls + [c], g)
    ensures Calm(d, calls, g) && CalmInput(StateAfter(d, calls), c.input, g)
  {
    hide CalmInput, StateAfter;
    var all := calls + [c];
    assert all[..|calls|] == calls && all[|calls|] == c;
    forall n | 0 <= n < |calls| ensures CalmInput(StateAfter(d, calls[..n]), calls[n].input, g) {
      assert all[..n] == calls[..n] && all[n] == calls[n];
    }
  }

  lemma UndisturbedExtends(d: Dec, calls: seq<Call>, c: Call, g: Closed)
    requires Undisturbed(d, calls, g)
    requires |StateAfter(d, calls).ring| == RING_SIZE && Untouched(StateAfter(d, calls), c, g)
    ensures Undisturbed(d, calls + [c], g)
  {
    hide Untouched, StateAfter;
    var all := calls + [c];
    forall n | 0 <= n < |all|
      ensures |StateAfter(d, all[..n]).ring| == RING_SIZE && Untouched(StateAfter(d, all[..n]), all[n], g)
    {
      if n < |calls| {
        assert all[..n] == calls[..n] && all[n] == calls[n];
      } else {
        assert all[..n] == calls && all[n] == c;
      }
    }
  }

  lemma {:induction false} CalmIsUndisturbed(code: Code, h: History, d: Dec, calls: seq<Call>, g: Closed)
    requires Honest(h) && Correcting(code, h) && Inv(code, h, d) && g in h.groups
    requires IsRun(code, d, calls) && (forall c <- calls :: Genuine(code, h, c.input)) && Calm(d, calls, g)
    requires d.highest <= g.base + RING_SIZE - MAX_FEC_SHARDS
    ensures Undisturbed(d, calls, g) && Inv(code, h, StateAfter(d, calls))
    ensures StateAfter(d, calls).highest <= g.base + RING_SIZE - MAX_FEC_SHARDS
  {
    if calls != [] {
      hide Honest, Correcting, Inv, Undisturbed, Untouched, IsRun, Happens, Genuine, Calm, CalmInput;
      var prev, c := calls[..|calls| - 1], calls[|calls| - 1];
      assert calls == prev + [c];
      assert forall x <- prev :: x in calls;
      assert c in calls;
      LastCall(code, d, calls);
      CalmPrefix(d, prev, c, g);
      CalmIsUndisturbed(code, h, d, prev, g);
      CallKeeps(code, h, StateAfter(d, prev), c);
      HappensOnRing(code, StateAfter(d, prev), c);
      CalmCall(code, h, StateAfter(d, prev), c, g);
      UndisturbedExtends(d, prev, c, g);
    }
  }

  lemma CalmCall(code: Code, h: History, d: Dec, c: Call, g: Closed)
    requires Honest(h) && Correcting(code, h) && Inv(code, h, d) && |d.ring| == RING_SIZE
    requires Happens(code, d, c) && Genuine(code, h, c.input) && g in h.groups
    requires d.highest <= g.base + RING_SIZE - MAX_FEC_SHARDS && CalmInput(d, c.input, g)
    ensures Untouched(d, c, g)
    ensures c.after.highest <= g.base + RING_SIZE - MAX_FEC_SHARDS
  {
    hide Honest, Correcting, Inv, Untouched, Happens, Genuine, Near;
    NearIsUntouched(code, h, d, c, g);
  }

  /** Hence, from a new decoder: K different shards that arrive while packet numbers stay within a
      ring's length of the group and the table has room give every packet of the group. */
  lemma CalmRunCompletes(code: Code, h: History, calls: seq<Call>, g: Closed, nums: set<nat>, idx: set<nat>)
    requires Honest(h) && Correcting(code, h) && g in h.groups
    requires IsRun(code, NewDecoder(), calls) && (forall c <- calls :: Genuine(code, h, c.input))
    requires Calm(NewDecoder(), calls, g)
    requires forall sn <- nums :: Covers(g, sn) && GotData(calls, sn)
    requires forall i <- idx :: GotParity(calls, g.base, i)
    requires |nums| + |idx| >= |g.members|
    ensures forall sn: nat | Covers(g, sn) :: GotData(calls, sn) || WasReturned(h, calls, sn)
  {
    hide Honest, Correcting, Inv, Undisturbed, IsRun, Genuine, GotData, GotParity, WasReturned, Calm;
    NewDecoderIsFine(code, h);
    CalmIsUndisturbed(code, h, NewDecoder(), calls, g);
    RunCompletes(code, h, NewDecoder(), calls, g, nums, idx);
    assert forall sn: nat :: !Has(NewDecoder().ring, sn);
  }

  lemma NearData(code: Code, h: History, d: Dec, sn: nat, pkt: Bytes, d': Dec, out: seq<Recovered>, g: Closed)
    requires Honest(h) && Correcting(code, h) && Inv(code, h, d) && |d.ring| == RING_SIZE
    requires sn in h.sent && h.sent[sn] == pkt && AddData(code, d, sn, pkt, d', out)
    requires g in h.groups && d.highest <= g.base + RING_SIZE - MAX_FEC_SHARDS && Near(g, sn)
    ensures forall x: nat | Covers(g, x) && Has(d.ring, x) :: Has(Record(d, sn, pkt).ring, x)
    ensures g.base in d.groups && !Completes(d, Data(sn, pkt), g) ==> g.base in d'.groups
    ensures d'.highest <= g.base + RING_SIZE - MAX_FEC_SHARDS
  {
    hide Honest, Correcting, Inv, PresentIn, Oversized, DataPart, Harvest;
    SentFits(h, sn);
    SlotKept(d, sn, pkt, g);
    assert g.base in d.groups ==> g.base in Prune(Record(d, sn, pkt)).groups;
    NotCoveredStays(code, h, d, sn, pkt, d', out, g);
  }

  lemma SlotKept(d: Dec, sn: nat, pkt: Bytes, g: Closed)
    requires |d.ring| == RING_SIZE && Near(g, sn)
    ensures forall x: nat | Covers(g, x) && Has(d.ring, x) :: Has(Record(d, sn, pkt).ring, x)
  {
    forall x: nat | Covers(g, x) && Has(d.ring, x) ensures Has(Record(d, sn, pkt).ring, x) {
      if x % RING_SIZE == sn % RING_SIZE {
        SlotsApart(x, sn);
      }
    }
  }

  lemma NotCoveredStays(code: Code, h: History, d: Dec, sn: nat, pkt: Bytes, d': Dec, out: seq<Recovered>, g: Closed)
    requires Honest(h) && Correcting(code, h) && Inv(code, h, d) && |d.ring| == RING_SIZE
    requires sn in h.sent && h.sent[sn] == pkt && AddData(code, d, sn, pkt, d', out) && g in h.groups
    ensures g.base in Prune(Record(d, sn, pkt)).groups && !Completes(d, Data(sn, pkt), g) ==> g.base in d'.groups
  {
    hide Honest, Correcting, PresentIn, RingOk, GroupsKnown, AllShort, Oversized, DataPart, Harvest, Known;
    SentFits(h, sn);
    var d1 := Prune(Record(d, sn, pkt));
    if Covers(g, sn) {
      DataYields(code, h, d, sn, pkt, d', out, g);
    } else if g.base in d1.groups {
      PruneKeeps(code, h, Record(d, sn, pkt));
      KnownAt(code, h, d1, g.base);
      TrackedMatches(code, h, d1.groups[g.base], g);
      MatchFacts(code, d1.groups[g.base], g);
      assert g.base !in Covering(d1, sn);
      forall b <- d1.groups ensures d1.groups[b].base == b {
        KnownAt(code, h, d1, b);
        BaseOf(code, h, b, d1.groups[b]);
      }
    }
  }

  lemma BaseOf(code: Code, h: History, base: nat, x: RxGroup)
    requires Known(code, h, base, x)
    ensures x.base == base
  {
  }

  lemma RoomyParity(code: Code, h: History, d: Dec, header: FECHeader, shard: Bytes, g: Closed)
    requires Honest(h) && Correcting(code, h) && Inv(code, h, d)
    requires Genuine(code, h, Shard(header, shard)) && g in h.groups && |d.ring| == RING_SIZE
    requires HasRoom(d, header.base, g)
    ensures g.base in d.groups && !Completes(d, Shard(header, shard), g) ==>
              g.base in AddParity(code, d, header, shard).0.groups
    ensures AddParity(code, d, header, shard).0.highest == d.highest
  {
    hide Honest, Correcting, RingOk, GroupsKnown, AllShort, PresentIn, Oversized, DataPart, Harvest,
      ParityShards;
    var g' :| g' in h.groups && ParityOf(code, g', header, shard);
    if header.base == g.base {
      ParityYields(code, h, d, header, shard, g');
      SameBase(h, g, g');
    } else {
      FiledCounts(code, h, d, header, shard, g');
      MatchFacts(code, Filed(d, header, shard), g');
    }
    ParityKeepsHighest(code, d, header, shard);
  }

  // ----- What the tables forget -----

  /** A packet makes the decoder forget exactly the groups that begin more than 241 numbers below the
      highest packet seen, once that is at least 256; every other group that it does not complete
      stays. */
  lemma ForgottenIff(d: Dec, base: nat)
    ensures base in Prune(d).groups <==> base in d.groups && !(d.highest >= 256 && base + 241 < d.highest)
    ensures Prune(d).failed - d.failed == |d.groups| - |Prune(d).groups|
  {
    assert Stale(d) <= d.groups.Keys;
    assert Prune(d).groups.Keys == d.groups.Keys - Stale(d);
  }

  /** The highest packet seen. */
  lemma HighestIs(d: Dec, sn: nat, pkt: Bytes)
    requires |d.ring| == RING_SIZE
    ensures var e := Record(d, sn, pkt);
            e.started && (!d.started ==> e.highest == sn) && (d.started ==> e.highest == Max(d.highest, sn))
  {
  }

  /** A new group in a full table of 64 replaces exactly the one with the lowest base, which counts as
      failed. */
  lemma EvictsLowest(d: Dec, header: FECHeader, size: nat, base: nat)
    requires header.base !in d.groups && base in d.groups && |d.groups| <= 64
    ensures var e := Track(d, header, size);
            && (base !in e.groups <==> |d.groups| == 64 && forall b <- d.groups :: base <= b)
            && e.failed == d.failed + if |d.groups| == 64 then 1 else 0
  {
  }

  /** A shard that does not agree with the tracked group about K, R or the size changes nothing; nor
      does a packet or a shard of more than 2048 bytes. */
  lemma MisfitsIgnored(code: Code, d: Dec, header: FECHeader, shard: Bytes, sn: nat, pkt: Bytes)
    requires |d.ring| == RING_SIZE
    ensures header.base in d.groups
            && (var x := d.groups[header.base]; header.k != x.k || header.r != x.r || |shard| != x.shardSize) ==>
              AddParity(code, d, header, shard) == (d, [])
    ensures |shard| > 2048 ==> AddParity(code, d, header, shard) == (d, [])
    ensures |pkt| > 2048 ==> AddData(code, d, sn, pkt, d, [])
  {
    hide TryReconstruct;
  }

  /** Nothing is rebuilt while the ring holds a packet of the group that is longer than its shards,
      as no honest sender makes one. */
  lemma LongPacketBlocks(code: Code, d: Dec, x: RxGroup, sn: nat)
    requires |d.ring| == RING_SIZE && x.base <= sn < x.base + x.k
    requires Has(d.ring, sn) && |d.ring[sn % RING_SIZE].pkt| > x.shardSize
    ensures TryReconstruct(code, d, x).1 == []
    ensures PresentIn(d.ring, x.base, x.k) < x.k ==> TryReconstruct(code, d, x).0 == d
  {
    LongIsOversized(d.ring, x.base, x.shardSize, x.k, sn);
  }

  lemma {:induction false} LongIsOversized(ring: seq<Slot>, base: nat, size: nat, n: nat, sn: nat)
    requires |ring| == RING_SIZE && base <= sn < base + n && Has(ring, sn) && |ring[sn % RING_SIZE].pkt| > size
    ensures Oversized(ring, base, size, n)
  {
    if sn < base + n - 1 {
      LongIsOversized(ring, base, size, n - 1, sn);
    }
  }

  lemma ParityKeepsHighest(code: Code, d: Dec, header: FECHeader, shard: Bytes)
    ensures AddParity(code, d, header, shard).0.highest == d.highest
  {
    hide PresentIn, Oversized, DataPart, Harvest;
  }
}
