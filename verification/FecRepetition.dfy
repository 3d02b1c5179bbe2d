/** Exactly which call of the decoder returns which packet, and therefore when a packet is
    returned more than once. */
module FecRepetition {
  import opened Common
  import opened Wire
  import opened ErasureCodes
  import opened FecEncoderSpec
  import opened FecDecoderSpec
  import opened FecRecovery
  import opened FecEndToEnd

  // ----- What a parity shard yields -----

  /** Parity shards of the group stored once this one has been filed. */
  function Stored(d: Dec, header: FECHeader): nat {
    if header.base !in d.groups then 1
    else
      var x := d.groups[header.base];
      x.got + if header.index < |x.parity| && x.parity[header.index].Some? then 0 else 1
  }

  /** The usable shards of the group: packets in the ring and stored parity, this shard included. */
  function OnHand(d: Dec, header: FECHeader): nat {
    PresentIn(d.ring, header.base, header.k) + Stored(d, header)
  }

  /** The group as it stands once the shard has been filed. */
  ghost function Filed(d: Dec, header: FECHeader, shard: Bytes): RxGroup
    requires header.base in Track(d, header, |shard|).groups
    requires header.index < |Track(d, header, |shard|).groups[header.base].parity|
  {
    Store(Track(d, header, |shard|).groups[header.base], header.index, shard)
  }

  lemma FiledCounts(code: Code, h: History, d: Dec, header: FECHeader, shard: Bytes, g: Closed)
    requires Honest(h) && Correcting(code, h) && GroupsKnown(code, h, d.groups) && |d.groups| <= MAX_GROUPS
    requires g in h.groups && ParityOf(code, g, header, shard)
    ensures |shard| == MaxLen(g.members) <= SHARD_CAP
    ensures var d1 := Track(d, header, |shard|);
            && d1.ring == d.ring && |d1.groups| <= MAX_GROUPS
            && header.base in d1.groups && header.index < |d1.groups[header.base].parity|
            && Matches(code, d1.groups[header.base], g)
            && Matches(code, Filed(d, header, shard), g)
            && Filed(d, header, shard).got == Stored(d, header)
            && (forall b <- d1.groups :: b != header.base ==> b in d.groups && d1.groups[b] == d.groups[b])
  {
    hide Honest, Correcting, GroupsKnown, ParityShards, EvictOldest;
    ParitySize(code, h, g);
    assert shard in ParityShards(code, g);
    TrackKeeps(code, h, d, header, g, shard);
    StoreMatches(code, Track(d, header, |shard|).groups[header.base], g, header.index, shard);
  }

  /** A genuine shard returns every missing packet of its group if that has K usable shards with
      it, and nothing otherwise; and the group stays tracked exactly in the second case. */
  lemma ParityYields(code: Code, h: History, d: Dec, header: FECHeader, shard: Bytes, g: Closed)
    requires Honest(h) && Correcting(code, h) && Inv(code, h, d)
    requires g in h.groups && ParityOf(code, g, header, shard)
    ensures var (d', out) := AddParity(code, d, header, shard);
            && Inv(code, h, d') && d'.ring == d.ring
            && out == (if OnHand(d, header) >= |g.members| then Lacking(h, d.ring, g.base, |g.members|) else [])
            && (g.base in d'.groups <==> OnHand(d, header) < |g.members|)
            && (g.base in d'.groups ==> |shard| == MaxLen(g.members)
                                        && header.base in Track(d, header, |shard|).groups
                                        && header.index < |Track(d, header, |shard|).groups[header.base].parity|
                                        && d'.groups[g.base] == Filed(d, header, shard))
  {
    hide Honest, RingOk, GroupsKnown, AllShort, TryReconstruct, Track, ParityShards, Store, Stored;
    AddParityKeeps(code, h, d, header, shard);
    FiledCounts(code, h, d, header, shard, g);
    var d1 := Track(d, header, |shard|);
    var x := Filed(d, header, shard);
    var d2 := d1.(groups := d1.groups[header.base := x]);
    ReconstructIsExact(code, h, d2, x, g);
  }

  // ----- What any call yields -----

  /** This input brings the group to K usable shards. */
  predicate Completes(d: Dec, i: Input, g: Closed)
    requires |d.ring| == RING_SIZE
  {
    match i
    case Shard(header, _) => header.base == g.base && OnHand(d, header) >= |g.members|
    case Data(sn, pkt) =>
      var d1 := Prune(Record(d, sn, pkt));
      && Covers(g, sn) && g.base in d1.groups
      && PresentIn(d1.ring, g.base, |g.members|) + d1.groups[g.base].got >= |g.members|
  }

  /** The ring once the input is recorded. */
  function RingWith(d: Dec, i: Input): seq<Slot>
    requires |d.ring| == RING_SIZE
  {
    if i.Data? then Record(d, i.sn, i.pkt).ring else d.ring
  }

  ghost predicate Returns(h: History, out: seq<Recovered>, sn: nat) {
    sn in h.sent && Recovered(sn, h.sent[sn]) in out
  }

  /** The missing packets of one group are those, and none of another group's. */
  lemma LackingOf(h: History, ring: seq<Slot>, g: Closed, g': Closed, sn: nat)
    requires Honest(h) && g in h.groups && g' in h.groups && Covers(g, sn)
    ensures Returns(h, Lacking(h, ring, g'.base, |g'.members|), sn) <==> g == g' && !Has(ring, sn)
  {
    hide Honest, Has, Faithful;
    GroupIsFaithful(h, g);
    MemberWasSent(h, g, sn - g.base);
    LackingMeans(h, ring, g'.base, |g'.members|);
    if Covers(g', sn) {
      OneGroupCovers(h, g, g', sn);
    }
  }

  lemma BaseIsCovered(h: History, g: Closed)
    requires Honest(h) && g in h.groups
    ensures Covers(g, g.base)
  {
    assert Faithful(h, g);
  }

  lemma ShardReturns(code: Code, h: History, d: Dec, header: FECHeader, shard: Bytes, g: Closed, sn: nat)
    requires Honest(h) && Correcting(code, h) && Inv(code, h, d) && |d.ring| == RING_SIZE
    requires Genuine(code, h, Shard(header, shard)) && g in h.groups && Covers(g, sn)
    ensures Returns(h, AddParity(code, d, header, shard).1, sn)
            <==> Completes(d, Shard(header, shard), g) && !Has(d.ring, sn)
  {
    hide Honest, Correcting, Inv, AddParity, OnHand, Covers, Has, Lacking, ParityShards, Track, Store;
    var g' :| g' in h.groups && ParityOf(code, g', header, shard);
    ParityYields(code, h, d, header, shard, g');
    LackingOf(h, d.ring, g, g', sn);
    if g'.base == g.base {
      BaseIsCovered(h, g);
      BaseIsCovered(h, g');
      SameBase(h, g, g');
    }
  }

  lemma SameBase(h: History, g: Closed, g': Closed)
    requires Honest(h) && g in h.groups && g' in h.groups && g.base == g'.base
    ensures g == g'
  {
    hide Honest;
    BaseIsCovered(h, g);
    BaseIsCovered(h, g');
    OneGroupCovers(h, g, g', g.base);
  }

  /** What a data packet yields: every missing packet of the tracked group it belongs to, if that
      now has K usable shards, and nothing otherwise; a tracked group survives exactly if it has
      not become stale and is not completed. */
  lemma DataYields(code: Code, h: History, d: Dec, sn: nat, pkt: Bytes, d': Dec, out: seq<Recovered>, g: Closed)
    requires Honest(h) && Correcting(code, h) && Inv(code, h, d) && |d.ring| == RING_SIZE
    requires sn in h.sent && h.sent[sn] == pkt && AddData(code, d, sn, pkt, d', out)
    requires g in h.groups && Covers(g, sn)
    ensures out == if Completes(d, Data(sn, pkt), g)
                   then Lacking(h, Record(d, sn, pkt).ring, g.base, |g.members|) else []
    ensures d'.ring == Record(d, sn, pkt).ring
    ensures g.base in d'.groups <==>
              g.base in Prune(Record(d, sn, pkt)).groups && !Completes(d, Data(sn, pkt), g)
    ensures g.base in d'.groups ==> g.base in d.groups && d'.groups[g.base] == d.groups[g.base]
  {
    hide Honest, Correcting, GroupsKnown, TryReconstruct, RingOk, Known, Matches;
    SentFits(h, sn);
    var d0 := Record(d, sn, pkt);
    var d1 := Prune(d0);
    RecordKeepsRing(h, d, sn, pkt);
    PruneKeeps(code, h, d0);
    if Covering(d1, sn) != {} {
      var base :| base in Covering(d1, sn) && base in d1.groups
                  && (d', out) == TryReconstruct(code, d1, d1.groups[base]);
      CoveringIs(code, h, d1, sn, base, g);
      assert ErasureCode(code, |g.members|, g.r) by { CorrectsGroup(code, h, g); }
      ReconstructIsExact(code, h, d1, d1.groups[base], g);
    } else if g.base in d1.groups {
      KnownAt(code, h, d1, g.base);
      TrackedMatches(code, h, d1.groups[g.base], g);
      MatchFacts(code, d1.groups[g.base], g);
    }
  }

  lemma CorrectsGroup(code: Code, h: History, g: Closed)
    requires Correcting(code, h) && g in h.groups
    ensures ErasureCode(code, |g.members|, g.r)
  {
  }

  lemma SentFits(h: History, sn: nat)
    requires Honest(h) && sn in h.sent
    ensures |h.sent[sn]| <= SHARD_CAP
  {
  }

  /** The tracked group that covers a number is the closed group that covers it. */
  lemma CoveringIs(code: Code, h: History, d: Dec, sn: nat, base: nat, g: Closed)
    requires Honest(h) && Correcting(code, h) && GroupsKnown(code, h, d.groups)
    requires base in Covering(d, sn) && g in h.groups && Covers(g, sn)
    ensures base == g.base && base in d.groups && Matches(code, d.groups[base], g)
    ensures d.groups[base].k == |g.members| && d.groups[base].base == base
  {
    hide Honest, Correcting, GroupsKnown, Matches;
    KnownAt(code, h, d, base);
    var g' :| g' in h.groups && Matches(code, d.groups[base], g');
    MatchFacts(code, d.groups[base], g');
    OneGroupCovers(h, g, g', sn);
  }

  lemma TrackedIsCovered(code: Code, h: History, d: Dec, sn: nat)
    requires GroupsKnown(code, h, d.groups)
    ensures Covering(d, sn) != {} ==> exists g <- h.groups :: Covers(g, sn)
  {
    if base :| base in Covering(d, sn) {
      assert Known(code, h, base, d.groups[base]);
      var g :| g in h.groups && Matches(code, d.groups[base], g);
      assert Covers(g, sn);
    }
  }

  /** A packet outside every group yields nothing. */
  lemma UncoveredYieldsNothing(code: Code, h: History, d: Dec, sn: nat, pkt: Bytes, d': Dec, out: seq<Recovered>)
    requires Inv(code, h, d) && |d.ring| == RING_SIZE && AddData(code, d, sn, pkt, d', out)
    requires forall g <- h.groups :: !Covers(g, sn)
    ensures out == []
  {
    hide RingOk, TryReconstruct, GroupsKnown;
    PruneKeeps(code, h, Record(d, sn, pkt));
    TrackedIsCovered(code, h, Prune(Record(d, sn, pkt)), sn);
  }

  lemma DataReturns(code: Code, h: History, d: Dec, sn: nat, pkt: Bytes, d': Dec, out: seq<Recovered>,
                    g: Closed, x: nat)
    requires Honest(h) && Correcting(code, h) && Inv(code, h, d) && |d.ring| == RING_SIZE
    requires sn in h.sent && h.sent[sn] == pkt && AddData(code, d, sn, pkt, d', out)
    requires g in h.groups && Covers(g, x)
    ensures Returns(h, out, x) <==> Completes(d, Data(sn, pkt), g) && !Has(Record(d, sn, pkt).ring, x)
  {
    hide Honest, Correcting, Inv, AddData, Has, Lacking, Record, Prune;
    if g' :| g' in h.groups && Covers(g', sn) {
      DataYields(code, h, d, sn, pkt, d', out, g');
      LackingOf(h, Record(d, sn, pkt).ring, g, g', x);
      if Covers(g, sn) {
        OneGroupCovers(h, g, g', sn);
      }
    } else {
      UncoveredYieldsNothing(code, h, d, sn, pkt, d', out);
    }
  }

  /** Exactly which packets a call returns: those of the group it brings to K usable shards that
      the ring lacks.  A packet is returned again by every further call of which this holds. */
  lemma CallReturns(code: Code, h: History, d: Dec, c: Call, g: Closed, sn: nat)
    requires Honest(h) && Correcting(code, h) && Inv(code, h, d)
    requires Happens(code, d, c) && Genuine(code, h, c.input)
    requires g in h.groups && Covers(g, sn)
    ensures Returns(h, c.out, sn) <==> Completes(d, c.input, g) && !Has(RingWith(d, c.input), sn)
  {
    hide Honest, Correcting, Inv, AddData, AddParity, Has, Record, Completes, Returns;
    match c.input
    case Data(x, pkt) => DataReturns(code, h, d, x, pkt, c.after, c.out, g, sn);
    case Shard(header, shard) => ShardReturns(code, h, d, header, shard, g, sn);
  }

  // ----- Eagerness -----

  /** Every packet of the group is in the ring or has just been returned. */
  ghost predicate Whole(h: History, ring: seq<Slot>, g: Closed, out: seq<Recovered>) {
    forall sn: nat | Covers(g, sn) :: Has(ring, sn) || Returns(h, out, sn)
  }

  lemma LackingMakesWhole(h: History, ring: seq<Slot>, g: Closed)
    requires Honest(h) && g in h.groups
    ensures Whole(h, ring, g, Lacking(h, ring, g.base, |g.members|))
  {
    hide Honest, Has, Lacking, Returns;
    forall sn: nat | Covers(g, sn) ensures Has(ring, sn) || Returns(h, Lacking(h, ring, g.base, |g.members|), sn) {
      LackingOf(h, ring, g, g, sn);
    }
  }

  /** The call that brings a group to K usable shards completes it: after a parity shard its
      group is still tracked and short of shards, or every packet of it is there. */
  lemma ParityCompletes(code: Code, h: History, d: Dec, header: FECHeader, shard: Bytes, g: Closed)
    requires Honest(h) && Correcting(code, h) && Inv(code, h, d)
    requires g in h.groups && ParityOf(code, g, header, shard)
    ensures var (d', out) := AddParity(code, d, header, shard);
            (g.base in d'.groups && Short(d'.ring, d'.groups[g.base])) || Whole(h, d.ring, g, out)
  {
    hide Honest, Correcting, RingOk, GroupsKnown, AddParity, OnHand, Whole, Lacking, Short, ParityOf;
    ParityYields(code, h, d, header, shard, g);
    LackingMakesWhole(h, d.ring, g);
  }

  /** Likewise after a data packet, for the group it belongs to if that is tracked. */
  lemma DataCompletes(code: Code, h: History, d: Dec, sn: nat, pkt: Bytes, d': Dec, out: seq<Recovered>, g: Closed)
    requires Honest(h) && Correcting(code, h) && Inv(code, h, d) && |d.ring| == RING_SIZE
    requires sn in h.sent && h.sent[sn] == pkt && AddData(code, d, sn, pkt, d', out)
    requires g in h.groups && Covers(g, sn) && g.base in Prune(Record(d, sn, pkt)).groups
    ensures (g.base in d'.groups && Short(d'.ring, d'.groups[g.base]))
            || Whole(h, Record(d, sn, pkt).ring, g, out)
  {
    hide Honest, Correcting, RingOk, GroupsKnown, AddData, Completes, Whole, Lacking, Short, Record, Prune;
    DataYields(code, h, d, sn, pkt, d', out, g);
    AddDataKeeps(code, h, d, sn, pkt, d', out);
    LackingMakesWhole(h, Record(d, sn, pkt).ring, g);
  }

  // ----- Returned again -----

  /** What the decoder becomes and returns when it is handed these shards one after another. */
  ghost function Fed(code: Code, d: Dec, ps: seq<Parity>): (Dec, seq<Recovered>) {
    if ps == [] then (d, [])
    else
      var (d1, out1) := Fed(code, d, ps[..|ps| - 1]);
      var (d2, out2) := AddParity(code, d1, ps[|ps| - 1].header, ps[|ps| - 1].shard);
      (d2, out1 + out2)
  }

  ghost predicate HasIndex(ps: seq<Parity>, i: nat) {
    exists p <- ps :: p.header.index == i
  }

  /** Different shards of the group. */
  ghost predicate Batch(code: Code, ps: seq<Parity>, g: Closed) {
    ps == [] ||
    var p := ps[|ps| - 1];
    && ParityOf(code, g, p.header, p.shard)
    && !HasIndex(ps[..|ps| - 1], p.header.index)
    && Batch(code, ps[..|ps| - 1], g)
  }

  /** Exactly these shards are stored. */
  ghost predicate Holding(x: RxGroup, ps: seq<Parity>) {
    x.got == |ps| && forall i | 0 <= i < |x.parity| :: x.parity[i].Some? <==> HasIndex(ps, i)
  }

  ghost predicate Awaits(d: Dec, ps: seq<Parity>, base: nat) {
    if ps == [] then base !in d.groups else base in d.groups && Holding(d.groups[base], ps)
  }

  lemma FiledHolds(code: Code, h: History, d: Dec, ps: seq<Parity>, p: Parity, g: Closed)
    requires Honest(h) && Correcting(code, h) && Inv(code, h, d)
    requires g in h.groups && ParityOf(code, g, p.header, p.shard)
    requires Awaits(d, ps, g.base) && !HasIndex(ps, p.header.index)
    ensures Stored(d, p.header) == |ps| + 1
    ensures var d1 := Track(d, p.header, |p.shard|);
            && p.header.base in d1.groups && p.header.index < |d1.groups[p.header.base].parity|
            && Holding(Filed(d, p.header, p.shard), ps + [p])
  {
    hide Honest, Correcting, RingOk, GroupsKnown, AllShort, ParityShards, EvictOldest;
    FiledCounts(code, h, d, p.header, p.shard, g);
    OneMoreIndex(ps, p);
  }

  lemma OneMoreIndex(ps: seq<Parity>, p: Parity)
    ensures forall i: nat :: HasIndex(ps + [p], i) <==> HasIndex(ps, i) || i == p.header.index
  {
    forall i: nat ensures HasIndex(ps + [p], i) <==> HasIndex(ps, i) || i == p.header.index {
      assert p in ps + [p];
      assert forall q <- ps :: q in ps + [p];
    }
  }

  /** Shards of an untracked group, whatever the number of its packets missing from the ring:
      nothing comes back until there are as many different shards as missing packets, and that
      one returns them all and leaves the group untracked as before. */
  lemma {:induction false} ShardsReturn(code: Code, h: History, d: Dec, ps: seq<Parity>, g: Closed)
    requires Honest(h) && Correcting(code, h) && Inv(code, h, d)
    requires g in h.groups && g.base !in d.groups && Batch(code, ps, g)
    requires PresentIn(d.ring, g.base, |g.members|) + |ps| <= |g.members|
    ensures var (d', out) := Fed(code, d, ps);
            && Inv(code, h, d') && d'.ring == d.ring
            && (if PresentIn(d.ring, g.base, |g.members|) + |ps| < |g.members|
                then out == [] && Awaits(d', ps, g.base)
                else out == Lacking(h, d.ring, g.base, |g.members|) && g.base !in d'.groups)
  {
    hide Honest, Correcting, Inv, AddParity, ParityOf, PresentIn, Stored, Holding, Lacking;
    if ps == [] {
      AllPresent(h, d.ring, g);
    } else {
      var init, p := ps[..|ps| - 1], ps[|ps| - 1];
      ShardsReturn(code, h, d, init, g);
      var d1 := Fed(code, d, init).0;
      ParityYields(code, h, d1, p.header, p.shard, g);
      FiledHolds(code, h, d1, init, p, g);
      assert ps == init + [p];
      HeaderOf(code, g, p);
    }
  }

  lemma HeaderOf(code: Code, g: Closed, p: Parity)
    requires ParityOf(code, g, p.header, p.shard)
    ensures p.header.base == g.base && p.header.k == |g.members|
  {
  }

  lemma AllPresent(h: History, ring: seq<Slot>, g: Closed)
    ensures PresentIn(ring, g.base, |g.members|) >= |g.members| ==> Lacking(h, ring, g.base, |g.members|) == []
  {
    NothingLacking(h, ring, g.base, |g.members|);
  }

  /** The decoder alone does not deliver once: a second batch of shards, the same or others, for
      which the first one left everything as it was, returns the same packets again. */
  lemma RecoveredAgain(code: Code, h: History, d: Dec, ps: seq<Parity>, ps': seq<Parity>, g: Closed)
    requires Honest(h) && Correcting(code, h) && Inv(code, h, d)
    requires g in h.groups && g.base !in d.groups && Batch(code, ps, g) && Batch(code, ps', g)
    requires |ps| == |ps'| == |g.members| - PresentIn(d.ring, g.base, |g.members|)
    ensures var (d1, out1) := Fed(code, d, ps);
            var (d2, out2) := Fed(code, d1, ps');
            && out1 == out2 == Lacking(h, d.ring, g.base, |g.members|)
            && Inv(code, h, d2) && d2.ring == d1.ring == d.ring && g.base !in d2.groups
  {
    hide *;
    ShardsReturn(code, h, d, ps, g);
    ShardsReturn(code, h, Fed(code, d, ps).0, ps', g);
  }

  // ----- A run that does it -----

  /** Two packets numbered 0 and 1, which fill a group. */
  function TwoSent(p: Bytes, q: Bytes): seq<Event> {
    [Added(0, Member(p, 0), 0, 0.0), Added(1, Member(q, 0), 0, 0.0)]
  }

  function PairGroup(p: Bytes, q: Bytes): Closed { Closed(0, [Member(p, 0), Member(q, 0)], 1) }

  lemma OneMoreEvent(k: int, rParity: int, es: seq<Event>, e: Event)
    ensures Run(k, rParity, es + [e]) == Step(Run(k, rParity, es), e)
    ensures e.Added? ==> Stream(es + [e]) == Stream(es) + [Numbered(e.sn, e.m)]
  {
    assert (es + [e])[..|es|] == es;
  }

  lemma OneMoreSent(s: seq<Numbered>, x: Numbered)
    ensures SentMap(s + [x]) == SentMap(s)[x.sn := x.m.pkt]
  {
    assert (s + [x])[..|s|] == s;
  }

  lemma PairIsMapped(p: Bytes, q: Bytes)
    ensures SentMap([Numbered(0, Member(p, 0))] + [Numbered(1, Member(q, 0))]) == map[0 := p, 1 := q]
  {
    var x0, x1 := Numbered(0, Member(p, 0)), Numbered(1, Member(q, 0));
    assert [] + [x0] == [x0];
    OneMoreSent([], x0);
    OneMoreSent([x0], x1);
  }

  lemma PairIsStreamed(p: Bytes, q: Bytes)
    requires 0 < |p| <= SHARD_CAP && 0 < |q| <= SHARD_CAP
    ensures Stream(TwoSent(p, q)) == [Numbered(0, Member(p, 0))] + [Numbered(1, Member(q, 0))]
    ensures Run(2, 1, TwoSent(p, q)).groups == [PairGroup(p, q)]
  {
    hide MaxLen, Close;
    var e0, e1 := Added(0, Member(p, 0), 0, 0.0), Added(1, Member(q, 0), 0, 0.0);
    assert [] + [e0] == [e0] && [e0] + [e1] == TwoSent(p, q);
    OneMoreEvent(2, 1, [], e0);
    OneMoreEvent(2, 1, [e0], e1);
    assert Stream([e0]) == [Numbered(0, Member(p, 0))];
    assert Run(2, 1, [e0]) == State(Enc(2, 1, 0, [Member(p, 0)], 0), []);
    PairCloses(p, q);
  }

  lemma DeclaredIsPositive(p: Bytes)
    requires SelfDescribing(p)
    ensures |p| > 0
  {
  }

  lemma PairIsSent(p: Bytes, q: Bytes)
    requires SelfDescribing(p) && SelfDescribing(q) && |p| <= SHARD_CAP && |q| <= SHARD_CAP
    ensures var es := TwoSent(p, q);
            && Sane(es) && Increasing(Stream(es)) && (forall x <- Stream(es) :: SelfDescribing(x.m.pkt))
            && HistoryOf(2, 1, es) == History(map[0 := p, 1 := q], [PairGroup(p, q)])
  {
    hide SelfDescribing, Run, Stream, SentMap;
    DeclaredIsPositive(p);
    DeclaredIsPositive(q);
    PairIsStreamed(p, q);
    PairIsMapped(p, q);
  }

  lemma PairCloses(p: Bytes, q: Bytes)
    requires 0 < |p| <= SHARD_CAP && 0 < |q| <= SHARD_CAP
    ensures Step(State(Enc(2, 1, 0, [Member(p, 0)], 0), []), Added(1, Member(q, 0), 0, 0.0)).groups
         == [PairGroup(p, q)]
  {
    hide MaxLen;
    var members := PairGroup(p, q).members;
    MaxLenIsLongest(members);
    assert Member(p, 0) in members;
    assert [Member(p, 0)] + [Member(q, 0)] == members;
    assert [] + [PairGroup(p, q)] == [PairGroup(p, q)];
  }

  /** After packet 0 alone the ring holds one of the two packets. */
  lemma HalfReceived(p: Bytes)
    ensures var d := Prune(Record(NewDecoder(), 0, p));
            && |d.ring| == RING_SIZE && d.groups == map[]
            && Has(d.ring, 0) && !Has(d.ring, 1) && PresentIn(d.ring, 0, 2) == 1
            && (|p| <= SHARD_CAP ==> AddData(XorCode(), NewDecoder(), 0, p, d, []))
  {
    hide TryReconstruct;
    var d := Prune(Record(NewDecoder(), 0, p));
    assert Has(d.ring, 0) && !Has(d.ring, 1);
    assert PresentIn(d.ring, 0, 1) == 1;
    assert d.groups == map[] && Covering(d, 0) == {};
  }

  /** From a new decoder: packet 0 arrives, packet 1 is lost, and the parity shard arrives twice.
      Packet 1 is returned both times. */
  lemma ReturnedTwice(p: Bytes, q: Bytes) returns (calls: seq<Call>)
    requires SelfDescribing(p) && SelfDescribing(q) && |p| <= SHARD_CAP && |q| <= SHARD_CAP
    ensures IsRun(XorCode(), NewDecoder(), calls) && |calls| == 3
    ensures forall c <- calls :: Genuine(XorCode(), HistoryOf(2, 1, TwoSent(p, q)), c.input)
    ensures calls[1].input == calls[2].input && calls[1].out == calls[2].out == [Recovered(1, q)]
  {
    hide Honest, Correcting, Inv, AddParity, AddData, XorCode, HistoryOf, Lacking, PresentIn, Prune, Batch, Fed, IsRun,
      ParityShards, Stream, Increasing, SelfDescribing, Has, TwoSent, Sane;
    var code, es := XorCode(), TwoSent(p, q);
    var h, g := HistoryOf(2, 1, es), PairGroup(p, q);
    PairIsSent(p, q);
    EncoderIsHonest(2, 1, es);
    XorCorrects(2, es);
    PairParity(p, q);
    var shard := ParityShards(code, g)[0];
    var par := Parity(FECHeader(0, 2, 1, 0), shard);
    var d0 := Prune(Record(NewDecoder(), 0, p));
    HalfReceived(p);
    NewDecoderIsFine(code, h);
    AddDataKeeps(code, h, NewDecoder(), 0, p, d0, []);
    BatchOfOne(code, par, g);
    RecoveredAgain(code, h, d0, [par], [par], g);
    FedOne(code, d0, par);
    var (d1, out1) := AddParity(code, d0, par.header, shard);
    FedOne(code, d1, par);
    var (d2, out2) := AddParity(code, d1, par.header, shard);
    SecondLacking(h, d0.ring, q);
    var again := Shard(par.header, shard);
    var a, b, c := Call(Data(0, p), [], d0), Call(again, out1, d1), Call(again, out2, d2);
    ThreeCalls(code, NewDecoder(), a, b, c);
    calls := [a, b, c];
  }

  lemma PairParity(p: Bytes, q: Bytes)
    ensures |ParityShards(XorCode(), PairGroup(p, q))| == 1
  {
  }

  lemma BatchOfOne(code: Code, par: Parity, g: Closed)
    requires ParityOf(code, g, par.header, par.shard)
    ensures Batch(code, [par], g)
  {
    assert [par][..0] == [];
  }

  lemma FedOne(code: Code, d: Dec, par: Parity)
    ensures Fed(code, d, [par]) == AddParity(code, d, par.header, par.shard)
  {
    hide AddParity;
    assert [par][..0] == [];
    assert Fed(code, d, []) == (d, []);
    var out := AddParity(code, d, par.header, par.shard).1;
    assert [] + out == out;
  }

  lemma SecondLacking(h: History, ring: seq<Slot>, q: Bytes)
    requires Has(ring, 0) && !Has(ring, 1) && 1 in h.sent && h.sent[1] == q
    ensures Lacking(h, ring, 0, 2) == [Recovered(1, q)]
  {
    assert Lacking(h, ring, 0, 1) == [];
  }

  lemma ThreeCalls(code: Code, d: Dec, a: Call, b: Call, c: Call)
    requires Happens(code, d, a) && Happens(code, a.after, b) && Happens(code, b.after, c)
    ensures IsRun(code, d, [a, b, c])
  {
    hide Happens;
    assert [a, b, c][1..] == [b, c] && [b, c][1..] == [c] && [c][1..] == [];
    assert IsRun(code, b.after, [c]);
    assert IsRun(code, a.after, [b, c]);
  }
}
