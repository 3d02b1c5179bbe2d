/** End-to-end recovery: whatever the network loses, repeats or reorders, the decoder returns
    only packets the sender sent, and returns them as soon as enough shards are there. */
module FecRecovery {
  import opened Common
  import opened Wire
  import opened ErasureCodes
  import opened FecEncoderSpec
  import opened FecDecoderSpec

  // ----- The sender's side -----

  /** The packets sent, by number, and the groups closed over them. */
  datatype History = History(sent: map<nat, Bytes>, groups: seq<Closed>)

  predicate Covers(g: Closed, sn: nat) { g.base <= sn < g.base + |g.members| }

  /** Member `i` of the group was sent under its number. */
  predicate Carried(h: History, g: Closed, i: nat)
    requires i < |g.members|
  {
    var sn := g.base + i;
    sn in h.sent && h.sent[sn] == g.members[i].pkt
  }

  ghost predicate Faithful(h: History, g: Closed) {
    GroupOk(g, MAX_FEC_SHARDS) && forall i | 0 <= i < |g.members| :: Carried(h, g, i)
  }

  /** Groups carry what was sent under their numbers, no number is in two groups, and every
      packet declares its own length. */
  ghost predicate Honest(h: History) {
    && (forall sn <- h.sent :: SelfDescribing(h.sent[sn]) && |h.sent[sn]| <= SHARD_CAP)
    && (forall g <- h.groups :: Faithful(h, g))
    && (forall i, j, sn: nat | 0 <= i < j < |h.groups| && Covers(h.groups[i], sn) :: !Covers(h.groups[j], sn))
  }

  /** The code corrects erasures for every group the sender closed. */
  ghost predicate Correcting(code: Code, h: History) {
    forall g <- h.groups :: ErasureCode(code, |g.members|, g.r)
  }

  /** What the receiver may be handed: a packet that was sent, or a parity shard of a group. */
  datatype Input = Data(sn: nat, pkt: Bytes) | Shard(header: FECHeader, shard: Bytes)

  ghost predicate ParityOf(code: Code, g: Closed, header: FECHeader, shard: Bytes) {
    && header == FECHeader(g.base, |g.members|, g.r, header.index)
    && header.index < g.r && header.index < |ParityShards(code, g)|
    && shard == ParityShards(code, g)[header.index]
  }

  ghost predicate Genuine(code: Code, h: History, i: Input) {
    match i
    case Data(sn, pkt) => sn in h.sent && pkt == h.sent[sn]
    case Shard(header, shard) => exists g <- h.groups :: ParityOf(code, g, header, shard)
  }

  // ----- The receiver's invariant -----

  ghost predicate RingOk(h: History, ring: seq<Slot>) {
    && |ring| == RING_SIZE
    && forall i | 0 <= i < RING_SIZE && ring[i].Used? ::
         ring[i].sn % RING_SIZE == i && ring[i].sn in h.sent && ring[i].pkt == h.sent[ring[i].sn]
  }

  /** A tracked group holds true parity of a group that was closed, and counts it right. */
  ghost predicate Matches(code: Code, x: RxGroup, g: Closed) {
    && x.base == g.base && x.k == |g.members| && x.r == g.r && x.shardSize == MaxLen(g.members)
    && x.got == Present(x.parity)
    && PartOf(x.parity, ParityShards(code, g))
  }

  /** A tracked group has fewer usable shards than it needs. */
  predicate Short(ring: seq<Slot>, x: RxGroup) { PresentIn(ring, x.base, x.k) + x.got < x.k }

  ghost predicate Known(code: Code, h: History, base: nat, x: RxGroup) {
    x.base == base && exists g <- h.groups :: Matches(code, x, g)
  }

  ghost predicate GroupsKnown(code: Code, h: History, groups: map<nat, RxGroup>) {
    forall base <- groups :: Known(code, h, base, groups[base])
  }

  ghost predicate AllShort(ring: seq<Slot>, groups: map<nat, RxGroup>) {
    forall base <- groups :: Short(ring, groups[base])
  }

  ghost predicate Inv(code: Code, h: History, d: Dec) {
    && RingOk(h, d.ring)
    && GroupsKnown(code, h, d.groups)
    && AllShort(d.ring, d.groups)
    && |d.groups| <= MAX_GROUPS
  }

  // ----- Counting shards -----

  lemma {:induction false} PresentAppends(a: seq<Option<Bytes>>, b: seq<Option<Bytes>>)
    ensures Present(a + b) == Present(a) + Present(b)
    decreases |b|
  {
    if b == [] {
      assert a + b == a;
    } else {
      var last := |b| - 1;
      PresentAppends(a, b[..last]);
      assert (a + b)[..|a| + last] == a + b[..last];
    }
  }

  lemma {:induction false} DataPartCounts(ring: seq<Slot>, base: nat, size: nat, n: nat)
    ensures |DataPart(ring, base, size, n)| == n
    ensures Present(DataPart(ring, base, size, n)) == PresentIn(ring, base, n)
  {
    if n > 0 {
      DataPartCounts(ring, base, size, n - 1);
      var p := DataPart(ring, base, size, n);
      assert p[..n - 1] == DataPart(ring, base, size, n - 1);
    }
  }

  /** What the ring holds of a group are its data shards. */
  lemma {:induction false} DataPartIsData(h: History, ring: seq<Slot>, g: Closed, n: nat)
    requires RingOk(h, ring) && Faithful(h, g) && n <= |g.members|
    ensures |DataPart(ring, g.base, MaxLen(g.members), n)| == n
    ensures forall i | 0 <= i < n ::
              DataPart(ring, g.base, MaxLen(g.members), n)[i].Some? ==>
                DataPart(ring, g.base, MaxLen(g.members), n)[i].value == DataShards(g.members)[i]
    ensures !Oversized(ring, g.base, MaxLen(g.members), n)
  {
    if n > 0 {
      hide DataShards, Pad, Faithful;
      DataPartIsData(h, ring, g, n - 1);
      DataShardAt(g.members, n - 1);
      MemberWasSent(h, g, n - 1);
    }
  }

  /** What recovery owes for one number: the packet sent, unless the ring has it. */
  function Owed(h: History, ring: seq<Slot>, sn: nat): seq<Recovered> {
    if Has(ring, sn) || sn !in h.sent then [] else [Recovered(sn, h.sent[sn])]
  }

  /** The packets of the first `n` numbers from `base` that the ring lacks. */
  function Lacking(h: History, ring: seq<Slot>, base: nat, n: nat): seq<Recovered> {
    if n == 0 then [] else Lacking(h, ring, base, n - 1) + Owed(h, ring, base + n - 1)
  }

  lemma DataShardAt(members: seq<Member>, i: nat)
    requires i < |members|
    ensures |members[i].pkt| <= MaxLen(members) && DataShards(members)[i] == Pad(members[i].pkt, MaxLen(members))
  {
    MaxLenIsLongest(members);
    assert members[i] in members;
  }

  lemma MemberWasSent(h: History, g: Closed, i: nat)
    requires Faithful(h, g) && i < |g.members|
    ensures g.base + i in h.sent && h.sent[g.base + i] == g.members[i].pkt
  {
    assert Carried(h, g, i);
  }

  lemma SentDescribesItself(h: History, sn: nat)
    requires Honest(h) && sn in h.sent
    ensures SelfDescribing(h.sent[sn])
  {
  }

  /** Stripping the padding of a reconstructed shard gives the packet that was sent. */
  lemma TakenIsOwed(h: History, ring: seq<Slot>, g: Closed, i: nat)
    requires Honest(h) && Faithful(h, g) && i < |g.members|
    ensures Taken(ring, g.base + i, DataShards(g.members)[i]) == Owed(h, ring, g.base + i)
  {
    hide Honest, Faithful, DataShards, Pad, InnerIPLen, Has;
    DataShardAt(g.members, i);
    MemberWasSent(h, g, i);
    SentDescribesItself(h, g.base + i);
    PaddingIsStripped(h.sent[g.base + i], MaxLen(g.members));
  }

  lemma {:induction false} HarvestIsSent(h: History, ring: seq<Slot>, g: Closed, n: nat)
    requires Honest(h) && Faithful(h, g) && n <= |g.members|
    ensures Harvest(ring, g.base, DataShards(g.members), n) == Lacking(h, ring, g.base, n)
  {
    hide Honest, Faithful, DataShards, Taken, Owed;
    if n > 0 {
      HarvestIsSent(h, ring, g, n - 1);
      TakenIsOwed(h, ring, g, n - 1);
    }
  }

  lemma {:induction false} LackingMeans(h: History, ring: seq<Slot>, base: nat, n: nat)
    ensures forall x <- Lacking(h, ring, base, n) ::
              x.sn in h.sent && x.pkt == h.sent[x.sn] && base <= x.sn < base + n && !Has(ring, x.sn)
    ensures forall sn | base <= sn < base + n && sn in h.sent && !Has(ring, sn) ::
              Recovered(sn, h.sent[sn]) in Lacking(h, ring, base, n)
  {
    if n > 0 {
      LackingMeans(h, ring, base, n - 1);
    }
  }

  // ----- Reconstruction -----

  lemma CodeRecovers(code: Code, k: nat, r: nat, data: seq<Bytes>, size: nat, shards: seq<Option<Bytes>>)
    requires ErasureCode(code, k, r) && size > 0 && Uniform(data, k, size)
    requires PartOf(shards, data + code.parity(data, r)) && Present(shards) >= k
    ensures code.rebuild(k, r, shards) == Some(data)
  {
    hide Uniform, PartOf, Present;
    assert Recovers(code, k, r, data);
  }

  lemma PartsOf(a: seq<Option<Bytes>>, b: seq<Option<Bytes>>, x: seq<Bytes>, y: seq<Bytes>)
    requires PartOf(a, x) && PartOf(b, y)
    ensures PartOf(a + b, x + y)
  {
  }

  /** With K usable shards the code gives back the group's data shards. */
  lemma RebuildsGroup(code: Code, h: History, ring: seq<Slot>, x: RxGroup, g: Closed)
    requires RingOk(h, ring) && Faithful(h, g) && Matches(code, x, g) && ErasureCode(code, |g.members|, g.r)
    requires PresentIn(ring, x.base, x.k) + x.got >= x.k
    ensures code.rebuild(x.k, x.r, DataPart(ring, x.base, x.shardSize, x.k) + x.parity) == Some(DataShards(g.members))
  {
    hide RingOk, Faithful, DataPart, Present, ErasureCode, DataShards, PresentIn;
    var data := DataShards(g.members);
    var part := DataPart(ring, x.base, x.shardSize, x.k);
    DataPartIsData(h, ring, g, |g.members|);
    DataPartCounts(ring, x.base, x.shardSize, x.k);
    PresentAppends(part, x.parity);
    MaxLenPositive(h, g);
    DataIsUniform(g.members);
    PartsOf(part, x.parity, data, code.parity(data, x.r));
    CodeRecovers(code, x.k, x.r, data, x.shardSize, part + x.parity);
  }

  lemma MaxLenPositive(h: History, g: Closed)
    requires Faithful(h, g)
    ensures MaxLen(g.members) > 0
  {
  }

  lemma DataIsUniform(members: seq<Member>)
    ensures Uniform(DataShards(members), |members|, MaxLen(members))
  {
    MaxLenIsLongest(members);
  }

  /** Reconstruction of a tracked group: it is either still short and kept, or dropped, and then
      every packet of it that the ring lacks is returned, exactly as sent. */
  lemma ReconstructIsExact(code: Code, h: History, d: Dec, x: RxGroup, g: Closed)
    requires Honest(h) && RingOk(h, d.ring) && g in h.groups && Matches(code, x, g)
    requires ErasureCode(code, |g.members|, g.r)
    ensures var (d', out) := TryReconstruct(code, d, x);
            if Short(d.ring, x) then d' == d && out == []
            else
              && d' == Drop(d, x.base).(recovered := d.recovered + |out|)
              && out == Lacking(h, d.ring, x.base, x.k)
  {
    hide Honest, RingOk, Faithful, DataPart, Matches, ErasureCode;
    MatchFacts(code, x, g);
    assert Faithful(h, g) by { GroupIsFaithful(h, g); }
    DataPartIsData(h, d.ring, g, |g.members|);
    if PresentIn(d.ring, x.base, x.k) >= x.k {
      NothingLacking(h, d.ring, x.base, x.k);
    } else if !Short(d.ring, x) {
      RebuildsGroup(code, h, d.ring, x, g);
      HarvestIsSent(h, d.ring, g, x.k);
    }
  }

  lemma MatchFacts(code: Code, x: RxGroup, g: Closed)
    requires Matches(code, x, g)
    ensures x.base == g.base && x.k == |g.members| && x.r == g.r && x.shardSize == MaxLen(g.members)
  {
  }

  lemma GroupIsFaithful(h: History, g: Closed)
    requires Honest(h) && g in h.groups
    ensures Faithful(h, g)
  {
  }

  lemma {:induction false} NothingLacking(h: History, ring: seq<Slot>, base: nat, n: nat)
    ensures PresentIn(ring, base, n) <= n
    ensures PresentIn(ring, base, n) == n ==> Lacking(h, ring, base, n) == []
  {
    if n > 0 {
      NothingLacking(h, ring, base, n - 1);
    }
  }

  // ----- The steps -----

  /** Every packet returned is one that was sent under that number. */
  ghost predicate Authentic(h: History, out: seq<Recovered>) {
    forall x <- out :: x.sn in h.sent && x.pkt == h.sent[x.sn]
  }

  lemma OneGroupCovers(h: History, g: Closed, g': Closed, sn: nat)
    requires Honest(h) && g in h.groups && g' in h.groups && Covers(g, sn) && Covers(g', sn)
    ensures g == g'
  {
    var i :| 0 <= i < |h.groups| && h.groups[i] == g;
    var j :| 0 <= j < |h.groups| && h.groups[j] == g';
  }

  lemma RecordKeepsRing(h: History, d: Dec, sn: nat, pkt: Bytes)
    requires RingOk(h, d.ring) && sn in h.sent && h.sent[sn] == pkt
    ensures RingOk(h, Record(d, sn, pkt).ring)
  {
  }

  /** Recording one packet can only push others out of the ring. */
  lemma {:induction false} PresentShrinks(d: Dec, sn: nat, pkt: Bytes, base: nat, n: nat)
    requires |d.ring| == RING_SIZE && !(base <= sn < base + n)
    ensures PresentIn(Record(d, sn, pkt).ring, base, n) <= PresentIn(d.ring, base, n)
  {
    if n > 0 {
      PresentShrinks(d, sn, pkt, base, n - 1);
    }
  }

  /** Trying a tracked group keeps the invariant and returns only what was sent; before the
      attempt that one group may have enough shards. */
  lemma TryKeeps(code: Code, h: History, d: Dec, base: nat)
    requires Honest(h) && Correcting(code, h)
    requires RingOk(h, d.ring) && GroupsKnown(code, h, d.groups) && |d.groups| <= MAX_GROUPS
    requires base in d.groups && forall b <- d.groups :: b == base || Short(d.ring, d.groups[b])
    ensures var (d', out) := TryReconstruct(code, d, d.groups[base]);
            && Inv(code, h, d') && Authentic(h, out)
            && (!Short(d.ring, d.groups[base]) ==>
                  base !in d'.groups && out == Lacking(h, d.ring, base, d.groups[base].k))
  {
    hide Honest, RingOk, Matches, TryReconstruct, Short;
    var x := d.groups[base];
    assert Known(code, h, base, x);
    var g :| g in h.groups && Matches(code, x, g);
    ReconstructIsExact(code, h, d, x, g);
    LackingMeans(h, d.ring, base, x.k);
  }

  lemma CoveringIsUnique(code: Code, h: History, d: Dec, sn: nat, a: nat, b: nat)
    requires Honest(h) && GroupsKnown(code, h, d.groups) && a in Covering(d, sn) && b in Covering(d, sn)
    ensures a == b
  {
    hide Honest;
    assert Known(code, h, a, d.groups[a]) && Known(code, h, b, d.groups[b]);
    var g :| g in h.groups && Matches(code, d.groups[a], g);
    var g' :| g' in h.groups && Matches(code, d.groups[b], g');
    OneGroupCovers(h, g, g', sn);
  }

  lemma PruneKeeps(code: Code, h: History, d: Dec)
    requires GroupsKnown(code, h, d.groups) && |d.groups| <= MAX_GROUPS
    ensures GroupsKnown(code, h, Prune(d).groups) && |Prune(d).groups| <= MAX_GROUPS
    ensures forall b <- Prune(d).groups :: b in d.groups && Prune(d).groups[b] == d.groups[b]
  {
    hide Known;
    assert Prune(d).groups.Keys <= d.groups.Keys;
    SubsetSize(Prune(d).groups.Keys, d.groups.Keys);
  }

  lemma {:induction false} SubsetSize(a: set<nat>, b: set<nat>)
    requires a <= b
    ensures |a| <= |b|
  {
    if a != {} {
      var x :| x in a;
      SubsetSize(a - {x}, b - {x});
    }
  }

  /** A data packet: the groups it does not belong to stay short, the one it belongs to is
      tried at once. */
  lemma AddDataKeeps(code: Code, h: History, d: Dec, sn: nat, pkt: Bytes, d': Dec, out: seq<Recovered>)
    requires Honest(h) && Correcting(code, h) && Inv(code, h, d)
    requires sn in h.sent && h.sent[sn] == pkt && AddData(code, d, sn, pkt, d', out)
    ensures Inv(code, h, d') && Authentic(h, out)
  {
    hide Honest, Correcting, GroupsKnown, TryReconstruct, RingOk, Known;
    RingSize(h, d.ring);
    if |pkt| <= SHARD_CAP {
      var d0 := Record(d, sn, pkt);
      var d1 := Prune(d0);
      RecordKeepsRing(h, d, sn, pkt);
      PruneKeeps(code, h, d0);
      OthersStayShort(code, h, d, sn, pkt);
      if Covering(d1, sn) != {} {
        var base :| base in Covering(d1, sn) && base in d1.groups
                    && (d', out) == TryReconstruct(code, d1, d1.groups[base]);
        forall b <- d1.groups ensures b == base || Short(d1.ring, d1.groups[b]) {
          if b in Covering(d1, sn) {
            CoveringIsUnique(code, h, d1, sn, b, base);
          }
        }
        TryKeeps(code, h, d1, base);
      }
    }
  }

  lemma OthersStayShort(code: Code, h: History, d: Dec, sn: nat, pkt: Bytes)
    requires RingOk(h, d.ring) && GroupsKnown(code, h, d.groups) && AllShort(d.ring, d.groups)
    ensures var d1 := Prune(Record(d, sn, pkt));
            forall b <- d1.groups :: b in Covering(d1, sn) || Short(d1.ring, d1.groups[b])
  {
    hide RingOk, PresentIn;
    RingSize(h, d.ring);
    var d1 := Prune(Record(d, sn, pkt));
    forall b <- d1.groups ensures b in Covering(d1, sn) || Short(d1.ring, d1.groups[b]) {
      assert Known(code, h, b, d.groups[b]);
      if b !in Covering(d1, sn) {
        PresentShrinks(d, sn, pkt, b, d.groups[b].k);
      }
    }
  }

  lemma RingSize(h: History, ring: seq<Slot>)
    requires RingOk(h, ring)
    ensures |ring| == RING_SIZE
  {
  }

  lemma {:induction false} NonePresent(s: seq<Option<Bytes>>)
    requires forall i | 0 <= i < |s| :: s[i].None?
    ensures Present(s) == 0
  {
    if s != [] {
      NonePresent(s[..|s| - 1]);
    }
  }

  lemma {:induction false} OneMorePresent(s: seq<Option<Bytes>>, i: nat, shard: Bytes)
    requires i < |s| && s[i].None?
    ensures Present(s[i := Some(shard)]) == Present(s) + 1
  {
    var n := |s| - 1;
    if i < n {
      OneMorePresent(s[..n], i, shard);
      assert s[i := Some(shard)][..n] == s[..n][i := Some(shard)];
    } else {
      assert s[i := Some(shard)][..n] == s[..n];
    }
  }

  lemma StoreMatches(code: Code, x: RxGroup, g: Closed, index: nat, shard: Bytes)
    requires Matches(code, x, g) && index < |x.parity| && shard == ParityShards(code, g)[index]
    ensures Matches(code, Store(x, index, shard), g)
  {
    if x.parity[index].None? {
      OneMorePresent(x.parity, index, shard);
    }
  }

  /** The parity of a closed group has its size. */
  lemma ParitySize(code: Code, h: History, g: Closed)
    requires Honest(h) && Correcting(code, h) && g in h.groups
    ensures |ParityShards(code, g)| == g.r && 0 < MaxLen(g.members) <= SHARD_CAP && |g.members| >= 1
    ensures forall s <- ParityShards(code, g) :: |s| == MaxLen(g.members)
  {
    hide Honest, DataShards;
    GroupIsFaithful(h, g);
    DataIsUniform(g.members);
    assert ErasureCode(code, |g.members|, g.r);
  }

  /** A group tracked under this base can only be this group. */
  lemma TrackedMatches(code: Code, h: History, x: RxGroup, g: Closed)
    requires Honest(h) && Correcting(code, h) && g in h.groups && Known(code, h, g.base, x)
    ensures Matches(code, x, g)
  {
    hide Honest, Correcting, ParityShards;
    var g' :| g' in h.groups && Matches(code, x, g');
    ParitySize(code, h, g);
    ParitySize(code, h, g');
    OneGroupCovers(h, g, g', g.base);
  }

  lemma NewGroupMatches(code: Code, g: Closed, header: FECHeader, size: nat)
    requires header == FECHeader(g.base, |g.members|, g.r, header.index)
    requires |ParityShards(code, g)| == g.r && size == MaxLen(g.members)
    ensures Matches(code, NewGroup(header, size), g)
  {
    hide ParityShards;
    NonePresent(NewGroup(header, size).parity);
  }

  /** A new group finds room: the oldest makes way when the table is full. */
  lemma TrackNew(d: Dec, header: FECHeader, size: nat)
    requires |d.groups| <= MAX_GROUPS && header.base !in d.groups
    ensures var d1 := Track(d, header, size);
            && d1.ring == d.ring && |d1.groups| <= MAX_GROUPS
            && header.base in d1.groups && d1.groups[header.base] == NewGroup(header, size)
            && (forall b <- d1.groups :: b != header.base ==> b in d.groups && d1.groups[b] == d.groups[b])
  {
    hide NewGroup;
    var e := if |d.groups| >= MAX_GROUPS then EvictOldest(d) else d;
    if |d.groups| >= MAX_GROUPS {
      assert e.groups.Keys == d.groups.Keys - {Least(d.groups.Keys)};
    }
    assert e.groups[header.base := NewGroup(header, size)].Keys == e.groups.Keys + {header.base};
  }

  lemma TrackKeeps(code: Code, h: History, d: Dec, header: FECHeader, g: Closed, shard: Bytes)
    requires Honest(h) && Correcting(code, h) && GroupsKnown(code, h, d.groups) && |d.groups| <= MAX_GROUPS
    requires g in h.groups && ParityOf(code, g, header, shard) && |shard| == MaxLen(g.members)
    ensures var d1 := Track(d, header, |shard|);
            && d1.ring == d.ring && |d1.groups| <= MAX_GROUPS
            && header.base in d1.groups && Matches(code, d1.groups[header.base], g)
            && (forall b <- d1.groups :: b != header.base ==> b in d.groups && d1.groups[b] == d.groups[b])
  {
    hide Honest, Correcting, ParityShards, Matches, Known, NewGroup, EvictOldest;
    ParitySize(code, h, g);
    if header.base in d.groups {
      assert Known(code, h, g.base, d.groups[header.base]);
      TrackedMatches(code, h, d.groups[header.base], g);
    } else {
      NewGroupMatches(code, g, header, |shard|);
      TrackNew(d, header, |shard|);
    }
  }

  /** Filing a true shard: the table still knows all its groups, and only this one changed. */
  lemma FileKeeps(code: Code, h: History, d: Dec, d1: Dec, base: nat, x: RxGroup, g: Closed)
    requires Inv(code, h, d) && g in h.groups && Matches(code, x, g) && g.base == base
    requires d1.ring == d.ring && |d1.groups| <= MAX_GROUPS && base in d1.groups
    requires forall b <- d1.groups :: b != base ==> b in d.groups && d1.groups[b] == d.groups[b]
    ensures var d2 := d1.(groups := d1.groups[base := x]);
            && RingOk(h, d2.ring) && GroupsKnown(code, h, d2.groups) && |d2.groups| <= MAX_GROUPS
            && forall b <- d2.groups :: b == base || Short(d2.ring, d2.groups[b])
  {
    hide RingOk, Short;
    var d2 := d1.(groups := d1.groups[base := x]);
    assert d2.groups.Keys == d1.groups.Keys;
    forall b <- d2.groups ensures Known(code, h, b, d2.groups[b]) {
      if b == base {
        MatchFacts(code, x, g);
      } else {
        assert Known(code, h, b, d.groups[b]);
      }
    }
  }

  /** A parity shard: its group is tracked, the shard filed, and reconstruction tried at once. */
  lemma AddParityKeeps(code: Code, h: History, d: Dec, header: FECHeader, shard: Bytes)
    requires Honest(h) && Correcting(code, h) && Inv(code, h, d)
    requires exists g <- h.groups :: ParityOf(code, g, header, shard)
    ensures var (d', out) := AddParity(code, d, header, shard);
            Inv(code, h, d') && Authentic(h, out)
  {
    hide Honest, Correcting, RingOk, GroupsKnown, AllShort, TryReconstruct, Track, ParityShards, Store, Short;
    var g :| g in h.groups && ParityOf(code, g, header, shard);
    ParitySize(code, h, g);
    assert shard in ParityShards(code, g);
    TrackKeeps(code, h, d, header, g, shard);
    var d1 := Track(d, header, |shard|);
    var x := d1.groups[header.base];
    StoreMatches(code, x, g, header.index, shard);
    FileKeeps(code, h, d, d1, header.base, Store(x, header.index, shard), g);
    TryKeeps(code, h, d1.(groups := d1.groups[header.base := Store(x, header.index, shard)]), header.base);
  }

  lemma KnownAt(code: Code, h: History, d: Dec, base: nat)
    requires GroupsKnown(code, h, d.groups) && base in d.groups
    ensures Known(code, h, base, d.groups[base])
  {
  }
}
