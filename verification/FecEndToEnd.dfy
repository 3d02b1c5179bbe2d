/** The FEC layer as a whole: an encoder run on one side, any run of the decoder on the other,
    and the reorder buffer behind it. */
module FecEndToEnd {
  import opened Common
  import opened Wire
  import opened ErasureCodes
  import opened FecEncoderSpec
  import opened FecDecoderSpec
  import opened FecRecovery
  import W = BlockWindow
  import RS = ReorderSpec
  import RR = ReorderRuns
  import RO = ReorderOnce

  // ----- What the encoder produced -----

  ghost predicate Increasing(s: seq<Numbered>) {
    forall i, j | 0 <= i < j < |s| :: s[i].sn < s[j].sn
  }

  function SentMap(s: seq<Numbered>): map<nat, Bytes> {
    if s == [] then map[] else SentMap(s[..|s| - 1])[s[|s| - 1].sn := s[|s| - 1].m.pkt]
  }

  ghost predicate SentAs(s: seq<Numbered>, sn: nat, pkt: Bytes) {
    exists x :: x in s && x.sn == sn && x.m.pkt == pkt
  }

  lemma {:induction false} SentMapHolds(s: seq<Numbered>)
    requires Increasing(s)
    ensures forall x <- s :: x.sn in SentMap(s) && SentMap(s)[x.sn] == x.m.pkt
    ensures forall sn <- SentMap(s) :: SentAs(s, sn, SentMap(s)[sn])
  {
    if s != [] {
      var init, last := s[..|s| - 1], s[|s| - 1];
      assert s == init + [last];
      IncreasingParts(init, [last]);
      SentMapHolds(init);
      hide SentAs, Increasing;
      forall sn <- SentMap(s) ensures SentAs(s, sn, SentMap(s)[sn]) {
        if sn == last.sn {
          SentLast(init, last);
        } else {
          assert sn in SentMap(init);
          SentBefore(init, last, sn, SentMap(init)[sn]);
        }
      }
    }
  }

  lemma SentLast(init: seq<Numbered>, last: Numbered)
    ensures SentAs(init + [last], last.sn, last.m.pkt)
  {
    assert last in init + [last];
  }

  lemma SentBefore(init: seq<Numbered>, last: Numbered, sn: nat, pkt: Bytes)
    requires SentAs(init, sn, pkt)
    ensures SentAs(init + [last], sn, pkt)
  {
    var x :| x in init && x.sn == sn && x.m.pkt == pkt;
    assert x in init + [last];
  }

  function HistoryOf(k: int, rParity: int, es: seq<Event>): History {
    History(SentMap(Stream(es)), Run(k, rParity, es).groups)
  }

  /** Every member of every group stands in the concatenated blocks. */
  lemma {:induction false} InBlocks(groups: seq<Closed>, n: nat, i: nat)
    requires n < |groups| && i < |groups[n].members|
    ensures Numbered(groups[n].base + i, groups[n].members[i]) in Blocks(groups)
  {
    var last := |groups| - 1;
    var g := groups[last];
    if n < last {
      InBlocks(groups[..last], n, i);
    } else {
      assert Block(g.base, g.members)[i] == Numbered(g.base + i, g.members[i]);
    }
  }

  lemma IncreasingParts(a: seq<Numbered>, b: seq<Numbered>)
    requires Increasing(a + b)
    ensures Increasing(a) && Increasing(b)
    ensures forall x <- a, y <- b :: x.sn < y.sn
  {
    var s := a + b;
    assert forall i | 0 <= i < |a| :: s[i] == a[i];
    assert forall i | 0 <= i < |b| :: s[|a| + i] == b[i];
    forall x <- a, y <- b ensures x.sn < y.sn {
      var i :| 0 <= i < |a| && a[i] == x;
      var j :| 0 <= j < |b| && b[j] == y;
      assert s[i] == x && s[|a| + j] == y;
    }
    forall i, j | 0 <= i < j < |b| ensures b[i].sn < b[j].sn {
      assert s[|a| + i] == b[i] && s[|a| + j] == b[j];
    }
  }

  /** When numbers increase, no number lies in two groups. */
  lemma {:induction false} GroupsAreDisjoint(groups: seq<Closed>, i: nat, j: nat, sn: nat)
    requires Increasing(Blocks(groups)) && i < j < |groups| && Covers(groups[i], sn)
    ensures !Covers(groups[j], sn)
  {
    var last := |groups| - 1;
    var init, g := groups[..last], groups[last];
    IncreasingParts(Blocks(init), Block(g.base, g.members));
    if j < last {
      GroupsAreDisjoint(init, i, j, sn);
    } else {
      var x := Numbered(sn, groups[i].members[sn - groups[i].base]);
      InBlocks(init, i, sn - groups[i].base);
      assert x in Blocks(init);
      assert g.members != [] ==> Block(g.base, g.members)[0] in Block(g.base, g.members);
    }
  }

  lemma GroupsAreFaithful(k: int, rParity: int, es: seq<Event>, g: Closed)
    requires Sane(es) && Increasing(Stream(es)) && g in Run(k, rParity, es).groups
    ensures Faithful(HistoryOf(k, rParity, es), g)
  {
    hide GroupOk, Run, Stream, Increasing, SentMap, Sane, Blocks, Block;
    var h := HistoryOf(k, rParity, es);
    var s := Run(k, rParity, es);
    EncoderPartitions(k, rParity, es);
    SentMapHolds(Stream(es));
    GroupFits(g, s.enc.k);
    var n :| 0 <= n < |s.groups| && s.groups[n] == g;
    forall i | 0 <= i < |g.members|
      ensures Carried(h, g, i)
    {
      InBlocks(s.groups, n, i);
      assert Numbered(g.base + i, g.members[i]) in Stream(es);
    }
    assert GroupOk(g, MAX_FEC_SHARDS);
  }

  lemma SentIsSane(es: seq<Event>, sn: nat)
    requires Sane(es) && Increasing(Stream(es)) && sn in SentMap(Stream(es))
    requires forall x <- Stream(es) :: SelfDescribing(x.m.pkt)
    ensures SelfDescribing(SentMap(Stream(es))[sn]) && |SentMap(Stream(es))[sn]| <= SHARD_CAP
  {
    hide SelfDescribing, Stream, SentMap, Increasing;
    SentMapHolds(Stream(es));
    StreamIsSane(es);
    assert SentAs(Stream(es), sn, SentMap(Stream(es))[sn]);
    var x :| x in Stream(es) && x.sn == sn && x.m.pkt == SentMap(Stream(es))[sn];
    assert SelfDescribing(x.m.pkt);
  }

  /** An encoder run over increasing numbers and self-describing packets is an honest history. */
  lemma EncoderIsHonest(k: int, rParity: int, es: seq<Event>)
    requires Sane(es) && Increasing(Stream(es))
    requires forall x <- Stream(es) :: SelfDescribing(x.m.pkt)
    ensures Honest(HistoryOf(k, rParity, es))
  {
    hide SelfDescribing, Faithful, Run, Stream, Increasing, SentMap, Sane, Blocks, Block, Covers;
    var h := HistoryOf(k, rParity, es);
    var s := Run(k, rParity, es);
    forall g <- h.groups ensures Faithful(h, g) {
      GroupsAreFaithful(k, rParity, es, g);
    }
    forall sn <- h.sent ensures SelfDescribing(h.sent[sn]) && |h.sent[sn]| <= SHARD_CAP {
      SentIsSane(es, sn);
    }
    EncoderPartitions(k, rParity, es);
    IncreasingParts(Blocks(s.groups), Block(s.enc.base, s.enc.members));
    forall i, j, sn: nat | 0 <= i < j < |h.groups| && Covers(h.groups[i], sn) ensures !Covers(h.groups[j], sn) {
      GroupsAreDisjoint(s.groups, i, j, sn);
    }
  }

  lemma GroupFits(g: Closed, k: nat)
    requires GroupOk(g, k) && k <= MAX_FEC_SHARDS
    ensures GroupOk(g, MAX_FEC_SHARDS)
  {
  }

  lemma {:induction false} StreamIsSane(es: seq<Event>)
    requires Sane(es)
    ensures forall x <- Stream(es) :: |x.m.pkt| <= SHARD_CAP
  {
    if es != [] {
      assert es[|es| - 1] in es;
      assert Sane(es[..|es| - 1]) by { assert forall e <- es[..|es| - 1] :: e in es; }
      StreamIsSane(es[..|es| - 1]);
    }
  }

  // ----- Any run of the decoder -----

  /** One call of the decoder: what it was handed, what it returned, what it became. */
  datatype Call = Call(input: Input, out: seq<Recovered>, after: Dec)

  ghost predicate Happens(code: Code, d: Dec, c: Call) {
    |d.ring| == RING_SIZE &&
    match c.input
    case Data(sn, pkt) => AddData(code, d, sn, pkt, c.after, c.out)
    case Shard(header, shard) => AddParity(code, d, header, shard) == (c.after, c.out)
  }

  ghost predicate IsRun(code: Code, d: Dec, calls: seq<Call>)
    decreases calls
  {
    calls == [] || (Happens(code, d, calls[0]) && IsRun(code, calls[0].after, calls[1..]))
  }

  lemma {:induction false} RunIsAuthentic(code: Code, h: History, d: Dec, calls: seq<Call>)
    requires Honest(h) && Correcting(code, h) && Inv(code, h, d)
    requires IsRun(code, d, calls) && forall c <- calls :: Genuine(code, h, c.input)
    ensures forall c <- calls :: Authentic(h, c.out) && Inv(code, h, c.after)
    decreases calls
  {
    hide Honest, Correcting, Inv, Authentic, Happens, AddParity, AddData;
    if calls != [] {
      var c := calls[0];
      assert c in calls;
      CallKeeps(code, h, d, c);
      assert forall x <- calls[1..] :: x in calls;
      RunIsAuthentic(code, h, c.after, calls[1..]);
      assert calls == [c] + calls[1..];
    }
  }

  lemma CallKeeps(code: Code, h: History, d: Dec, c: Call)
    requires Honest(h) && Correcting(code, h) && Inv(code, h, d)
    requires Happens(code, d, c) && Genuine(code, h, c.input)
    ensures Authentic(h, c.out) && Inv(code, h, c.after)
  {
    hide Honest, Correcting, Inv, Authentic, AddParity, AddData, ParityOf;
    match c.input
    case Data(sn, pkt) => AddDataKeeps(code, h, d, sn, pkt, c.after, c.out);
    case Shard(header, shard) => AddParityKeeps(code, h, d, header, shard);
  }

  /** Recovery end to end: for any encoder run over increasing numbers and self-describing
      packets, any correcting code, and any loss, reordering and repetition of its packets and
      parity shards, every packet the decoder returns is byte for byte the one sent under that
      number, and every tracked group is short of shards after every call. */
  lemma RecoveryIsAuthentic(code: Code, k: int, rParity: int, es: seq<Event>, calls: seq<Call>)
    requires Sane(es) && Increasing(Stream(es))
    requires forall x <- Stream(es) :: SelfDescribing(x.m.pkt)
    requires Correcting(code, HistoryOf(k, rParity, es))
    requires IsRun(code, NewDecoder(), calls)
    requires forall c <- calls :: Genuine(code, HistoryOf(k, rParity, es), c.input)
    ensures forall c <- calls ::
              && Authentic(HistoryOf(k, rParity, es), c.out)
              && AllShort(c.after.ring, c.after.groups) && |c.after.groups| <= MAX_GROUPS
  {
    hide Honest, Correcting, Authentic, Genuine, IsRun, RingOk, GroupsKnown, AllShort, HistoryOf;
    var h := HistoryOf(k, rParity, es);
    EncoderIsHonest(k, rParity, es);
    NewDecoderIsFine(code, h);
    RunIsAuthentic(code, h, NewDecoder(), calls);
  }

  // ----- Over the wire -----

  /** The n-th parity packet of the group, as bytes, and what the receiver parses from them. */
  ghost predicate OnWire(code: Code, g: Closed, n: nat, header: FECHeader, shard: Bytes) {
    && n < |Transmit(code, g).parities|
    && var p := Transmit(code, g).parities[n];
       ParseFECHeader(Marshal(p.header) + p.shard) == Ok(header, shard)
  }

  /** What the network may hand to the receiver: packets and parity packets that were sent. */
  ghost predicate Transmitted(code: Code, h: History, i: Input) {
    match i
    case Data(sn, pkt) => sn in h.sent && pkt == h.sent[sn]
    case Shard(header, shard) => exists g <- h.groups, n :: OnWire(code, g, n, header, shard)
  }

  /** A parity packet is read as the shard it carries while numbers fit into 48 bits. */
  lemma WireCarries(code: Code, h: History, g: Closed, n: nat, header: FECHeader, shard: Bytes)
    requires Honest(h) && Correcting(code, h) && g in h.groups && g.base < MAX_SEQ
    requires OnWire(code, g, n, header, shard)
    ensures ParityOf(code, g, header, shard)
  {
    hide Honest, Correcting, ParityShards, Marshal, ParseFECHeader;
    GroupIsFaithful(h, g);
    ParitySize(code, h, g);
    var p := Transmit(code, g).parities[n];
    assert p.shard in ParityShards(code, g);
    ParseMarshal(p.header, p.shard);
  }

  lemma TransmittedIsGenuine(code: Code, h: History, i: Input)
    requires Honest(h) && Correcting(code, h) && Transmitted(code, h, i)
    requires forall g <- h.groups :: g.base < MAX_SEQ
    ensures Genuine(code, h, i)
  {
    hide Honest, Correcting, OnWire, ParityOf;
    if i.Shard? {
      var g, n :| g in h.groups && OnWire(code, g, n, i.header, i.shard);
      WireCarries(code, h, g, n, i.header, i.shard);
    }
  }

  lemma BaseWasSent(k: int, rParity: int, es: seq<Event>, g: Closed)
    requires Sane(es) && g in Run(k, rParity, es).groups
    ensures exists x <- Stream(es) :: x.sn == g.base
  {
    hide Run, Stream, Sane, Blocks, Block;
    EncoderPartitions(k, rParity, es);
    var groups := Run(k, rParity, es).groups;
    var n :| 0 <= n < |groups| && groups[n] == g;
    InBlocks(groups, n, 0);
    assert Numbered(g.base, g.members[0]) in Stream(es);
  }

  /** Recovery from bytes to bytes: while sequence numbers fit into 48 bits, parity packets that are
      marshalled, lost, repeated, reordered and parsed give back only what was sent. */
  lemma RecoveryOverTheWire(code: Code, k: int, rParity: int, es: seq<Event>, calls: seq<Call>)
    requires Sane(es) && Increasing(Stream(es))
    requires forall x <- Stream(es) :: SelfDescribing(x.m.pkt) && x.sn < MAX_SEQ
    requires Correcting(code, HistoryOf(k, rParity, es))
    requires IsRun(code, NewDecoder(), calls)
    requires forall c <- calls :: Transmitted(code, HistoryOf(k, rParity, es), c.input)
    ensures forall c <- calls :: Authentic(HistoryOf(k, rParity, es), c.out)
  {
    hide Honest, Correcting, Authentic, Genuine, Transmitted, IsRun, AllShort, Stream, SelfDescribing, Increasing, Sane,
      SentMap, Run;
    var h := HistoryOf(k, rParity, es);
    EncoderIsHonest(k, rParity, es);
    forall g <- h.groups ensures g.base < MAX_SEQ {
      BaseWasSent(k, rParity, es, g);
    }
    forall c <- calls ensures Genuine(code, h, c.input) {
      TransmittedIsGenuine(code, h, c.input);
    }
    RecoveryIsAuthentic(code, k, rParity, es, calls);
  }

  lemma NewDecoderIsFine(code: Code, h: History)
    ensures Inv(code, h, NewDecoder())
  {
  }

  // ----- With single parity -----

  lemma {:induction false} SingleParity(k: int, es: seq<Event>)
    ensures Run(k, 1, es).enc.rFixed == 1
    ensures forall g <- Run(k, 1, es).groups :: g.r == 1
  {
    if es != [] {
      hide MaxLen;
      SingleParity(k, es[..|es| - 1]);
    }
  }

  /** With one fixed parity shard the XOR code corrects every history, so nothing above is
      vacuous. */
  lemma XorCorrects(k: int, es: seq<Event>)
    requires Sane(es)
    ensures Correcting(XorCode(), HistoryOf(k, 1, es))
  {
    hide ErasureCode, XorCode, Run;
    var s := Run(k, 1, es);
    EncoderPartitions(k, 1, es);
    SingleParity(k, es);
    forall g <- s.groups ensures ErasureCode(XorCode(), |g.members|, g.r) {
      assert GroupOk(g, s.enc.k);
      XorIsErasureCode(|g.members|);
    }
  }

  // ----- Through the reorder buffer -----

  /** The pushes one receive makes: the packet itself, then what the decoder recovered. */
  function Pushes(c: Call, clock: int, timeout: int): seq<RR.Event<Bytes>> {
    (if c.input.Data? then [RR.Pushed(c.input.sn, c.input.pkt, clock, timeout)] else [])
    + seq(|c.out|, i requires 0 <= i < |c.out| => RR.Pushed(c.out[i].sn, c.out[i].pkt, clock, timeout))
  }

  /** Receives interleaved with flush ticks.  `Bypassed` is a data packet sent outside FEC mode,
      which the decoder never sees. */
  datatype Arrival =
    | Received(call: Call, clock: int, timeout: int)
    | Bypassed(sn: nat, pkt: Bytes, clock: int, timeout: int)
    | Ticked(now: int, clock: int, timeout: int)

  function Events(arrivals: seq<Arrival>): seq<RR.Event<Bytes>> {
    if arrivals == [] then []
    else
      var a := arrivals[|arrivals| - 1];
      Events(arrivals[..|arrivals| - 1])
      + match a
        case Received(c, clock, timeout) => Pushes(c, clock, timeout)
        case Bypassed(sn, pkt, clock, timeout) => [RR.Pushed(sn, pkt, clock, timeout)]
        case Ticked(now, clock, timeout) => [RR.Ticked(now, clock, timeout)]
  }

  function Calls(arrivals: seq<Arrival>): seq<Call> {
    if arrivals == [] then []
    else
      var a := arrivals[|arrivals| - 1];
      Calls(arrivals[..|arrivals| - 1]) + if a.Received? then [a.call] else []
  }

  /** The packet was sent under this number, in FEC mode or outside it. */
  predicate WasSent(h: History, plain: map<nat, Bytes>, sn: nat, pkt: Bytes) {
    (sn in h.sent && h.sent[sn] == pkt) || (sn in plain && plain[sn] == pkt)
  }

  /** Only packets that were sent are pushed. */
  ghost predicate PushesSent(h: History, plain: map<nat, Bytes>, es: seq<RR.Event<Bytes>>) {
    forall e <- es :: e.Pushed? ==> WasSent(h, plain, e.sn, e.pkt)
  }

  ghost predicate BypassesSent(plain: map<nat, Bytes>, arrivals: seq<Arrival>) {
    forall a <- arrivals :: a.Bypassed? ==> a.sn in plain && plain[a.sn] == a.pkt
  }

  lemma {:induction false} EventsAreSent(code: Code, h: History, plain: map<nat, Bytes>, arrivals: seq<Arrival>)
    requires forall c <- Calls(arrivals) :: Genuine(code, h, c.input) && Authentic(h, c.out)
    requires BypassesSent(plain, arrivals)
    ensures PushesSent(h, plain, Events(arrivals))
  {
    if arrivals != [] {
      var prev, a := arrivals[..|arrivals| - 1], arrivals[|arrivals| - 1];
      assert BypassesSent(plain, prev) by { assert forall x <- prev :: x in arrivals; }
      EventsAreSent(code, h, plain, prev);
      assert a in arrivals;
      if a.Received? {
        assert a.call in Calls(arrivals);
        forall e <- Pushes(a.call, a.clock, a.timeout) ensures e.Pushed? && WasSent(h, plain, e.sn, e.pkt) {
          var i :| 0 <= i < |Pushes(a.call, a.clock, a.timeout)| && Pushes(a.call, a.clock, a.timeout)[i] == e;
        }
      }
    }
  }

  lemma {:induction false} GivenAreSent(h: History, plain: map<nat, Bytes>, es: seq<RR.Event<Bytes>>)
    requires PushesSent(h, plain, es)
    ensures forall x <- RR.Given(es) :: WasSent(h, plain, x.sn, x.pkt)
  {
    hide WasSent;
    if es != [] {
      assert es[|es| - 1] in es;
      assert PushesSent(h, plain, es[..|es| - 1]) by { assert forall e <- es[..|es| - 1] :: e in es; }
      GivenAreSent(h, plain, es[..|es| - 1]);
    }
  }

  lemma {:induction false} EmittedIsCounted(es: seq<RS.Emission<Bytes>>, e: RS.Emission<Bytes>)
    requires e in es
    ensures e.item in RR.Items(es)
  {
    if es[|es| - 1] != e {
      assert es == es[..|es| - 1] + [es[|es| - 1]];
      EmittedIsCounted(es[..|es| - 1], e);
    }
  }

  /** The receive path as a whole, in FEC mode and outside it, where `plain` are the packets sent
      outside: whatever is lost, reordered or repeated, whatever the decoder recovers and however
      often, the reorder buffer emits only packets that were sent under their number; it emits one
      of them twice exactly when a number emitted before is pushed again from the block exactly
      128 behind the newest one while its bit there is clear, so never if no pushed number lies in
      that block. */
  lemma DeliveryIsSoundAndOnce(code: Code, k: int, rParity: int, es: seq<Event>, plain: map<nat, Bytes>,
                               arrivals: seq<Arrival>, maxHold: int)
    requires Sane(es) && Increasing(Stream(es))
    requires forall x <- Stream(es) :: SelfDescribing(x.m.pkt)
    requires Correcting(code, HistoryOf(k, rParity, es))
    requires IsRun(code, NewDecoder(), Calls(arrivals))
    requires forall c <- Calls(arrivals) :: Genuine(code, HistoryOf(k, rParity, es), c.input)
    requires BypassesSent(plain, arrivals)
    ensures var h := HistoryOf(k, rParity, es); var b := RR.Run(maxHold, Events(arrivals));
            && (forall e <- b.emitted :: WasSent(h, plain, e.item.sn, e.item.pkt))
            && (W.Clean(W.SEEN_BLOCKS, RR.Numbers(Events(arrivals))) ==>
                  forall i, j | 0 <= i < j < |b.emitted| :: b.emitted[i].item.sn != b.emitted[j].item.sn)
            && (RO.Repeats(b.emitted) <==> exists n: nat :: RO.SlipsAt(maxHold, Events(arrivals), n))
  {
    hide RO.Repeats, RO.SlipsAt;
    RO.RepeatsIff(maxHold, Events(arrivals));
    hide Genuine, Authentic, IsRun, Correcting, HistoryOf, SelfDescribing, AllShort, RR.Run, RR.Given;
    var h := HistoryOf(k, rParity, es);
    var events := Events(arrivals);
    RecoveryIsAuthentic(code, k, rParity, es, Calls(arrivals));
    EventsAreSent(code, h, plain, arrivals);
    GivenAreSent(h, plain, events);
    RR.Conservation(maxHold, events);
    var b := RR.Run(maxHold, events);
    forall e <- b.emitted ensures WasSent(h, plain, e.item.sn, e.item.pkt) {
      EmittedIsCounted(b.emitted, e);
      assert e.item in RR.Total(b);
    }
    if W.Clean(W.SEEN_BLOCKS, RR.Numbers(events)) {
      RR.AtMostOnce(maxHold, events);
    }
  }
}
