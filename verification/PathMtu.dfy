/** From a discovered wire MTU to the datagrams a path may carry: the composition of the
    prober, the size accounting of `internal/wire/mtu.go`, `applyPathMTU` and the scheduler. */
module PathMtu {
  import opened Common
  import P = ProberSpec
  import N = ProberNetwork
  import opened SchedSpec
  import W = Wire

  const HEADER_SIZE := 16
  const DATA_HEADER_SIZE := 8
  const TAG_SIZE := 16
  const OVERHEAD := HEADER_SIZE + DATA_HEADER_SIZE + TAG_SIZE

  function IpUdp(v4: bool): int { if v4 then 28 else 48 }

  /** The outer IP packet around a sealed plaintext. */
  function OuterSize(plaintext: int, v4: bool): int { IpUdp(v4) + HEADER_SIZE + plaintext + TAG_SIZE }

  function ProbePlaintextLen(wireMTU: int, v4: bool): int {
    if v4 then wireMTU - (20 + 8 + HEADER_SIZE + TAG_SIZE) else wireMTU - (40 + 8 + HEADER_SIZE + TAG_SIZE)
  }

  function MaxInnerForWireMTU(wireMTU: int, v4: bool): int {
    if v4 then wireMTU - 28 - OVERHEAD else wireMTU - 48 - OVERHEAD
  }

  /** `applyPathMTU`: the inner limit recorded for a result; 0 is no limit. */
  function AppliedLimit(discovered: int, v4: bool): int {
    if discovered == -1 then 1
    else if discovered > 0 then Max(MaxInnerForWireMTU(discovered, v4), 1)
    else 0
  }

  /** A probe fills its wire size exactly, and the limit derived from a result admits exactly
      the data and parity datagrams no larger than it. */
  lemma LimitIsExact(discovered: int, v4: bool, len: int)
    requires discovered >= P.FLOOR
    ensures OuterSize(ProbePlaintextLen(discovered, v4), v4) == discovered
    ensures AppliedLimit(discovered, v4) > 1
    ensures len <= AppliedLimit(discovered, v4) <==> OuterSize(DATA_HEADER_SIZE + len, v4) <= discovered
    ensures len <= AppliedLimit(discovered, v4) <==> OuterSize(W.FEC_HEADER_SIZE + len, v4) <= discovered
  {
  }

  /** Whatever the network did to the probes, a packet or parity shard of `len` bytes that the
      applied limit admits makes a datagram no larger than a probe sent since the last restart
      that reached the peer; on a path reported dead only a single byte is admitted. */
  lemma AdmittedWasProbed(ceil: int, ms: seq<N.Move>, path: Path, v4: bool, len: int)
    requires N.Possible(ceil, ms) && N.Probes(ceil, ms) < P.ID_SPACE
    requires var d := N.After(ceil, ms).prober.discovered;
             d != 0 && path.maxInner == AppliedLimit(d, v4)
    requires Fits(path, len)
    ensures var w := N.After(ceil, ms);
            if w.prober.discovered == -1 then len <= 1
            else exists id :: id in w.recent && id in w.arrived && id in w.sent
                              && OuterSize(DATA_HEADER_SIZE + len, v4) <= w.sent[id]
                              && OuterSize(W.FEC_HEADER_SIZE + len, v4) <= w.sent[id]
  {
    hide P.Inv;
    var w := N.After(ceil, ms);
    N.RunBacks(ceil, ms);
    InvRange(w.prober);
    if w.prober.discovered != -1 {
      LimitIsExact(w.prober.discovered, v4, len);
      assert N.Proven(w, w.prober.discovered);
    }
  }

  lemma InvRange(p: P.Prober)
    requires P.Inv(p)
    ensures p.discovered == -1 || p.discovered == 0 || p.discovered >= P.FLOOR
  {
  }

  /** The limits in numbers: 68 bytes around an inner packet over IPv4 and 88 over IPv6; none while
      nothing is known, and one byte once the path is found dead. */
  lemma LimitsInUse(discovered: int, v4: bool, len: int)
    ensures OuterSize(DATA_HEADER_SIZE + len, v4) == len + if v4 then 68 else 88
    ensures OuterSize(W.FEC_HEADER_SIZE + len, v4) == len + if v4 then 68 else 88
    ensures discovered >= 576 ==> AppliedLimit(discovered, v4) == discovered - if v4 then 68 else 88
    ensures AppliedLimit(-1, v4) == 1 && AppliedLimit(0, v4) == 0
    ensures forall p: Path :: p.maxInner == AppliedLimit(0, v4) ==> Fits(p, len)
  {
  }

  // ----- Who carries what -----

  /** `sendParities`: a shard goes to active paths that admit a packet of its length. */
  predicate Candidate(p: Path, len: int) { p.present && p.state == Active && Fits(p, len) }

  /** The candidates in the order parity shards are dealt to them: every candidate once, those
      that carried fewer packets of the group first.  Ties may come in any order. */
  ghost predicate DealingOrder(t: Table, counts: seq<nat>, len: int, order: seq<nat>) {
    && (forall i | 0 <= i < |order| :: order[i] < |t| && order[i] < |counts| && Candidate(t[order[i]], len))
    && (forall id | 0 <= id < |t| && Candidate(t[id], len) :: id in order)
    && (forall i, j | 0 <= i < j < |order| :: order[i] != order[j] && counts[order[i]] <= counts[order[j]])
  }

  /** The path of the n-th parity shard. */
  function Dealt(order: seq<nat>, n: nat): nat
    requires order != []
  {
    order[n % |order|]
  }

  /** The paths a shard may go to, by index; sorting them by use comes after. */
  method FindCandidates(t: Table, len: int) returns (ids: seq<nat>)
    ensures forall i | 0 <= i < |ids| :: ids[i] < |t| && Candidate(t[ids[i]], len)
    ensures forall id | 0 <= id < |t| && Candidate(t[id], len) :: id in ids
    ensures forall i, j | 0 <= i < j < |ids| :: ids[i] < ids[j]
  {
    ids := [];
    for id := 0 to |t|
      invariant forall i | 0 <= i < |ids| :: ids[i] < id && Candidate(t[ids[i]], len)
      invariant forall i | 0 <= i < id && Candidate(t[i], len) :: i in ids
      invariant forall i, j | 0 <= i < j < |ids| :: ids[i] < ids[j]
    {
      if !t[id].present || t[id].state != Active {
        continue;
      }
      if t[id].maxInner != 0 && len > t[id].maxInner {
        continue;
      }
      ids := ids + [id];
    }
  }

  /** Sends the shards round the candidates; nothing is sent when there are none. */
  method DealShards(order: seq<nat>, shards: nat) returns (targets: seq<nat>)
    ensures order == [] ==> targets == []
    ensures order != [] ==> |targets| == shards && forall n | 0 <= n < shards :: targets[n] == Dealt(order, n)
  {
    targets := [];
    if order == [] {
      return;
    }
    for n := 0 to shards
      invariant |targets| == n && forall i | 0 <= i < n :: targets[i] == Dealt(order, i)
    {
      targets := targets + [order[n % |order|]];
    }
  }

  lemma FirstDeal(order: seq<nat>, n: nat)
    requires n < |order|
    ensures Dealt(order, n) == order[n]
  {
  }

  lemma DealtIsInOrder(order: seq<nat>, n: nat) returns (i: nat)
    requires order != []
    ensures i < |order| && i <= n && Dealt(order, n) == order[i]
  {
    i := n % |order|;
  }

  lemma PlaceOf(t: Table, counts: seq<nat>, len: int, order: seq<nat>, id: nat) returns (l: nat)
    requires DealingOrder(t, counts, len, order) && id < |t| && Candidate(t[id], len)
    ensures l < |order| && order[l] == id
  {
    assert id in order;
    l :| 0 <= l < |order| && order[l] == id;
  }

  /** Shards only go where they fit. */
  lemma DealtFits(t: Table, counts: seq<nat>, len: int, order: seq<nat>, n: nat)
    requires DealingOrder(t, counts, len, order) && order != []
    ensures Dealt(order, n) < |t| && t[Dealt(order, n)].present && t[Dealt(order, n)].state == Active
    ensures t[Dealt(order, n)].maxInner == 0 || len <= t[Dealt(order, n)].maxInner
  {
    hide Dealt;
    var i := DealtIsInOrder(order, n);
  }

  /** No path gets a second shard before every candidate has one. */
  lemma DealtInTurn(t: Table, counts: seq<nat>, len: int, order: seq<nat>, m: nat, n: nat, id: nat) returns (l: nat)
    requires DealingOrder(t, counts, len, order) && order != []
    requires m < n && Dealt(order, m) == Dealt(order, n) && id < |t| && Candidate(t[id], len)
    ensures l < n && Dealt(order, l) == id
  {
    hide Dealt, Candidate;
    l := PlaceOf(t, counts, len, order, id);
    FirstDeal(order, l);
    if n < |order| {
      FirstDeal(order, m);
      FirstDeal(order, n);
    }
  }

  /** A candidate that gets no shard carried at least as much of the group as any that gets one. */
  lemma DealtToLeastUsed(t: Table, counts: seq<nat>, len: int, order: seq<nat>, shards: nat, n: nat, id: nat)
    requires DealingOrder(t, counts, len, order) && order != [] && n < shards
    requires id < |t| && Candidate(t[id], len) && forall l | 0 <= l < shards :: Dealt(order, l) != id
    ensures id < |counts| && Dealt(order, n) < |counts| && counts[Dealt(order, n)] <= counts[id]
  {
    hide Dealt, Candidate;
    var l := PlaceOf(t, counts, len, order, id);
    FirstDeal(order, l);
    var i := DealtIsInOrder(order, n);
    assert i < l;
  }

  /** A path applied as dead carries no inner packet of 20 bytes or more and no parity of one: it
      is not eligible in any mode, never the pick, and never dealt a shard. */
  lemma DeadPathCarriesNothing(t: Table, counts: seq<nat>, len: int, order: seq<nat>, v4: bool, id: nat)
    requires len >= 20 && id < |t| && t[id].maxInner == AppliedLimit(-1, v4)
    ensures !Eligible(t[id], len) && Pick(t, len) != Some(id)
    ensures DealingOrder(t, counts, len, order) ==> id !in order
  {
    PickIsLowest(t, len);
  }

  /** Whatever mode the scheduler is in and wherever parity is dealt, a datagram around a packet or
      shard of `len` bytes is no larger than a probe that was sent since the last restart and
      arrived, on every path whose limit is that of a prober that has reported a positive result. */
  lemma CarriedWasProbed(ceil: int, ms: seq<N.Move>, t: Table, counts: seq<nat>, order: seq<nat>,
                         v4: bool, len: int, id: nat)
    requires N.Possible(ceil, ms) && N.Probes(ceil, ms) < P.ID_SPACE && N.After(ceil, ms).prober.discovered > 0
    requires id < |t| && t[id].maxInner == AppliedLimit(N.After(ceil, ms).prober.discovered, v4)
    requires Eligible(t[id], len) || (DealingOrder(t, counts, len, order) && id in order)
    ensures var w := N.After(ceil, ms);
            exists probe :: probe in w.recent && probe in w.arrived && probe in w.sent
                            && OuterSize(DATA_HEADER_SIZE + len, v4) <= w.sent[probe]
                            && OuterSize(W.FEC_HEADER_SIZE + len, v4) <= w.sent[probe]
  {
    hide N.After, N.Possible, N.Probes, AppliedLimit;
    AdmittedWasProbed(ceil, ms, t[id], v4, len);
  }
}
