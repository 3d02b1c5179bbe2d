/** The FEC encoder: cutting the sent stream into contiguous groups and closing them with
    parity (`internal/fec/fec.go`). */
module FecEncoderSpec {
  import opened Common
  import opened Wire
  import opened ErasureCodes

  const SHARD_CAP := 2048

  datatype Member = Member(pkt: Bytes, path: nat)

  /** The open group: its first sequence number, members and start time. */
  datatype Enc = Enc(k: nat, rFixed: int, base: nat, members: seq<Member>, startedAt: int)

  /** A closed group with the number of parity shards chosen for it. */
  datatype Closed = Closed(base: nat, members: seq<Member>, r: nat)

  datatype Parity = Parity(header: FECHeader, shard: Bytes)

  /** What the sender transmits for a closed group. */
  datatype Group = Group(parities: seq<Parity>, pathCounts: seq<nat>)

  function NewEncoder(k: int, rParity: int): Enc {
    Enc(if k < 2 then 2 else if k > MAX_FEC_SHARDS then MAX_FEC_SHARDS else k,
        if rParity > MAX_FEC_SHARDS then MAX_FEC_SHARDS else rParity, 0, [], 0)
  }

  /** Truncation toward zero, as the integer conversion of a float does. */
  function Truncate(x: real): int { if x >= 0.0 then x.Floor else -((-x).Floor) }

  /** Twice the packets expected to be lost of `k`, ready to be rounded. */
  function Expected(loss: real, k: int): real { k as real * 2.0 * loss + 0.5 }

  /** The adaptive count before it is cut to range. */
  function Wanted(loss: real, k: int): int { 1 + Truncate(Expected(loss, k)) }

  /** Parity shards for `k` data shards at the given loss estimate. */
  function ParityCount(rFixed: int, loss: real, k: int): nat {
    var r := if rFixed == 0 then Wanted(loss, k) else rFixed;
    var r1 := if r > 4 then 4 else r;
    var r2 := if r1 > k then k else r1;
    if r2 < 1 then 1 else r2
  }

  /** Between one and four parity shards, never more than data shards, whatever the loss
      estimate; without loss an adaptive encoder sends exactly one. */
  lemma ParityCountInRange(rFixed: int, loss: real, k: int)
    requires k >= 1
    ensures 1 <= ParityCount(rFixed, loss, k) <= 4 && ParityCount(rFixed, loss, k) <= k
    ensures ParityCount(0, 0.0, k) == 1
  {
  }

  function MaxLen(members: seq<Member>): nat {
    if members == [] then 0
    else
      var m := MaxLen(members[..|members| - 1]);
      if |members[|members| - 1].pkt| > m then |members[|members| - 1].pkt| else m
  }

  lemma {:induction false} MaxLenIsLongest(members: seq<Member>)
    ensures forall m <- members :: |m.pkt| <= MaxLen(members)
    ensures MaxLen(members) == 0 || exists m <- members :: |m.pkt| == MaxLen(members)
  {
    if members != [] {
      var init, last := members[..|members| - 1], members[|members| - 1];
      MaxLenIsLongest(init);
      assert members == init + [last];
      if |last.pkt| <= MaxLen(init) && MaxLen(init) != 0 {
        var m :| m in init && |m.pkt| == MaxLen(init);
        assert m in members;
      }
    }
  }

  /** The data shards of a group: its packets padded to the longest. */
  function DataShards(members: seq<Member>): (data: seq<Bytes>)
    ensures |data| == |members|
  {
    MaxLenIsLongest(members);
    seq(|members|, i requires 0 <= i < |members| => Pad(members[i].pkt, MaxLen(members)))
  }

  function CountPath(members: seq<Member>, path: nat): nat {
    if members == [] then 0
    else CountPath(members[..|members| - 1], path) + if members[|members| - 1].path == path then 1 else 0
  }

  function PathCounts(members: seq<Member>): seq<nat> {
    seq(MAX_PATHS, p requires 0 <= p => CountPath(members, p))
  }

  function ParityShards(code: Code, g: Closed): seq<Bytes> { code.parity(DataShards(g.members), g.r) }

  /** The group as transmitted. */
  function Transmit(code: Code, g: Closed): Group {
    var shards := ParityShards(code, g);
    Group(seq(|shards|, i requires 0 <= i < |shards| => Parity(FECHeader(g.base, |g.members|, g.r, i), shards[i])),
          PathCounts(g.members))
  }

  // ----- The calls -----

  /** Closes the open group.  A group of empty packets only has no shard data, so the code
      refuses it and the group is dropped. */
  function Close(e: Enc, loss: real): (Enc, Option<Closed>) {
    if MaxLen(e.members) == 0 then (e.(members := []), None)
    else (e.(members := []), Some(Closed(e.base, e.members, ParityCount(e.rFixed, loss, |e.members|))))
  }

  predicate Contiguous(e: Enc, sn: nat) { e.members == [] || sn == e.base + |e.members| }

  /** The packet joins the open group, or starts one. */
  function Join(e: Enc, sn: nat, m: Member, now: int): Enc {
    if e.members == [] then e.(base := sn, startedAt := now, members := [m]) else e.(members := e.members + [m])
  }

  /** A discontinuity closes the open group first, a full group closes after the packet joined. */
  function Add(e: Enc, sn: nat, m: Member, now: int, loss: real): (Enc, Option<Closed>) {
    if |m.pkt| > SHARD_CAP then (e, None)
    else if !Contiguous(e, sn) then
      var (e1, out) := Close(e, loss);
      (Join(e1, sn, m, now), out)
    else
      var e1 := Join(e, sn, m, now);
      if |e1.members| == e.k then Close(e1, loss) else (e1, None)
  }

  function FlushExpired(e: Enc, now: int, flushAfter: int, loss: real): (Enc, Option<Closed>) {
    if e.members == [] || now - e.startedAt < flushAfter then (e, None) else Close(e, loss)
  }

  // ----- Runs -----

  datatype Event =
    | Added(sn: nat, m: Member, now: int, loss: real)
    | Flushed(now: int, flushAfter: int, loss: real)

  /** The encoder and the groups it has closed so far. */
  datatype State = State(enc: Enc, groups: seq<Closed>)

  function Step(s: State, e: Event): State {
    var (enc, out) := match e
      case Added(sn, m, now, loss) => Add(s.enc, sn, m, now, loss)
      case Flushed(now, flushAfter, loss) => FlushExpired(s.enc, now, flushAfter, loss);
    State(enc, if out.Some? then s.groups + [out.value] else s.groups)
  }

  function Run(k: int, rParity: int, es: seq<Event>): State {
    if es == [] then State(NewEncoder(k, rParity), []) else Step(Run(k, rParity, es[..|es| - 1]), es[|es| - 1])
  }

  /** A packet under its sequence number. */
  datatype Numbered = Numbered(sn: nat, m: Member)

  function Stream(es: seq<Event>): seq<Numbered> {
    if es == [] then []
    else
      var e := es[|es| - 1];
      Stream(es[..|es| - 1]) + if e.Added? then [Numbered(e.sn, e.m)] else []
  }

  /** The members of a group under their numbers, which are consecutive from the base. */
  function Block(base: nat, members: seq<Member>): seq<Numbered> {
    seq(|members|, i requires 0 <= i < |members| => Numbered(base + i, members[i]))
  }

  function Blocks(groups: seq<Closed>): seq<Numbered> {
    if groups == [] then []
    else Blocks(groups[..|groups| - 1]) + Block(groups[|groups| - 1].base, groups[|groups| - 1].members)
  }

  /** Every packet added is non-empty, fits a shard and was sent on one of the paths. */
  predicate Sane(es: seq<Event>) {
    forall e <- es :: e.Added? ==> 0 < |e.m.pkt| <= SHARD_CAP && e.m.path < MAX_PATHS
  }

  predicate GroupOk(g: Closed, k: nat) {
    && 1 <= |g.members| <= k && 1 <= g.r <= 4 && g.r <= |g.members|
    && 0 < MaxLen(g.members) <= SHARD_CAP
    && forall m <- g.members :: m.path < MAX_PATHS
  }

  ghost predicate Partitioned(s: State, stream: seq<Numbered>) {
    && 2 <= s.enc.k <= MAX_FEC_SHARDS
    && |s.enc.members| < s.enc.k
    && (forall m <- s.enc.members :: 0 < |m.pkt| <= SHARD_CAP && m.path < MAX_PATHS)
    && (forall g <- s.groups :: GroupOk(g, s.enc.k))
    && stream == Blocks(s.groups) + Block(s.enc.base, s.enc.members)
  }

  lemma CloseSplits(e: Enc, groups: seq<Closed>, loss: real)
    requires e.members != [] && |e.members| <= e.k
    requires forall m <- e.members :: 0 < |m.pkt| <= SHARD_CAP && m.path < MAX_PATHS
    ensures var (e', out) := Close(e, loss);
            && out.Some? && GroupOk(out.value, e.k) && e'.members == [] && e'.k == e.k
            && Blocks(groups + [out.value]) == Blocks(groups) + Block(e.base, e.members)
  {
    MaxLenIsLongest(e.members);
    assert e.members[0] in e.members;
    ParityCountInRange(e.rFixed, loss, |e.members|);
    var g := Close(e, loss).1.value;
    assert (groups + [g])[..|groups|] == groups;
  }

  lemma JoinExtends(e: Enc, sn: nat, m: Member, now: int)
    requires Contiguous(e, sn)
    ensures var e' := Join(e, sn, m, now);
            Block(e'.base, e'.members) == (if e.members == [] then [] else Block(e.base, e.members)) + [Numbered(sn, m)]
  {
  }

  lemma StepPartitions(s: State, stream: seq<Numbered>, e: Event)
    requires Partitioned(s, stream)
    requires e.Added? ==> 0 < |e.m.pkt| <= SHARD_CAP && e.m.path < MAX_PATHS
    ensures Partitioned(Step(s, e), stream + if e.Added? then [Numbered(e.sn, e.m)] else [])
  {
    hide Close, Join, Blocks, GroupOk;
    match e
    case Added(sn, m, now, loss) => AddPartitions(s, stream, sn, m, now, loss);
    case Flushed(now, flushAfter, loss) =>
      if s.enc.members != [] && now - s.enc.startedAt >= flushAfter {
        CloseSplits(s.enc, s.groups, loss);
      }
  }

  lemma AddPartitions(s: State, stream: seq<Numbered>, sn: nat, m: Member, now: int, loss: real)
    requires Partitioned(s, stream) && 0 < |m.pkt| <= SHARD_CAP && m.path < MAX_PATHS
    ensures Partitioned(Step(s, Added(sn, m, now, loss)), stream + [Numbered(sn, m)])
  {
    hide Close, Blocks, GroupOk;
    var e := s.enc;
    if !Contiguous(e, sn) {
      CloseSplits(e, s.groups, loss);
      JoinExtends(Close(e, loss).0, sn, m, now);
    } else {
      var e1 := Join(e, sn, m, now);
      JoinExtends(e, sn, m, now);
      if |e1.members| == e.k {
        CloseSplits(e1, s.groups, loss);
      }
    }
  }

  /** Over every run the closed groups and the open one split the stream, in order, into blocks
      of consecutive numbers of admissible size. */
  lemma {:induction false} EncoderPartitions(k: int, rParity: int, es: seq<Event>)
    requires Sane(es)
    ensures Partitioned(Run(k, rParity, es), Stream(es))
  {
    if es != [] {
      var prev, e := es[..|es| - 1], es[|es| - 1];
      assert e in es;
      assert Sane(prev) by { assert forall x <- prev :: x in es; }
      EncoderPartitions(k, rParity, prev);
      StepPartitions(Run(k, rParity, prev), Stream(prev), e);
      assert Stream(es) == Stream(prev) + if e.Added? then [Numbered(e.sn, e.m)] else [];
    }
  }

  function Sum(s: seq<nat>): nat { if s == [] then 0 else Sum(s[..|s| - 1]) + s[|s| - 1] }

  /** Path counts account for every data shard of the group. */
  lemma {:induction false} PathCountsSum(members: seq<Member>)
    requires forall m <- members :: m.path < MAX_PATHS
    ensures Sum(PathCounts(members)) == |members|
  {
    if members == [] {
      SumZeros(PathCounts(members));
    } else {
      var init, last := members[..|members| - 1], members[|members| - 1];
      PathCountsSum(init);
      assert last in members;
      SumBump(PathCounts(init), PathCounts(members), last.path);
    }
  }

  lemma {:induction false} SumZeros(s: seq<nat>)
    requires forall i | 0 <= i < |s| :: s[i] == 0
    ensures Sum(s) == 0
  {
    if s != [] {
      SumZeros(s[..|s| - 1]);
    }
  }

  lemma {:induction false} SumBump(s: seq<nat>, t: seq<nat>, p: nat)
    requires |s| == |t| && p < |s| && forall i | 0 <= i < |s| :: t[i] == s[i] + if i == p then 1 else 0
    ensures Sum(t) == Sum(s) + 1
  {
    var n := |s| - 1;
    if p == n {
      assert s[..n] == t[..n];
    } else {
      SumBump(s[..n], t[..n], p);
    }
  }
}
