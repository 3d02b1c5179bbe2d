/** The encoder as the program keeps it: reused shard buffers filled and padded in place. */
module FecEncoder {
  import opened Common
  import opened Wire
  import opened ErasureCodes
  import opened FecEncoderSpec

  class Encoder {
    const code: Code
    const k: nat
    const rFixed: int
    const flushAfter: int
    const lens: array<nat>
    const shards: array<Bytes>
    const pathCounts: array<nat>
    var baseSeq: nat
    var n: nat
    var maxLen: nat
    var startedAt: int
    ghost var members: seq<Member>

    ghost function Model(): Enc
      reads this
    {
      Enc(k, rFixed, baseSeq, members, startedAt)
    }

    /** Shard `i` starts with packet `i`; what follows in the buffer is left over. */
    ghost predicate Filled(i: nat)
      requires i < |members| && i < lens.Length && i < shards.Length
      reads `members, lens, shards
    {
      lens[i] == |members[i].pkt| <= |shards[i]| && shards[i][..lens[i]] == members[i].pkt
    }

    ghost predicate Linked()
      reads `members, `n, `maxLen, lens, shards, pathCounts
    {
      && 2 <= k <= MAX_FEC_SHARDS
      && lens.Length == k && shards.Length == k && pathCounts.Length == MAX_PATHS && lens != pathCounts
      && n == |members| <= k
      && (n > 0 ==> maxLen == MaxLen(members))
      && (forall i | 0 <= i < k :: |shards[i]| == SHARD_CAP)
      && (forall i | 0 <= i < n :: Filled(i))
      && pathCounts[..] == PathCounts(members)
    }

    ghost predicate Valid()
      reads this, lens, shards, pathCounts
    {
      Linked() && n < k
    }

    constructor (code: Code, k0: int, rParity: int, flushAfter: int)
      ensures Valid() && fresh(lens) && fresh(shards) && fresh(pathCounts)
      ensures Model() == NewEncoder(k0, rParity) && this.code == code && this.flushAfter == flushAfter
    {
      this.code, this.flushAfter := code, flushAfter;
      var size := if k0 < 2 then 2 else if k0 > MAX_FEC_SHARDS then MAX_FEC_SHARDS else k0;
      k := size;
      rFixed := if rParity > MAX_FEC_SHARDS then MAX_FEC_SHARDS else rParity;
      lens := new nat[size](_ => 0);
      shards := new Bytes[size](_ => Zeros(SHARD_CAP));
      pathCounts := new nat[MAX_PATHS](_ => 0);
      baseSeq, n, maxLen, startedAt := 0, 0, 0, 0;
      members := [];
    }

    method Add(sn: nat, m: Member, now: int, loss: real) returns (out: Option<Group>)
      requires Valid() && m.path < MAX_PATHS
      modifies this, lens, shards, pathCounts
      ensures Valid()
      ensures var (e, closed) := FecEncoderSpec.Add(old(Model()), sn, m, now, loss);
              Model() == e && out == if closed.Some? then Some(Transmit(code, closed.value)) else None
    {
      assert k >= 2;
      hide Transmit, Close, Linked;
      if |m.pkt| > SHARD_CAP {
        return None;
      }
      out := None;
      if n > 0 && sn != baseSeq + n {
        out := FlushLocked(loss);
      }
      Append(sn, m, now);
      if n == k {
        var g := FlushLocked(loss);
        if out.None? {
          out := g;
        } else {
          // A second group in one call: the first one left a single packet, and k is at least 2.
          assert false;
        }
      }
    }

    method FlushExpired(now: int, loss: real) returns (out: Option<Group>)
      requires Valid()
      modifies this, lens, shards, pathCounts
      ensures Valid()
      ensures var (e, closed) := FecEncoderSpec.FlushExpired(old(Model()), now, flushAfter, loss);
              Model() == e && out == if closed.Some? then Some(Transmit(code, closed.value)) else None
    {
      hide Transmit, Close;
      if n == 0 || now - startedAt < flushAfter {
        return None;
      }
      out := FlushLocked(loss);
    }

    /** Copies the packet into the next shard buffer. */
    method Append(sn: nat, m: Member, now: int)
      requires Linked() && n < k && m.path < MAX_PATHS && |m.pkt| <= SHARD_CAP
      modifies this, lens, shards, pathCounts
      ensures Linked() && Model() == Join(old(Model()), sn, m, now) && n == old(n) + 1
    {
      hide MaxLen, PathCounts;
      GrowsBy(members, m);
      if n == 0 {
        baseSeq, startedAt, maxLen := sn, now, 0;
      }
      shards[n] := m.pkt + shards[n][|m.pkt|..];
      lens[n] := |m.pkt|;
      if |m.pkt| > maxLen {
        maxLen := |m.pkt|;
      }
      pathCounts[m.path] := pathCounts[m.path] + 1;
      n := n + 1;
      members := members + [m];
      forall i | 0 <= i < n ensures Filled(i) {
        assert i < old(n) ==> old(Filled(i));
      }
      assert pathCounts[..] == old(pathCounts[..])[m.path := old(pathCounts[..])[m.path] + 1];
    }

    /** Encodes the open group's parity and empties it. */
    method FlushLocked(loss: real) returns (out: Option<Group>)
      requires Linked() && n > 0
      modifies this, lens, shards, pathCounts
      ensures Linked() && n == 0
      ensures var (e, closed) := Close(old(Model()), loss);
              Model() == e && out == if closed.Some? then Some(Transmit(code, closed.value)) else None
    {
      ghost var before := members;
      var size := maxLen;
      var r := ParityCount(rFixed, loss, n);
      if size == 0 {
        out := None;
      } else {
        var work := PadShards(size);
        assert work == DataShards(members);
        var parity := code.parity(work, r);
        var parities := [];
        for i := 0 to |parity|
          invariant |parities| == i
          invariant forall j | 0 <= j < i :: parities[j] == Parity(FECHeader(baseSeq, n, r, j), parity[j])
        {
          parities := parities + [Parity(FECHeader(baseSeq, n, r, i), parity[i])];
        }
        out := Some(Group(parities, pathCounts[..]));
        assert out.value == Transmit(code, Closed(baseSeq, members, r));
      }
      Clear();
    }

    /** Zeroes the left-over tail of every data shard. */
    method PadShards(size: nat) returns (work: seq<Bytes>)
      requires Linked() && size == MaxLen(members) && n > 0
      modifies shards
      ensures Linked()
      ensures |work| == n && forall i | 0 <= i < n :: |members[i].pkt| <= size && work[i] == Pad(members[i].pkt, size)
    {
      assert n == |members|;
      hide Linked;
      work := [];
      for i := 0 to n
        invariant Linked()
        invariant |work| == i
        invariant forall j | 0 <= j < i :: |members[j].pkt| <= size && work[j] == Pad(members[j].pkt, size)
      {
        var s := PadShard(i, size);
        work := work + [s];
      }
    }

    method PadShard(i: nat, size: nat) returns (s: Bytes)
      requires Linked() && i < n && size == MaxLen(members)
      modifies shards
      ensures Linked() && i < |members| && |members[i].pkt| <= size && s == Pad(members[i].pkt, size)
    {
      MaxLenIsLongest(members);
      MaxLenCapped();
      assert members[i] in members && Filled(i);
      ghost var before := shards[..];
      var buf := shards[i];
      shards[i] := buf[..lens[i]] + Zeros(size - lens[i]) + buf[size..];
      s := shards[i][..size];
      assert s == Pad(members[i].pkt, size);
      forall j | 0 <= j < n ensures Filled(j) {
        assert old(Filled(j));
        assert j != i ==> shards[j] == before[j];
      }
    }

    lemma MaxLenCapped()
      requires Linked()
      ensures MaxLen(members) <= SHARD_CAP
    {
      MaxLenIsLongest(members);
      if MaxLen(members) != 0 {
        var m :| m in members && |m.pkt| == MaxLen(members);
        var i :| 0 <= i < |members| && members[i] == m;
        assert Filled(i);
      }
    }

    method Clear()
      requires Linked()
      modifies `n, `members, pathCounts
      ensures Linked() && n == 0 && members == []
    {
      n := 0;
      members := [];
      for i := 0 to MAX_PATHS
        invariant forall j | 0 <= j < i :: pathCounts[j] == 0
        modifies pathCounts
      {
        pathCounts[i] := 0;
      }
      assert pathCounts[..] == PathCounts([]);
    }
  }

  /** One more member: the longest length and the count of its path. */
  lemma GrowsBy(members: seq<Member>, m: Member)
    requires m.path < MAX_PATHS
    ensures MaxLen(members + [m]) == Max(if members == [] then 0 else MaxLen(members), |m.pkt|)
    ensures |PathCounts(members)| == MAX_PATHS
    ensures PathCounts(members + [m]) == PathCounts(members)[m.path := PathCounts(members)[m.path] + 1]
  {
    assert (members + [m])[..|members|] == members;
    var before, after := PathCounts(members), PathCounts(members + [m]);
    hide MaxLen, CountPath;
    forall p | 0 <= p < MAX_PATHS ensures after[p] == before[p] + if p == m.path then 1 else 0 {
      CountGrows(members, m, p);
    }
  }

  lemma CountGrows(members: seq<Member>, m: Member, p: nat)
    ensures CountPath(members + [m], p) == CountPath(members, p) + if m.path == p then 1 else 0
  {
    assert (members + [m])[..|members|] == members;
  }
}
