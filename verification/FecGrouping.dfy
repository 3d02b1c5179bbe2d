/** When the encoder closes a group, how many parity shards it gets, and what its path counts count. */
module FecGrouping {
  import opened Common
  import opened Wire
  import opened FecEncoderSpec

  // ----- Parity shards -----

  /** A fixed count within range is used; a higher one is cut to four and to the group's size. */
  lemma FixedParity(r: int, loss: real, k: nat)
    requires r != 0 && k >= 1
    ensures 1 <= r <= 4 && r <= k ==> ParityCount(r, loss, k) == r
    ensures r > 4 && k >= 4 ==> ParityCount(r, loss, k) == 4
    ensures r > k && k <= 4 ==> ParityCount(r, loss, k) == k
    ensures r < 0 ==> ParityCount(r, loss, k) == 1
  {
  }

  lemma TruncateIs(x: real, n: nat)
    ensures n >= 1 ==> (Truncate(x) >= n <==> x >= n as real)
  {
  }

  /** An adaptive encoder sends one shard more for every whole packet in twice the expected loss,
      rounded, up to four and to the group's size: more than `n` exactly from that loss on. */
  lemma AdaptiveParity(loss: real, k: nat, n: nat)
    requires 1 <= n < 4 && n < k
    ensures ParityCount(0, loss, k) > n <==> (k as real) * 2.0 * loss + 0.5 >= n as real
  {
    TruncateIs((k as real) * 2.0 * loss + 0.5, n);
  }

  /** More loss never means fewer shards. */
  lemma MoreLossMoreParity(r: int, low: real, high: real, k: nat)
    requires k >= 1 && low <= high
    ensures ParityCount(r, low, k) <= ParityCount(r, high, k)
  {
    hide Wanted;
    WantedGrows(low, high, k);
  }

  lemma WantedGrows(low: real, high: real, k: nat)
    requires low <= high
    ensures Wanted(low, k) <= Wanted(high, k)
  {
    hide Truncate, Expected;
    ExpectedGrows(low, high, k);
    TruncateGrows(Expected(low, k), Expected(high, k));
  }

  lemma ExpectedGrows(low: real, high: real, k: nat)
    requires low <= high
    ensures Expected(low, k) <= Expected(high, k)
  {
    ScaledUp((k as real) * 2.0, low, high);
  }

  lemma TruncateGrows(x: real, y: real)
    requires x <= y
    ensures Truncate(x) <= Truncate(y)
  {
  }

  lemma ScaledUp(a: real, x: real, y: real)
    requires a >= 0.0 && x <= y
    ensures a * x <= a * y
  {
    assert a * (y - x) >= 0.0;
  }

  // ----- Path counts -----

  ghost function SentOn(members: seq<Member>, p: nat): set<nat> {
    set i | 0 <= i < |members| && members[i].path == p
  }

  /** Each entry is the number of members sent on that path. */
  lemma {:induction false} CountPathIs(members: seq<Member>, p: nat)
    ensures CountPath(members, p) == |SentOn(members, p)|
    ensures p < MAX_PATHS ==> PathCounts(members)[p] == |SentOn(members, p)|
  {
    if members == [] {
      assert SentOn(members, p) == {};
    } else {
      hide SentOn;
      CountPathIs(members[..|members| - 1], p);
      SentOnLast(members, p);
    }
  }

  lemma SentOnLast(members: seq<Member>, p: nat)
    requires members != []
    ensures var n := |members| - 1;
            |SentOn(members, p)| == |SentOn(members[..n], p)| + if members[n].path == p then 1 else 0
  {
    var n := |members| - 1;
    assert SentOn(members, p) == SentOn(members[..n], p) + if members[n].path == p then {n} else {};
  }

  // ----- Full groups -----

  /** The group size in use: the configured one, at least 2 and at most 15. */
  function SizeInUse(k: int): nat { if k < 2 then 2 else if k > 15 then 15 else k }

  /** Packets under consecutive numbers, none empty or too long, and no flush between them. */
  predicate Consecutive(es: seq<Event>, first: nat) {
    forall i | 0 <= i < |es| ::
      es[i].Added? && es[i].sn == first + i && 0 < |es[i].m.pkt| <= SHARD_CAP && es[i].m.path < MAX_PATHS
  }

  lemma ConsecutivePrefix(es: seq<Event>, first: nat)
    requires es != [] && Consecutive(es, first)
    ensures Consecutive(es[..|es| - 1], first)
    ensures var e := es[|es| - 1]; e.Added? && e.sn == first + |es| - 1 && 0 < |e.m.pkt| <= SHARD_CAP
  {
  }

  /** Full groups so far, and the rest open. */
  ghost predicate Filling(s: State, k: nat, first: nat, n: nat) {
    && s.enc.k == k && k >= 2
    && n == k * |s.groups| + |s.enc.members| && |s.enc.members| < k
    && (s.enc.members != [] ==> s.enc.base == first + k * |s.groups|)
    && (forall i | 0 <= i < |s.groups| :: |s.groups[i].members| == k && s.groups[i].base == first + k * i)
    && forall m <- s.enc.members :: |m.pkt| > 0
  }

  lemma StepFills(s: State, k: nat, first: nat, n: nat, e: Event)
    requires Filling(s, k, first, n) && e.Added? && e.sn == first + n && 0 < |e.m.pkt| <= SHARD_CAP
    ensures Filling(Step(s, e), k, first, n + 1)
  {
    hide MaxLen;
    var joined := Join(s.enc, e.sn, e.m, e.now);
    assert |joined.members| == |s.enc.members| + 1 && joined.base == first + k * |s.groups|;
    MaxLenIsLongest(joined.members);
    assert e.m in joined.members;
    if |joined.members| == k {
      NextMultiple(k, |s.groups|);
    }
  }

  lemma NextMultiple(k: nat, g: nat)
    ensures k * (g + 1) == k * g + k
  {
  }

  /** Over every run of consecutive packets a group closes at every k-th of them, and at no other:
      the i-th group holds exactly the k packets from number `first + k * i` on. */
  lemma {:induction false} GroupsAreFull(k: int, rParity: int, es: seq<Event>, first: nat)
    requires Consecutive(es, first)
    ensures Filling(Run(k, rParity, es), SizeInUse(k), first, |es|)
  {
    if es != [] {
      hide Step, Filling;
      ConsecutivePrefix(es, first);
      GroupsAreFull(k, rParity, es[..|es| - 1], first);
      StepFills(Run(k, rParity, es[..|es| - 1]), SizeInUse(k), first, |es| - 1, es[|es| - 1]);
    }
  }

  // ----- The flush timer -----

  /** Event `j` opened the group that is open after the run: it is the last one to leave a single
      packet behind. */
  ghost predicate OpenedAt(k: int, rParity: int, es: seq<Event>, j: nat) {
    && j < |es| && Opens(k, rParity, es, j)
    && forall i | j < i < |es| :: !Opens(k, rParity, es, i)
  }

  ghost predicate Opens(k: int, rParity: int, es: seq<Event>, j: nat)
    requires j < |es|
  {
    es[j].Added? && |Run(k, rParity, es[..j + 1]).enc.members| == 1
  }

  lemma StepStarted(s: State, e: Event)
    requires s.enc.k >= 2 && (e.Added? ==> |e.m.pkt| <= SHARD_CAP)
    ensures var t := Step(s, e);
            && t.enc.k == s.enc.k
            && (e.Added? && |t.enc.members| == 1 ==> t.enc.startedAt == e.now)
            && (t.enc.members != [] && !(e.Added? && |t.enc.members| == 1) ==>
                  s.enc.members != [] && t.enc.startedAt == s.enc.startedAt)
  {
    hide MaxLen;
  }

  lemma {:induction false} SizeStays(k: int, rParity: int, es: seq<Event>)
    ensures Run(k, rParity, es).enc.k == SizeInUse(k)
  {
    if es != [] {
      hide MaxLen;
      SizeStays(k, rParity, es[..|es| - 1]);
    }
  }

  lemma OpensEarlier(k: int, rParity: int, es: seq<Event>, e: Event, j: nat)
    requires OpenedAt(k, rParity, es, j) && !(e.Added? && |Run(k, rParity, es + [e]).enc.members| == 1)
    ensures OpenedAt(k, rParity, es + [e], j)
  {
    hide Run;
    var all := es + [e];
    assert all[..j + 1] == es[..j + 1] && all[j] == es[j];
    forall i | j < i < |all| ensures !Opens(k, rParity, all, i) {
      if i < |es| {
        assert all[..i + 1] == es[..i + 1] && all[i] == es[i];
        assert !Opens(k, rParity, es, i);
      } else {
        assert all[..i + 1] == all;
      }
    }
  }

  /** Over every run the open group's age counts from the event that opened it, not from any packet
      that joined later. */
  lemma {:induction false} StartedIs(k: int, rParity: int, es: seq<Event>) returns (j: nat)
    requires Sane(es) && Run(k, rParity, es).enc.members != []
    ensures OpenedAt(k, rParity, es, j) && Run(k, rParity, es).enc.startedAt == es[j].now
  {
    var prev, e := es[..|es| - 1], es[|es| - 1];
    assert es == prev + [e] && e in es;
    SizeStays(k, rParity, prev);
    StepStarted(Run(k, rParity, prev), e);
    assert Run(k, rParity, es) == Step(Run(k, rParity, prev), e);
    hide Run, Step;
    if e.Added? && |Run(k, rParity, es).enc.members| == 1 {
      j := |prev|;
      assert es[..j + 1] == es;
    } else {
      assert Sane(prev) by { assert forall x <- prev :: x in es; }
      j := StartedIs(k, rParity, prev);
      OpensEarlier(k, rParity, prev, e, j);
    }
  }

  /** Hence a flush closes the open group exactly if that event lies `flushAfter` or more back. */
  lemma FlushDueIff(k: int, rParity: int, es: seq<Event>, now: int, flushAfter: int, loss: real) returns (j: nat)
    requires Sane(es) && Run(k, rParity, es).enc.members != []
    ensures OpenedAt(k, rParity, es, j)
    ensures var s := Run(k, rParity, es); var t := Step(s, Flushed(now, flushAfter, loss));
            if now - es[j].now >= flushAfter
            then t.enc.members == [] && |t.groups| == |s.groups| + 1
                 && t.groups[|s.groups|].members == s.enc.members && t.groups[|s.groups|].base == s.enc.base
            else t == s
  {
    j := StartedIs(k, rParity, es);
    EncoderPartitions(k, rParity, es);
    var s := Run(k, rParity, es);
    MaxLenIsLongest(s.enc.members);
    assert s.enc.members[0] in s.enc.members;
    hide Run, MaxLen, OpenedAt;
  }

  // ----- Parity over runs -----

  /** With a fixed count from one to four every group of a run gets that many parity shards, or as
      many as it has packets. */
  lemma {:induction false} FixedOverRuns(k: int, r: nat, es: seq<Event>)
    requires 1 <= r <= 4 && Sane(es)
    ensures Run(k, r, es).enc.rFixed == r
    ensures forall g <- Run(k, r, es).groups :: g.r == if r <= |g.members| then r else |g.members|
  {
    if es != [] {
      var prev := es[..|es| - 1];
      assert Sane(prev) by { assert forall x <- prev :: x in es; }
      FixedOverRuns(k, r, prev);
      EncoderPartitions(k, r, es);
      FixedStep(Run(k, r, prev), es[|es| - 1], r);
    }
  }

  lemma FixedStep(s: State, e: Event, r: nat)
    requires s.enc.rFixed == r && 1 <= r <= 4
    requires forall g <- s.groups :: g.r == if r <= |g.members| then r else |g.members|
    requires forall g <- Step(s, e).groups :: |g.members| >= 1
    ensures Step(s, e).enc.rFixed == r
    ensures forall g <- Step(s, e).groups :: g.r == if r <= |g.members| then r else |g.members|
  {
    hide MaxLen;
  }

  // ----- Packets that cannot be protected -----

  /** A packet of more than 2048 bytes is passed over; and a group of empty packets only, for which the
      code has no data, ends without parity. */
  lemma Unprotected(e: Enc, sn: nat, m: Member, now: int, loss: real)
    ensures |m.pkt| > 2048 ==> Add(e, sn, m, now, loss) == (e, None)
    ensures (forall x <- e.members :: x.pkt == []) ==> Close(e, loss) == (e.(members := []), None)
  {
    MaxLenIsLongest(e.members);
  }
}
