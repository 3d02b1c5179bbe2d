/** ICMP "fragmentation needed" and "packet too big" replies (`internal/pmtunotify`): what is
    built, that its checksums verify, and that replies provoke no replies. */
module PtbSpec {
  import opened Common

  const MIN_MTU_V4 := 576
  const MIN_MTU_V6 := 1280
  const PROTO_ICMP := 1
  const PROTO_ICMPV6 := 58

  datatype Addr = V4(b: Bytes) | V6(b: Bytes)

  predicate ValidAddr(a: Addr) { |a.b| == if a.V4? then 4 else 16 }

  /** An IPv6 address that carries an IPv4 one. */
  predicate Is4In6(b: Bytes) {
    |b| == 16 && b[..12] == [0, 0, 0, 0, 0, 0, 0, 0, 0, 0, 0xff, 0xff]
  }

  predicate BadSource4(b: Bytes)
    requires |b| == 4
  {
    224 <= b[0] < 240 || (b[0] == 169 && b[1] == 254) || b == [0, 0, 0, 0]
  }

  predicate BadSource6(b: Bytes)
    requires |b| == 16
  {
    if Is4In6(b) then BadSource4(b[12..])
    else b[0] == 0xff || (b[0] == 0xfe && b[1] / 64 == 2) || b == seq(16, _ => 0)
  }

  function Min(a: int, b: int): int { if a < b then a else b }

  /** A 16-bit field, most significant byte first; wider values are truncated. */
  function Be16(v: nat): (b: Bytes)
    ensures |b| == 2
  {
    [v / 256 % 256, v % 256]
  }

  function Be32(v: nat): (b: Bytes)
    ensures |b| == 4
  {
    Be16(v / 0x1_0000) + Be16(v)
  }

  // ----- The internet checksum, section 1 of RFC 1071 -----

  function Word(hi: Byte, lo: Byte): nat { 256 * (hi as int) + lo as int }

  /** The sum of the 16-bit words, an odd last byte being the high half of a word. */
  function Sum16(b: Bytes): nat {
    if |b| == 0 then 0 else if |b| == 1 then Word(b[0], 0) else Word(b[0], b[1]) + Sum16(b[2..])
  }

  /** End-around carry. */
  function Fold(s: nat): nat { if s < 0x1_0000 then s else Fold(s % 0x1_0000 + s / 0x1_0000) }

  function Complement(s: nat): nat
    requires s < 0x1_0000
  {
    0xffff - s
  }

  lemma {:induction false} FoldKeepsResidue(s: nat)
    ensures Fold(s) < 0x1_0000 && Fold(s) % 0xffff == s % 0xffff && Fold(s) <= s
    ensures Fold(s) == 0 ==> s == 0
  {
    if s >= 0x1_0000 {
      CarryKeepsResidue(s);
      FoldKeepsResidue(s % 0x1_0000 + s / 0x1_0000);
    }
  }

  lemma CarryKeepsResidue(s: nat)
    requires s >= 0x1_0000
    ensures var t := s % 0x1_0000 + s / 0x1_0000; 0 < t < s && t % 0xffff == s % 0xffff
  {
    var h, l := s / 0x1_0000, s % 0x1_0000;
    assert s == 0xffff * h + (h + l);
  }

  /** Adding the complement of a folded sum makes the sum fold to all ones. */
  lemma ComplementVerifies(s: nat)
    ensures Fold(s) < 0x1_0000 && Fold(s + (0xffff - Fold(s))) == 0xffff
  {
    hide Fold;
    FoldKeepsResidue(s);
    var f := Fold(s);
    var t := s + (0xffff - f);
    FoldKeepsResidue(t);
    assert t % 0xffff == 0 by {
      assert (s - f) % 0xffff == 0;
    }
  }

  function Checksum(base: nat, b: Bytes): (c: nat)
    ensures c < 0x1_0000
  {
    FoldKeepsResidue(base + Sum16(b));
    Complement(Fold(base + Sum16(b)))
  }

  /** Bytes with the checksum filled into its zero field at an even offset. */
  function Sealed(base: nat, head: Bytes, tail: Bytes): Bytes {
    head + Be16(Checksum(base, head + [0, 0] + tail)) + tail
  }

  lemma {:induction false} SumOfParts(a: Bytes, b: Bytes)
    requires |a| % 2 == 0
    ensures Sum16(a + b) == Sum16(a) + Sum16(b)
  {
    if a == [] {
      assert a + b == b;
    } else {
      SumOfParts(a[2..], b);
      assert (a + b)[2..] == a[2..] + b;
    }
  }

  lemma SumOfField(head: Bytes, v: nat, tail: Bytes)
    requires |head| % 2 == 0 && v < 0x1_0000
    ensures Sum16(head + Be16(v) + tail) == Sum16(head) + v + Sum16(tail)
  {
    SumOfParts(head + Be16(v), tail);
    SumOfParts(head, Be16(v));
    assert Be16(v)[2..] == [];
  }

  /** Recomputing the checksum over the sealed bytes gives zero. */
  lemma SealVerifies(base: nat, head: Bytes, tail: Bytes)
    requires |head| % 2 == 0
    ensures Checksum(base, Sealed(base, head, tail)) == 0
  {
    hide Sum16, Fold, Be16;
    var c := Checksum(base, head + [0, 0] + tail);
    assert Be16(0) == [0, 0] by { ZeroField(); }
    SumOfField(head, 0, tail);
    SumOfField(head, c, tail);
    ComplementVerifies(base + Sum16(head + [0, 0] + tail));
  }

  lemma ZeroField()
    ensures Be16(0) == [0, 0]
  {
  }

  // ----- The same in 32-bit arithmetic -----

  const WRAP := 0x1_0000_0000

  function Wrap(s: int): (w: nat)
    ensures w < WRAP
  {
    s % WRAP
  }

  lemma WrapAdd(a: int, b: int)
    ensures Wrap(Wrap(a) + b) == Wrap(a + b)
  {
  }

  lemma WrapSmall(a: int)
    ensures 0 <= a < WRAP ==> Wrap(a) == a
  {
  }

  /** A byte string this long, as any reply to an IP packet is, cannot overflow a 32-bit sum. */
  const SAFE := 0x1_8000

  lemma {:induction false} SumBound(b: Bytes)
    ensures Sum16(b) <= 0x8000 * (|b| + 1)
  {
    if |b| > 1 {
      SumBound(b[2..]);
    }
  }

  /** What the program computes: the sum wraps around at 32 bits before it is folded. */
  function Checksum32(b: Bytes): (c: nat)
    ensures c < 0x1_0000
  {
    FoldKeepsResidue(Wrap(Sum16(b)));
    Complement(Fold(Wrap(Sum16(b))))
  }

  function Sealed32(head: Bytes, tail: Bytes): Bytes { head + Be16(Checksum32(head + [0, 0] + tail)) + tail }

  lemma NoWrap(head: Bytes, tail: Bytes)
    requires |head| + 2 + |tail| <= SAFE
    ensures Sealed32(head, tail) == Sealed(0, head, tail)
  {
    hide Sum16, Fold, Wrap;
    SumBound(head + [0, 0] + tail);
    WrapSmall(Sum16(head + [0, 0] + tail));
  }

  lemma FoldsToOnesIff(s: nat)
    requires s > 0
    ensures Fold(s) == 0xffff <==> s % 0xffff == 0
  {
    hide Fold;
    FoldKeepsResidue(s);
  }

  /** Sealed in 32-bit arithmetic, the checksum verifies exactly when the number of times the sum
      wrapped around is a multiple of 2^16 - 1, as it is when it did not. */
  lemma Seal32VerifiesIff(head: Bytes, tail: Bytes)
    requires |head| % 2 == 0
    ensures Checksum(0, Sealed32(head, tail)) == 0 <==> Sum16(head + [0, 0] + tail) / WRAP % 0xffff == 0
  {
    hide Sum16, Fold, Be16;
    var sum := Sum16(head + [0, 0] + tail);
    var c := Checksum32(head + [0, 0] + tail);
    ZeroField();
    SumOfField(head, 0, tail);
    SumOfField(head, c, tail);
    FoldKeepsResidue(Wrap(sum));
    FoldsToOnesIff(sum + c);
    WrapsCount(sum, c);
    FoldKeepsResidue(sum + c);
  }

  lemma WrapsCount(sum: nat, c: nat)
    requires c == 0xffff - Fold(sum % WRAP) && Fold(sum % WRAP) < 0x1_0000
    requires Fold(sum % WRAP) % 0xffff == sum % WRAP % 0xffff && Fold(sum % WRAP) <= sum % WRAP
    ensures (sum + c) % 0xffff == sum / WRAP % 0xffff && sum + c > 0
  {
    hide Fold;
    var k, r, f := sum / WRAP, sum % WRAP, Fold(sum % WRAP);
    assert sum + c == 0xffff * (0x1_0001 * k + 1) + (k + (r - f));
    assert (r - f) % 0xffff == 0;
  }

  function Ones(n: nat): Bytes { seq(2 * n, _ => 0xff) }

  lemma {:induction false} SumOfOnes(n: nat)
    ensures Sum16(Ones(n)) == 0xffff * n
  {
    if n > 0 {
      assert Ones(n)[2..] == Ones(n - 1);
      SumOfOnes(n - 1);
    }
  }

  /** Beyond 128 KiB the sum can wrap around, and then the checksum is wrong. */
  lemma WrapBreaksChecksum()
    ensures Checksum(0, Sealed32([3, 4], Ones(0x1_0002))) != 0
  {
    hide *;
    SumOfOnes(0x1_0002);
    WrappedOnce(Ones(0x1_0002));
  }

  lemma WrappedOnce(tail: Bytes)
    requires Sum16(tail) == 0xffff * 0x1_0002
    ensures Checksum(0, Sealed32([3, 4], tail)) != 0
  {
    hide Sum16, Fold, Be16, Checksum, Sealed32;
    ZeroField();
    SumOfHead();
    SumOfField([3, 4], 0, tail);
    assert Sum16([3, 4] + [0, 0] + tail) / WRAP == 1;
    Seal32VerifiesIff([3, 4], tail);
  }

  lemma SumOfHead()
    ensures Sum16([3, 4]) == 0x304
  {
    assert [3, 4][2..] == [];
  }

  // ----- IPv4 -----

  /** Why an IPv4 packet is not answered, or it is. */
  predicate Answers4(inner: Bytes, local: Addr, maxOuter: int) {
    && |inner| >= 20 && local.V4?
    && var ihl := inner[0] % 16 * 4;
       && 20 <= ihl <= |inner|
       && var frag := Word(inner[6], inner[7]);
          && frag % 0x2000 == 0
          && frag / 0x4000 % 2 == 1
          && !(inner[9] == PROTO_ICMP && |inner| >= ihl + 1 && inner[ihl] in {3, 4, 5, 11, 12})
          && !BadSource4(inner[12..16])
          && maxOuter - 28 >= ihl + 8
  }

  function Payload4(inner: Bytes, maxOuter: int): Bytes
    requires maxOuter >= 28
  {
    inner[..Min(|inner|, maxOuter - 28)]
  }

  /** The reply: an IPv4 header from `local` to the source, an ICMP header carrying the MTU, and
      as much of the packet as fits. */
  function Reply4(inner: Bytes, local: Addr, mtu: int, maxOuter: int): Bytes
    requires Answers4(inner, local, maxOuter) && ValidAddr(local)
  {
    var payload := Payload4(inner, maxOuter);
    var advertised := Max(MIN_MTU_V4, Min(mtu, 0xffff));
    Sealed(0, [0x45, 0] + Be16(28 + |payload|) + [0, 0, 0, 0, 64, PROTO_ICMP], local.b + inner[12..16])
    + Sealed(0, [3, 4], [0, 0] + Be16(advertised) + payload)
  }

  /** The reply as the program computes it. */
  function Written4(inner: Bytes, local: Addr, mtu: int, maxOuter: int): Bytes
    requires Answers4(inner, local, maxOuter) && ValidAddr(local)
  {
    var payload := Payload4(inner, maxOuter);
    var advertised := Max(MIN_MTU_V4, Min(mtu, 0xffff));
    Sealed32([0x45, 0] + Be16(28 + |payload|) + [0, 0, 0, 0, 64, PROTO_ICMP], local.b + inner[12..16])
    + Sealed32([3, 4], [0, 0] + Be16(advertised) + payload)
  }

  /** It is the reply for every packet of up to 96 KiB, and so for every IP packet. */
  lemma WrittenIsReply4(inner: Bytes, local: Addr, mtu: int, maxOuter: int)
    requires Answers4(inner, local, maxOuter) && ValidAddr(local)
    ensures |Written4(inner, local, mtu, maxOuter)| == |Reply4(inner, local, mtu, maxOuter)|
                                                    == 28 + |Payload4(inner, maxOuter)|
    ensures |inner| + 28 <= SAFE || maxOuter <= SAFE ==>
              Written4(inner, local, mtu, maxOuter) == Reply4(inner, local, mtu, maxOuter)
  {
    hide Checksum, Checksum32;
    var payload := Payload4(inner, maxOuter);
    var advertised := Max(MIN_MTU_V4, Min(mtu, 0xffff));
    NoWrap([0x45, 0] + Be16(28 + |payload|) + [0, 0, 0, 0, 64, PROTO_ICMP], local.b + inner[12..16]);
    if 8 + |payload| <= SAFE {
      NoWrap([3, 4], [0, 0] + Be16(advertised) + payload);
    }
  }

  /** Both checksums verify, the reply fits, and it is never answered itself. */
  lemma Reply4IsSound(inner: Bytes, local: Addr, mtu: int, maxOuter: int)
    requires Answers4(inner, local, maxOuter) && ValidAddr(local)
    ensures var r := Reply4(inner, local, mtu, maxOuter);
            && 28 < |r| <= maxOuter && |r| == 28 + |Payload4(inner, maxOuter)|
            && Checksum(0, r[..20]) == 0
            && Checksum(0, r[20..]) == 0
            && r[28..] == Payload4(inner, maxOuter)
            && forall local', maxOuter' :: !Answers4(r, local', maxOuter')
  {
    hide Sum16, Fold, Checksum;
    var payload := Payload4(inner, maxOuter);
    var advertised := Max(MIN_MTU_V4, Min(mtu, 0xffff));
    var head, tail := [0x45, 0] + Be16(28 + |payload|) + [0, 0, 0, 0, 64, PROTO_ICMP], local.b + inner[12..16];
    SealVerifies(0, head, tail);
    SealVerifies(0, [3, 4], [0, 0] + Be16(advertised) + payload);
    Unfragmented(inner, local, mtu, maxOuter);
    Split(Sealed(0, head, tail), Sealed(0, [3, 4], [0, 0] + Be16(advertised) + payload));
    var r := Reply4(inner, local, mtu, maxOuter);
    assert r[28..] == r[20..][8..] == payload;
  }

  lemma Split(a: Bytes, b: Bytes)
    ensures (a + b)[..|a|] == a && (a + b)[|a|..] == b
  {
  }

  /** A reply does not carry the don't-fragment bit that an answered packet has. */
  lemma Unfragmented(inner: Bytes, local: Addr, mtu: int, maxOuter: int)
    requires Answers4(inner, local, maxOuter) && ValidAddr(local)
    ensures var r := Reply4(inner, local, mtu, maxOuter);
            |r| >= 20 && r[6] == 0 && r[7] == 0 && forall local', maxOuter' :: !Answers4(r, local', maxOuter')
  {
    hide Checksum;
    var r := Reply4(inner, local, mtu, maxOuter);
    assert r[6] == 0 && r[7] == 0;
  }

  // ----- IPv6 -----

  predicate Answers6(inner: Bytes, local: Addr, maxOuter: int) {
    && |inner| >= 40 && local.V6? && !Is4In6(local.b)
    && !(inner[6] == PROTO_ICMPV6 && |inner| >= 41 && inner[40] in {1, 2, 3, 4})
    && !BadSource6(inner[8..24])
    && Min(maxOuter, 1280) - 48 >= 40
  }

  function Payload6(inner: Bytes, maxOuter: int): Bytes
    requires Min(maxOuter, 1280) >= 48
  {
    inner[..Min(|inner|, Min(maxOuter, 1280) - 48)]
  }

  /** The pseudo-header: both addresses, the upper-layer length and the next header. */
  function PseudoSum(src: Bytes, dst: Bytes, len: nat): nat {
    Sum16(src) + Sum16(dst) + len / 0x1_0000 + len % 0x1_0000 + PROTO_ICMPV6
  }

  function Reply6(inner: Bytes, local: Addr, mtu: int, maxOuter: int): Bytes
    requires Answers6(inner, local, maxOuter) && ValidAddr(local)
  {
    var payload := Payload6(inner, maxOuter);
    var src := inner[8..24];
    [0x60, 0, 0, 0] + Be16(8 + |payload|) + [PROTO_ICMPV6, 64] + local.b + src
    + Sealed(PseudoSum(local.b, src, 8 + |payload|), [2, 0], Be32(Max(mtu, MIN_MTU_V6)) + payload)
  }

  /** The checksum with the pseudo-header verifies, the reply stays within the limit and the
      IPv6 minimum MTU, and it is never answered itself. */
  lemma Reply6IsSound(inner: Bytes, local: Addr, mtu: int, maxOuter: int)
    requires Answers6(inner, local, maxOuter) && ValidAddr(local)
    ensures var r := Reply6(inner, local, mtu, maxOuter);
            && 48 < |r| <= maxOuter && |r| <= 1280 && |r| == 48 + |Payload6(inner, maxOuter)|
            && Checksum(PseudoSum(r[8..24], r[24..40], |r| - 40), r[40..]) == 0
            && r[48..] == Payload6(inner, maxOuter)
            && forall local', maxOuter' :: !Answers6(r, local', maxOuter')
  {
    hide Sum16, Fold, PseudoSum;
    var payload := Payload6(inner, maxOuter);
    var base := PseudoSum(local.b, inner[8..24], 8 + |payload|);
    var tail := Be32(Max(mtu, MIN_MTU_V6)) + payload;
    SealVerifies(base, [2, 0], tail);
    var r := Reply6(inner, local, mtu, maxOuter);
    assert r[40..] == Sealed(base, [2, 0], tail);
    assert r[8..24] == local.b && r[24..40] == inner[8..24];
    assert r[48..] == payload;
    assert r[6] == PROTO_ICMPV6 && r[40] == 2;
  }

  // ----- Either family -----

  /** The reply `BuildPTB` makes, if it makes one. */
  function Reply(inner: Bytes, local: Addr, mtu: int, maxOuter: int): Option<Bytes>
    requires ValidAddr(local)
  {
    if |inner| < 1 then None
    else if inner[0] / 16 == 4 then
      if Answers4(inner, local, maxOuter) then Some(Reply4(inner, local, mtu, maxOuter)) else None
    else if inner[0] / 16 == 6 then
      if Answers6(inner, local, maxOuter) then Some(Reply6(inner, local, mtu, maxOuter)) else None
    else None
  }

  /** What `BuildPTB` writes, in 32-bit arithmetic. */
  function Written(inner: Bytes, local: Addr, mtu: int, maxOuter: int): Option<Bytes>
    requires ValidAddr(local)
  {
    if |inner| >= 1 && inner[0] / 16 == 4 && Answers4(inner, local, maxOuter) then
      Some(Written4(inner, local, mtu, maxOuter))
    else Reply(inner, local, mtu, maxOuter)
  }

  lemma WrittenIsReply(inner: Bytes, local: Addr, mtu: int, maxOuter: int)
    requires ValidAddr(local)
    ensures var w, r := Written(inner, local, mtu, maxOuter), Reply(inner, local, mtu, maxOuter);
            && w.Some? == r.Some? && (w.Some? ==> |w.value| == |r.value|)
            && (|inner| + 28 <= SAFE || maxOuter <= SAFE ==> w == r)
  {
    hide Written4, Reply4, Reply6, Answers4, Answers6;
    if |inner| >= 1 && inner[0] / 16 == 4 && Answers4(inner, local, maxOuter) {
      WrittenIsReply4(inner, local, mtu, maxOuter);
    }
  }

  /** No loop: a reply is never answered, whoever would answer it and with whatever limits. */
  lemma {:induction false} RepliesAreNotAnswered(inner: Bytes, local: Addr, mtu: int, maxOuter: int,
                                                 local': Addr, mtu': int, maxOuter': int)
    requires ValidAddr(local) && ValidAddr(local') && Reply(inner, local, mtu, maxOuter).Some?
    ensures Reply(Reply(inner, local, mtu, maxOuter).value, local', mtu', maxOuter') == None
  {
    hide Sealed, Answers4, Answers6;
    if inner[0] / 16 == 4 {
      Reply4IsSound(inner, local, mtu, maxOuter);
      FirstNibble4(inner, local, mtu, maxOuter);
    } else {
      Reply6IsSound(inner, local, mtu, maxOuter);
    }
  }

  lemma FirstNibble4(inner: Bytes, local: Addr, mtu: int, maxOuter: int)
    requires Answers4(inner, local, maxOuter) && ValidAddr(local)
    ensures Reply4(inner, local, mtu, maxOuter)[0] == 0x45
  {
  }
}

/** The builders as the program runs them: fields written into a caller's buffer, checksums
    accumulated and folded by loops in 32-bit arithmetic. */
module Ptb {
  import opened Common
  import opened PtbSpec

  /** Adds the words of `b` to a running 32-bit sum. */
  method Accumulate(start: nat, b: Bytes) returns (sum: nat)
    requires start < WRAP
    ensures sum == Wrap(start + Sum16(b))
  {
    hide Wrap;
    sum := start;
    var i := 0;
    while i + 1 < |b|
      invariant 0 <= i <= |b| && i % 2 == 0 && sum < WRAP
      invariant Wrap(sum + Sum16(b[i..])) == Wrap(start + Sum16(b))
    {
      assert b[i..][2..] == b[i + 2..];
      WrapAdd(sum + Word(b[i], b[i + 1]), Sum16(b[i + 2..]));
      sum := Wrap(sum + Word(b[i], b[i + 1]));
      i := i + 2;
    }
    if i < |b| {
      sum := Wrap(sum + Word(b[i], 0));
    } else {
      WrapSmall(sum);
    }
  }

  method FoldCarries(start: nat) returns (s: nat)
    requires start < WRAP
    ensures s == Fold(start) && s < 0x1_0000
  {
    s := start;
    while s / 0x1_0000 != 0
      invariant Fold(s) == Fold(start) && s < WRAP
      decreases s
    {
      s := s % 0x1_0000 + s / 0x1_0000;
    }
  }

  /** `checksum1071`; over at most 96 KiB the 32-bit sum does not overflow. */
  method Checksum1071(b: Bytes) returns (c: nat)
    ensures c == Checksum32(b)
    ensures |b| <= SAFE ==> c == Checksum(0, b)
  {
    hide Wrap, Sum16, Fold;
    SumBound(b);
    WrapSmall(Sum16(b));
    var sum := Accumulate(0, b);
    var s := FoldCarries(sum);
    c := 0xffff - s;
  }

  /** The pseudo-header's part of `checksumV6`. */
  method PseudoHeader(src: Bytes, dst: Bytes, len: nat) returns (sum: nat)
    requires |src| == 16 && |dst| == 16 && len < WRAP
    ensures sum == PseudoSum(src, dst, len) < 0x20_0000
  {
    hide Sum16, Wrap;
    SumBound(src);
    SumBound(dst);
    WrapSmall(Sum16(src));
    sum := Accumulate(0, src);
    WrapSmall(sum + Sum16(dst));
    sum := Accumulate(sum, dst);
    WrapSmall(sum + len / 0x1_0000);
    sum := Wrap(sum + len / 0x1_0000);
    WrapSmall(sum + len % 0x1_0000);
    sum := Wrap(sum + len % 0x1_0000);
    WrapSmall(sum + PROTO_ICMPV6);
    sum := Wrap(sum + PROTO_ICMPV6);
  }

  method ChecksumV6(src: Bytes, dst: Bytes, body: Bytes) returns (c: nat)
    requires |src| == 16 && |dst| == 16 && |body| < WRAP
    ensures c < 0x1_0000
    ensures |body| <= SAFE ==> c == Checksum(PseudoSum(src, dst, |body|), body)
  {
    hide Sum16, Fold, PseudoSum, Wrap;
    SumBound(body);
    var sum := PseudoHeader(src, dst, |body|);
    WrapSmall(sum + Sum16(body));
    sum := Accumulate(sum, body);
    var s := FoldCarries(sum);
    c := 0xffff - s;
  }

  /** Copies bytes into the buffer. */
  method Write(dst: array<Byte>, at: nat, b: Bytes)
    requires at + |b| <= dst.Length
    modifies dst
    ensures dst[at..at + |b|] == b
    ensures dst[..at] == old(dst[..at]) && dst[at + |b|..] == old(dst[at + |b|..])
  {
    for i := 0 to |b|
      invariant forall j | 0 <= j < i :: dst[at + j] == b[j]
      invariant forall j | 0 <= j < dst.Length && !(at <= j < at + i) :: dst[j] == old(dst[j])
    {
      dst[at + i] := b[i];
    }
  }

  /** The reply is written to the front of the buffer, which is left alone when none is made. */
  method BuildPTB(dst: array<Byte>, inner: Bytes, local: Addr, mtu: int, maxOuter: int) returns (n: nat, ok: bool)
    requires ValidAddr(local)
    modifies dst
    ensures var r := Written(inner, local, mtu, maxOuter);
            && (ok <==> r.Some? && |r.value| <= dst.Length)
            && (ok ==> n == |r.value| && dst[..n] == r.value && dst[n..] == old(dst[n..]))
            && (!ok ==> n == 0 && dst[..] == old(dst[..]))
  {
    hide Written4, Reply4, Reply6, Answers4, Answers6;
    if |inner| < 1 {
      return 0, false;
    }
    if inner[0] / 16 == 4 {
      n, ok := BuildV4(dst, inner, local, mtu, maxOuter);
    } else if inner[0] / 16 == 6 {
      n, ok := BuildV6(dst, inner, local, mtu, maxOuter);
    } else {
      return 0, false;
    }
  }

  /** The checks an IPv4 packet has to pass, in the order they are made. */
  method Reject4(inner: Bytes, local: Addr, maxOuter: int) returns (bad: bool)
    ensures bad <==> !Answers4(inner, local, maxOuter)
  {
    if |inner| < 20 || !local.V4? {
      return true;
    }
    var ihl := inner[0] % 16 * 4;
    if ihl < 20 || |inner| < ihl {
      return true;
    }
    var frag := Word(inner[6], inner[7]);
    if frag % 0x2000 != 0 {
      return true;
    }
    if frag / 0x4000 % 2 == 0 {
      return true;
    }
    if inner[9] == PROTO_ICMP && |inner| >= ihl + 1 && inner[ihl] in {3, 4, 5, 11, 12} {
      return true;
    }
    if BadSource4(inner[12..16]) {
      return true;
    }
    return maxOuter - 28 < ihl + 8;
  }

  method BuildV4(dst: array<Byte>, inner: Bytes, local: Addr, mtu: int, maxOuter: int) returns (n: nat, ok: bool)
    requires ValidAddr(local)
    modifies dst
    ensures ok <==> Answers4(inner, local, maxOuter) && |Written4(inner, local, mtu, maxOuter)| <= dst.Length
    ensures ok ==> n == |Written4(inner, local, mtu, maxOuter)| && dst[..n] == Written4(inner, local, mtu, maxOuter)
                   && dst[n..] == old(dst[n..])
    ensures !ok ==> n == 0 && dst[..] == old(dst[..])
  {
    var bad := Reject4(inner, local, maxOuter);
    if bad {
      return 0, false;
    }
    var advertised := Max(MIN_MTU_V4, Min(mtu, 0xffff));
    assert maxOuter >= 28;
    var payload := Payload4(inner, maxOuter);
    var total := 28 + |payload|;
    Written4Parts(inner, local, mtu, maxOuter);
    if total > dst.Length {
      return 0, false;
    }
    hide Answers4, Written4, Sealed32;
    WriteSealed(dst, 0, [0x45, 0] + Be16(total) + [0, 0, 0, 0, 64, PROTO_ICMP], local.b + inner[12..16], 20);
    label header:
    WriteSealed(dst, 20, [3, 4], [0, 0] + Be16(advertised) + payload, total);
    assert dst[..20] == old@header(dst[..20]);
    assert dst[..total] == dst[..20] + dst[20..total];
    return total, true;
  }

  lemma Written4Parts(inner: Bytes, local: Addr, mtu: int, maxOuter: int)
    requires Answers4(inner, local, maxOuter) && ValidAddr(local)
    ensures var payload := Payload4(inner, maxOuter);
            var advertised := Max(MIN_MTU_V4, Min(mtu, 0xffff));
            && |inner| >= 20
            && |Written4(inner, local, mtu, maxOuter)| == 28 + |payload| <= maxOuter
            && Written4(inner, local, mtu, maxOuter)
               == Sealed32([0x45, 0] + Be16(28 + |payload|) + [0, 0, 0, 0, 64, PROTO_ICMP], local.b + inner[12..16])
                  + Sealed32([3, 4], [0, 0] + Be16(advertised) + payload)
  {
  }

  /** Fields with a zero checksum placeholder first, then the checksum over them in its place. */
  method WriteSealed(dst: array<Byte>, at: nat, head: Bytes, tail: Bytes, to: nat)
    requires at + |head| + 2 + |tail| == to <= dst.Length
    modifies dst
    ensures dst[at..to] == Sealed32(head, tail)
    ensures dst[..at] == old(dst[..at]) && dst[to..] == old(dst[to..])
  {
    hide Checksum, Checksum32;
    Write(dst, at, head + [0, 0] + tail);
    assert dst[at..to] == head + [0, 0] + tail;
    var c := Checksum1071(dst[at..to]);
    Seal(dst, at, head, tail, to, c);
  }

  method Seal(dst: array<Byte>, at: nat, head: Bytes, tail: Bytes, to: nat, c: nat)
    requires at + |head| + 2 + |tail| == to <= dst.Length && dst[at..to] == head + [0, 0] + tail
    modifies dst
    ensures dst[at..to] == head + Be16(c) + tail
    ensures dst[..at] == old(dst[..at]) && dst[to..] == old(dst[to..])
  {
    hide Be16;
    var p := at + |head|;
    ghost var before := dst[..];
    assert before[at..to] == dst[at..to];
    Write(dst, p, Be16(c));
    ghost var after := dst[..];
    assert after[..p] == dst[..p] && after[p..p + 2] == dst[p..p + 2] && after[p + 2..] == dst[p + 2..];
    assert before[..p] == old(dst[..p]) && before[p + 2..] == old(dst[p + 2..]);
    Spliced(before, after, at, head, tail, to, Be16(c));
    assert dst[at..to] == after[at..to] && dst[..at] == after[..at] && dst[to..] == after[to..];
    assert old(dst[..at]) == before[..at] && old(dst[to..]) == before[to..];
  }

  /** A field is replaced and nothing around it. */
  lemma Spliced(before: Bytes, after: Bytes, at: nat, head: Bytes, tail: Bytes, to: nat, field: Bytes)
    requires |before| == |after| && at + |head| + 2 + |tail| == to <= |before| && |field| == 2
    requires before[at..to] == head + [0, 0] + tail
    requires var p := at + |head|;
             after[..p] == before[..p] && after[p..p + 2] == field && after[p + 2..] == before[p + 2..]
    ensures after[at..to] == head + field + tail && after[..at] == before[..at] && after[to..] == before[to..]
  {
    var p := at + |head|;
    assert after[at..p] == after[..p][at..] == before[..p][at..] == before[at..to][..|head|] == head;
    assert after[p + 2..to] == after[p + 2..][..|tail|] == before[at..to][|head| + 2..] == tail;
    assert after[..at] == after[..p][..at];
    assert after[to..] == after[p + 2..][|tail|..];
    assert after[at..to] == after[at..p] + after[p..p + 2] + after[p + 2..to];
  }

  method Reject6(inner: Bytes, local: Addr, maxOuter: int) returns (bad: bool)
    ensures bad <==> !Answers6(inner, local, maxOuter)
  {
    if |inner| < 40 || !(local.V6? && !Is4In6(local.b)) {
      return true;
    }
    if inner[6] == PROTO_ICMPV6 && |inner| >= 41 && inner[40] in {1, 2, 3, 4} {
      return true;
    }
    if BadSource6(inner[8..24]) {
      return true;
    }
    var outer := if maxOuter > 1280 then 1280 else maxOuter;
    return outer - 48 < 40;
  }

  method BuildV6(dst: array<Byte>, inner: Bytes, local: Addr, mtu: int, maxOuter: int) returns (n: nat, ok: bool)
    requires ValidAddr(local)
    modifies dst
    ensures ok <==> Answers6(inner, local, maxOuter) && |Reply6(inner, local, mtu, maxOuter)| <= dst.Length
    ensures ok ==> n == |Reply6(inner, local, mtu, maxOuter)| && dst[..n] == Reply6(inner, local, mtu, maxOuter)
                   && dst[n..] == old(dst[n..])
    ensures !ok ==> n == 0 && dst[..] == old(dst[..])
  {
    var bad := Reject6(inner, local, maxOuter);
    if bad {
      return 0, false;
    }
    var payload := Payload6(inner, maxOuter);
    var src := inner[8..24];
    var total := 48 + |payload|;
    Reply6Parts(inner, local, mtu, maxOuter);
    if total > dst.Length {
      return 0, false;
    }
    hide Answers6, Reply6, Checksum;
    var header := [0x60, 0, 0, 0] + Be16(8 + |payload|) + [PROTO_ICMPV6, 64] + local.b + src;
    var tail := Be32(Max(mtu, MIN_MTU_V6)) + payload;
    WriteReply6(dst, header, local.b, src, tail, total);
    return total, true;
  }

  /** The fixed header and the body around a zero checksum, then the checksum in its place. */
  method WriteReply6(dst: array<Byte>, header: Bytes, from: Bytes, to: Bytes, tail: Bytes, total: nat)
    requires |header| == 40 && |from| == 16 && |to| == 16 && 44 + |tail| == total <= dst.Length && total <= 1280
    modifies dst
    ensures dst[..total] == header + Sealed(PseudoSum(from, to, total - 40), [2, 0], tail)
    ensures dst[total..] == old(dst[total..])
  {
    hide Checksum, PseudoSum, Be16;
    Write(dst, 0, header);
    assert dst[..40] == header;
    assert dst[total..] == dst[40..][total - 40..] == old(dst[40..])[total - 40..] == old(dst[total..]);
    label header:
    Write(dst, 40, [2, 0] + [0, 0] + tail);
    assert dst[..40] == header;
    var c := ChecksumV6(from, to, dst[40..total]);
    Seal(dst, 40, [2, 0], tail, total, c);
    assert dst[..total] == dst[..40] + dst[40..total];
  }

  lemma Reply6Parts(inner: Bytes, local: Addr, mtu: int, maxOuter: int)
    requires Answers6(inner, local, maxOuter) && ValidAddr(local)
    ensures var payload := Payload6(inner, maxOuter);
            && |inner| >= 40
            && |Reply6(inner, local, mtu, maxOuter)| == 48 + |payload| <= 1280
            && Reply6(inner, local, mtu, maxOuter)
               == [0x60, 0, 0, 0] + Be16(8 + |payload|) + [PROTO_ICMPV6, 64] + local.b + inner[8..24]
                  + Sealed(PseudoSum(local.b, inner[8..24], 8 + |payload|), [2, 0],
                           Be32(Max(mtu, MIN_MTU_V6)) + payload)
  {
  }
}
