/** The replies as their receiver reads them, and which packets are answered, both told from the
    bytes alone. */
module PtbReading {
  import opened Common
  import opened PtbSpec

  /** A 16-bit and a 32-bit field at an offset. */
  function U16(b: Bytes, i: nat): nat
    requires i + 1 < |b|
  {
    256 * (b[i] as int) + b[i + 1] as int
  }

  function U32(b: Bytes, i: nat): nat
    requires i + 3 < |b|
  {
    0x1_0000 * U16(b, i) + U16(b, i + 2)
  }

  lemma ReadsBe16(b: Bytes, i: nat, v: nat)
    requires i + 1 < |b| && b[i..i + 2] == Be16(v) && v < 0x1_0000
    ensures U16(b, i) == v
  {
    assert b[i] == b[i..i + 2][0] && b[i + 1] == b[i..i + 2][1];
  }

  lemma ReadsBe32(b: Bytes, i: nat, v: nat)
    requires i + 3 < |b| && b[i..i + 4] == Be32(v) && v < 0x1_0000_0000
    ensures U32(b, i) == v
  {
    hide Be16, U16;
    assert b[i..i + 2] == b[i..i + 4][..2] && b[i + 2..i + 4] == b[i..i + 4][2..];
    assert Be32(v) == Be16(v / 0x1_0000) + Be16(v);
    LowHalf(v);
    ReadsBe16(b, i, v / 0x1_0000);
    ReadsBe16(b, i + 2, v % 0x1_0000);
  }

  lemma LowHalf(v: nat)
    ensures Be16(v) == Be16(v % 0x1_0000)
  {
    var q, r := v / 0x1_0000, v % 0x1_0000;
    DivisionIsUnique(v, 256, 256 * q + r / 256, r % 256);
    DivisionIsUnique(v / 256, 256, q, r / 256);
  }

  /** An odd last byte is summed as if a zero byte followed, section 1 of RFC 1071. */
  lemma {:induction false} SumPadsWithZero(b: Bytes)
    requires |b| % 2 == 1
    ensures Sum16(b) == Sum16(b + [0])
  {
    if |b| == 1 {
      assert (b + [0])[2..] == [];
    } else {
      SumPadsWithZero(b[2..]);
      assert (b + [0])[2..] == b[2..] + [0];
    }
  }

  // ----- IPv4 -----

  /** What the addressee of an IPv4 reply reads: an IPv4 header without options of the reply's own
      length, from `local` to the packet's source, carrying ICMP; type 3 code 4; the MTU, raised to
      576 and capped at 65535; and the start of its packet. */
  lemma Reading4(inner: Bytes, local: Addr, mtu: int, maxOuter: int)
    requires Answers4(inner, local, maxOuter) && ValidAddr(local)
    ensures var r := Reply4(inner, local, mtu, maxOuter);
            && 36 <= |r| <= maxOuter && |r| == 28 + Min(|inner|, maxOuter - 28)
            && r[0] == 0x45 && (|r| < 0x1_0000 ==> U16(r, 2) == |r|) && U16(r, 6) == 0 && r[8] == 64 && r[9] == 1
            && r[12..16] == local.b && r[16..20] == inner[12..16]
            && r[20] == 3 && r[21] == 4 && U16(r, 24) == 0
            && U16(r, 26) == (if mtu < 576 then 576 else if mtu > 65535 then 65535 else mtu)
            && r[28..] == inner[..|r| - 28]
            && Checksum(0, r[..20]) == 0 && Checksum(0, r[20..]) == 0
  {
    Reply4IsSound(inner, local, mtu, maxOuter);
    hide Checksum, Sum16, Fold;
    var payload := Payload4(inner, maxOuter);
    var advertised := Max(MIN_MTU_V4, Min(mtu, 0xffff));
    var r := Reply4(inner, local, mtu, maxOuter);
    Header4(inner, local, mtu, maxOuter);
    ReadsBe16(r, 26, advertised);
    if |r| < 0x1_0000 {
      ReadsBe16(r, 2, |r|);
    }
  }

  lemma Header4(inner: Bytes, local: Addr, mtu: int, maxOuter: int)
    requires Answers4(inner, local, maxOuter) && ValidAddr(local)
    ensures var r := Reply4(inner, local, mtu, maxOuter);
            && |r| == 28 + |Payload4(inner, maxOuter)| && |r| >= 36
            && r[0] == 0x45 && r[2..4] == Be16(|r|) && r[6] == 0 && r[7] == 0 && r[8] == 64 && r[9] == 1
            && r[12..16] == local.b && r[16..20] == inner[12..16]
            && r[20] == 3 && r[21] == 4 && r[24] == 0 && r[25] == 0
            && r[26..28] == Be16(Max(MIN_MTU_V4, Min(mtu, 0xffff)))
  {
    hide Checksum, Sum16, Fold, Be16;
    var payload := Payload4(inner, maxOuter);
    var head := [0x45, 0] + Be16(28 + |payload|) + [0, 0, 0, 0, 64, PROTO_ICMP];
    var tail := local.b + inner[12..16];
    var icmp := [0, 0] + Be16(Max(MIN_MTU_V4, Min(mtu, 0xffff))) + payload;
    var r := Reply4(inner, local, mtu, maxOuter);
    var a, b := Sealed(0, head, tail), Sealed(0, [3, 4], icmp);
    assert r == a + b && |a| == 20;
    assert a[..10] == head && a[12..] == tail;
    assert r[12..16] == a[12..][..4] && r[16..20] == a[12..][4..];
    assert r[2..4] == head[2..4];
    assert b[4..] == icmp;
    assert r[26..28] == b[4..][2..4];
  }

  /** An IPv4 packet is answered exactly if its header is whole, it is not a later fragment, it must
      not be fragmented, it is no ICMP error, its source is an address that can be answered, and
      its header and eight bytes fit into the reply. */
  lemma Answered4Iff(inner: Bytes, local: Addr, maxOuter: int)
    ensures Answers4(inner, local, maxOuter) <==>
              && |inner| >= 20 && local.V4?
              && 5 <= inner[0] % 16 && 4 * (inner[0] % 16) <= |inner|
              && inner[6] % 32 == 0 && inner[7] == 0
              && inner[6] / 64 % 2 == 1
              && (inner[9] == 1 && 4 * (inner[0] % 16) < |inner| ==>
                    var t := inner[4 * (inner[0] % 16)]; t != 3 && t != 4 && t != 5 && t != 11 && t != 12)
              && !(0xe0 <= inner[12] <= 0xef)
              && !(inner[12] == 169 && inner[13] == 254)
              && !(inner[12] == 0 && inner[13] == 0 && inner[14] == 0 && inner[15] == 0)
              && maxOuter >= 20 + 8 + 4 * (inner[0] % 16) + 8
  {
    if |inner| >= 20 {
      var b := inner[12..16];
      assert b[0] == inner[12] && b[1] == inner[13] && b[2] == inner[14] && b[3] == inner[15];
      assert BadSource4(b) <==> (0xe0 <= b[0] <= 0xef) || (b[0] == 169 && b[1] == 254)
                                || (b[0] == 0 && b[1] == 0 && b[2] == 0 && b[3] == 0) by {
        assert b == [b[0], b[1], b[2], b[3]];
      }
      FragmentBits(inner[6], inner[7]);
    }
  }

  lemma FragmentBits(hi: Byte, lo: Byte)
    ensures Word(hi, lo) % 0x2000 == 0 <==> hi % 32 == 0 && lo == 0
    ensures Word(hi, lo) / 0x4000 == hi / 64
  {
  }

  // ----- IPv6 -----

  /** The pseudo-header of section 8.1 of RFC 8200 for an ICMPv6 message. */
  function PseudoHeader(src: Bytes, dst: Bytes, len: nat): Bytes {
    src + dst + ([0, 0] + Be16(len)) + [0, 0, 0, 58]
  }

  lemma SumOfRest(len: nat)
    requires len < 0x1_0000
    ensures Sum16([0, 0] + Be16(len)) == len && Sum16([0, 0, 0, 58]) == 58
  {
    var l: Bytes := [0, 0] + Be16(len);
    var n: Bytes, m: Bytes := [0, 0, 0, 58], [0, 58];
    assert l[2..] == Be16(len) && Be16(len)[2..] == [];
    assert n[2..] == m && m[2..] == [];
    assert Sum16(Be16(len)) == len && Sum16(m) == 58;
  }

  lemma PseudoIsSummed(src: Bytes, dst: Bytes, len: nat, body: Bytes)
    requires |src| == 16 && |dst| == 16 && len < 0x1_0000
    ensures Checksum(0, PseudoHeader(src, dst, len) + body) == Checksum(PseudoSum(src, dst, len), body)
  {
    hide Sum16, Fold, Be16;
    var l, n := [0, 0] + Be16(len), [0, 0, 0, 58];
    SumOfRest(len);
    SumOfParts(src + dst + l + n, body);
    SumOfParts(src + dst + l, n);
    SumOfParts(src + dst, l);
    SumOfParts(src, dst);
  }

  /** What the addressee of an IPv6 reply reads: an IPv6 header with the length of what follows, from
      `local` to the packet's source, carrying ICMPv6; type 2 code 0; the MTU, raised to 1280; the
      start of its packet; and a checksum that verifies over the pseudo-header's bytes. */
  lemma Reading6(inner: Bytes, local: Addr, mtu: int, maxOuter: int)
    requires Answers6(inner, local, maxOuter) && ValidAddr(local)
    ensures var r := Reply6(inner, local, mtu, maxOuter);
            && 88 <= |r| <= maxOuter && |r| <= 1280 && |r| == 48 + Min(|inner|, Min(maxOuter, 1280) - 48)
            && r[0] == 0x60 && U16(r, 4) == |r| - 40 && r[6] == 58 && r[7] == 64
            && r[8..24] == local.b && r[24..40] == inner[8..24]
            && r[40] == 2 && r[41] == 0
            && (mtu < 0x1_0000_0000 ==> U32(r, 44) == if mtu < 1280 then 1280 else mtu)
            && r[48..] == inner[..|r| - 48]
            && Checksum(0, r[8..24] + r[24..40] + ([0, 0] + Be16(|r| - 40)) + [0, 0, 0, 58] + r[40..]) == 0
  {
    Reply6IsSound(inner, local, mtu, maxOuter);
    hide Checksum, Sum16, Fold;
    var r := Reply6(inner, local, mtu, maxOuter);
    Header6(inner, local, mtu, maxOuter);
    ReadsBe16(r, 4, |r| - 40);
    if mtu < 0x1_0000_0000 {
      ReadsBe32(r, 44, Max(mtu, MIN_MTU_V6));
    }
    PseudoIsSummed(r[8..24], r[24..40], |r| - 40, r[40..]);
  }

  lemma Header6(inner: Bytes, local: Addr, mtu: int, maxOuter: int)
    requires Answers6(inner, local, maxOuter) && ValidAddr(local)
    ensures var r := Reply6(inner, local, mtu, maxOuter);
            && |r| == 48 + |Payload6(inner, maxOuter)| && |r| >= 88
            && r[0] == 0x60 && r[4..6] == Be16(|r| - 40) && r[6] == 58 && r[7] == 64
            && r[8..24] == local.b && r[24..40] == inner[8..24]
            && r[40] == 2 && r[41] == 0 && r[44..48] == Be32(Max(mtu, MIN_MTU_V6))
  {
    hide Checksum, PseudoSum, Be16, Be32;
    var payload := Payload6(inner, maxOuter);
    var src := inner[8..24];
    var fixed := [0x60, 0, 0, 0] + Be16(8 + |payload|) + [PROTO_ICMPV6, 64];
    var tail := Be32(Max(mtu, MIN_MTU_V6)) + payload;
    var body := Sealed(PseudoSum(local.b, src, 8 + |payload|), [2, 0], tail);
    var r := Reply6(inner, local, mtu, maxOuter);
    assert r == fixed + local.b + src + body && |fixed| == 8;
    assert r[4..6] == fixed[4..6];
    assert body[4..] == tail;
    assert r[44..48] == body[4..][..4];
  }

  /** An IPv6 packet is answered exactly if its header is whole, it is no ICMPv6 error, its source is
      an address that can be answered, mapped IPv4 addresses included, and its header fits. */
  lemma Answered6Iff(inner: Bytes, local: Addr, maxOuter: int)
    requires ValidAddr(local)
    ensures Answers6(inner, local, maxOuter) <==>
              && |inner| >= 40 && local.V6? && !Mapped(local.b, 0)
              && (inner[6] == 58 && |inner| > 40 ==> !(1 <= inner[40] <= 4))
              && (if Mapped(inner, 8) then
                    && !(0xe0 <= inner[20] <= 0xef)
                    && !(inner[20] == 169 && inner[21] == 254)
                    && !(inner[20] == 0 && inner[21] == 0 && inner[22] == 0 && inner[23] == 0)
                  else
                    && inner[8] != 0xff
                    && !(inner[8] == 0xfe && 0x80 <= inner[9] <= 0xbf)
                    && exists i | 8 <= i < 24 :: inner[i] != 0)
              && maxOuter >= 40 + 8 + 40
  {
    if local.V6? {
      MappedIs(local.b, 0);
      assert local.b[0..16] == local.b;
    }
    if |inner| >= 40 {
      MappedIs(inner, 8);
      var b := inner[8..24];
      assert forall i | 0 <= i < 16 :: b[i] == inner[8 + i];
      assert b[12..] == [b[12], b[13], b[14], b[15]];
      AllZero(inner);
    }
  }

  /** Ten zero bytes and two of ones at the start of an address. */
  predicate Mapped(b: Bytes, at: nat)
    requires at + 16 <= |b|
  {
    (forall i | at <= i < at + 10 :: b[i] == 0) && b[at + 10] == 0xff && b[at + 11] == 0xff
  }

  lemma MappedIs(b: Bytes, at: nat)
    requires at + 16 <= |b|
    ensures Is4In6(b[at..at + 16]) <==> Mapped(b, at)
  {
    var c := b[at..at + 16];
    var p: Bytes := [0, 0, 0, 0, 0, 0, 0, 0, 0, 0, 0xff, 0xff];
    assert forall i | 0 <= i < 12 :: c[..12][i] == b[at + i];
    assert forall i | 0 <= i < 10 :: p[i] == 0;
    assert p[10] == 0xff && p[11] == 0xff;
    assert c[..12] == p <==> forall i | 0 <= i < 12 :: c[..12][i] == p[i];
    assert forall i | at <= i < at + 10 :: b[i] == c[..12][i - at];
  }

  lemma AllZero(inner: Bytes)
    requires |inner| >= 24
    ensures inner[8..24] == seq(16, _ => 0) <==> !exists i | 8 <= i < 24 :: inner[i] != 0
  {
    var b: Bytes, z: Bytes := inner[8..24], seq(16, _ => 0);
    assert b == z <==> forall k | 0 <= k < 16 :: b[k] == z[k];
    assert forall i | 8 <= i < 24 :: inner[i] == b[i - 8];
    assert forall k | 0 <= k < 16 :: b[k] == inner[8 + k];
  }

  // ----- Either family -----

  /** Only packets of these two versions are answered, each by its own kind of reply. */
  lemma AnsweredVersions(inner: Bytes, local: Addr, mtu: int, maxOuter: int)
    requires ValidAddr(local)
    ensures Reply(inner, local, mtu, maxOuter)
         == if |inner| >= 1 && 0x40 <= inner[0] < 0x50 && Answers4(inner, local, maxOuter)
              then Some(Reply4(inner, local, mtu, maxOuter))
            else if |inner| >= 1 && 0x60 <= inner[0] < 0x70 && Answers6(inner, local, maxOuter)
              then Some(Reply6(inner, local, mtu, maxOuter))
            else None
  {
    hide Answers4, Answers6, Reply4, Reply6;
  }
}
