/** The FEC header on the wire and the length an IP packet declares for itself. */
module Wire {
  import opened Common

  const FEC_HEADER_SIZE := 8
  const MAX_FEC_SHARDS := 15
  const MAX_SEQ := 0x1_0000_0000_0000

  datatype FECHeader = FECHeader(base: nat, k: nat, r: nat, index: nat)

  /** What `ParseFECHeader` lets through: K and R are nibbles of at least one, the index is one
      of the R parity shards, and the base is a 48-bit number. */
  predicate ValidHeader(h: FECHeader) {
    h.base < MAX_SEQ && 1 <= h.k <= MAX_FEC_SHARDS && 1 <= h.r <= MAX_FEC_SHARDS && h.index < h.r
  }

  datatype Parsed = Ok(header: FECHeader, shard: Bytes) | ShortPacket | BadFEC

  /** Little-endian numbers. */
  function FromLE(b: Bytes): nat { if b == [] then 0 else b[0] as int + 256 * FromLE(b[1..]) }

  function ToLE(n: nat, k: nat): (b: Bytes)
    ensures |b| == k
    decreases k
  {
    if k == 0 then [] else [n % 256] + ToLE(n / 256, k - 1)
  }

  function Power256(k: nat): nat { if k == 0 then 1 else 256 * Power256(k - 1) }

  /** What does not fit is cut off at the top. */
  lemma {:induction false} FromToLE(n: nat, k: nat)
    ensures Power256(k) > 0 && FromLE(ToLE(n, k)) == n % Power256(k)
    decreases k
  {
    if k > 0 {
      FromToLE(n / 256, k - 1);
      assert ToLE(n, k)[1..] == ToLE(n / 256, k - 1);
      SplitRemainder(n, Power256(k - 1));
    }
  }

  lemma SplitRemainder(n: nat, p: nat)
    requires p > 0
    ensures n % (256 * p) == n % 256 + 256 * (n / 256 % p)
  {
    var q, r := n / 256 / p, n / 256 % p;
    assert n / 256 == p * q + r;
    assert n == (256 * p) * q + (n % 256 + 256 * r) by {
      assert n == 256 * (n / 256) + n % 256;
      assert 256 * (p * q + r) == (256 * p) * q + 256 * r;
    }
    DivisionIsUnique(n, 256 * p, q, n % 256 + 256 * r);
  }

  lemma {:induction false} ToFromLE(b: Bytes)
    ensures FromLE(b) < Power256(|b|) && ToLE(FromLE(b), |b|) == b
  {
    if b != [] {
      ToFromLE(b[1..]);
      assert FromLE(b) % 256 == b[0] && FromLE(b) / 256 == FromLE(b[1..]);
    }
  }

  function ParseFECHeader(b: Bytes): Parsed {
    if |b| < FEC_HEADER_SIZE + 1 then ShortPacket
    else
      var h := FECHeader(FromLE(b[..6]), b[6] / 16, b[6] % 16, b[7] / 16);
      if h.k == 0 || h.r == 0 || h.index >= h.r then BadFEC else Ok(h, b[FEC_HEADER_SIZE..])
  }

  /** The eight header bytes; wider fields are truncated as the byte conversions do. */
  function Marshal(h: FECHeader): (b: Bytes)
    ensures |b| == FEC_HEADER_SIZE
  {
    ToLE(h.base, 6) + [h.k % 16 * 16 + h.r % 16, h.index % 16 * 16]
  }

  /** A parity packet is parsed into what was marshalled, the base being cut to 48 bits; so the
      header comes back exactly when its base fits. */
  lemma ParseMarshal(h: FECHeader, shard: Bytes)
    requires ValidHeader(h.(base := 0)) && shard != []
    ensures ParseFECHeader(Marshal(h) + shard) == Ok(h.(base := h.base % MAX_SEQ), shard)
    ensures ParseFECHeader(Marshal(h) + shard) == Ok(h, shard) <==> ValidHeader(h)
  {
    hide FromLE, ToLE;
    var b := Marshal(h) + shard;
    assert b[8..] == shard && b[..6] == ToLE(h.base, 6);
    assert Power256(6) == MAX_SEQ;
    FromToLE(h.base, 6);
  }

  /** Everything parsed is a valid header with a non-empty shard, and marshals back to the
      bytes it came from up to the reserved low nibble. */
  lemma MarshalParse(b: Bytes)
    requires ParseFECHeader(b).Ok?
    ensures var p := ParseFECHeader(b);
            && ValidHeader(p.header) && p.shard != [] && p.shard == b[8..]
            && Marshal(p.header) == b[..7] + [b[7] / 16 * 16]
  {
    hide FromLE, ToLE;
    assert Power256(6) == MAX_SEQ;
    ToFromLE(b[..6]);
    assert b[..7] == b[..6] + [b[6]];
  }

  // ----- Inner packets -----

  function BE16(b: Bytes, i: nat): nat
    requires i + 1 < |b|
  {
    256 * (b[i] as int) + b[i + 1] as int
  }

  /** The length an IP packet declares, if the buffer can hold it; padding may follow. */
  function InnerIPLen(b: Bytes): Option<nat> {
    if |b| < 1 then None
    else if b[0] / 16 == 4 then
      if |b| < 20 then None
      else
        var n := BE16(b, 2);
        if n < 20 || n > |b| then None else Some(n)
    else if b[0] / 16 == 6 then
      if |b| < 40 then None
      else
        var n := 40 + BE16(b, 4);
        if n > |b| then None else Some(n)
    else None
  }

  /** An IP packet, by its bytes: the total length of version 4, or the payload length of version 6
      and its 40 bytes of header, says how long it is. */
  predicate SelfDescribing(pkt: Bytes) {
    || (|pkt| >= 20 && 0x40 <= pkt[0] < 0x50 && |pkt| == 256 * (pkt[2] as int) + pkt[3] as int)
    || (|pkt| >= 40 && 0x60 <= pkt[0] < 0x70 && |pkt| == 40 + 256 * (pkt[4] as int) + pkt[5] as int)
  }

  /** A length is read from a buffer exactly if that much of it is an IP packet; so none from a
      buffer of another version, a cut-off packet or one too short for its header. */
  lemma InnerLengthIff(b: Bytes, n: nat)
    ensures InnerIPLen(b) == Some(n) <==> n <= |b| && SelfDescribing(b[..n])
  {
    if |b| >= 40 && 40 <= n <= |b| {
      assert b[..n][0] == b[0] && b[..n][4] == b[4] && b[..n][5] == b[5];
    }
    if |b| >= 20 && 20 <= n <= |b| {
      assert b[..n][0] == b[0] && b[..n][2] == b[2] && b[..n][3] == b[3];
    }
  }

  lemma OtherVersionsHaveNone(b: Bytes)
    ensures |b| == 0 || (b[0] / 16 != 4 && b[0] / 16 != 6) ==> InnerIPLen(b) == None
  {
  }

  function Zeros(n: nat): Bytes { seq(n, _ => 0) }

  function Pad(pkt: Bytes, size: nat): (r: Bytes)
    requires |pkt| <= size
    ensures |r| == size
  {
    pkt + Zeros(size - |pkt|)
  }

  /** Zero padding does not change the declared length, so it can be stripped again. */
  lemma PaddingIsStripped(pkt: Bytes, size: nat)
    requires SelfDescribing(pkt) && |pkt| <= size
    ensures InnerIPLen(Pad(pkt, size)) == Some(|pkt|) && Pad(pkt, size)[..|pkt|] == pkt
  {
    hide InnerIPLen, SelfDescribing;
    assert Pad(pkt, size)[..|pkt|] == pkt;
    InnerLengthIff(Pad(pkt, size), |pkt|);
  }

  lemma DivideTwice(n: nat, p: nat)
    requires p > 0
    ensures n / 256 / p == n / (256 * p)
  {
    var q, r := n / 256 / p, n / 256 % p;
    assert n / 256 == p * q + r;
    assert n == (256 * p) * q + (n % 256 + 256 * r) by {
      assert n == 256 * (n / 256) + n % 256;
      assert 256 * (p * q + r) == (256 * p) * q + 256 * r;
    }
    DivisionIsUnique(n, 256 * p, q, n % 256 + 256 * r);
  }

  lemma {:induction false} ByteOf(n: nat, k: nat, i: nat)
    requires i < k
    ensures Power256(i) > 0 && ToLE(n, k)[i] == n / Power256(i) % 256
    decreases k
  {
    if i > 0 {
      ByteOf(n / 256, k - 1, i - 1);
      DivideTwice(n, Power256(i - 1));
    }
  }

  /** The header byte by byte: the base in little-endian order, K and R as nibbles, the index in
      the high nibble of the last byte. */
  lemma HeaderLayout(h: FECHeader, i: nat)
    requires ValidHeader(h) && i < 6
    ensures Power256(i) > 0 && Marshal(h)[i] == h.base / Power256(i) % 256
    ensures Marshal(h)[6] == 16 * h.k + h.r && Marshal(h)[7] == 16 * h.index
    ensures Power256(0) == 1 && Power256(1) == 0x100 && Power256(5) == 0x100_0000_0000
  {
    ByteOf(h.base, 6, i);
    assert Marshal(h)[i] == ToLE(h.base, 6)[i];
    hide ToLE;
    assert Power256(2) == 0x1_0000 && Power256(3) == 0x100_0000;
  }
}
