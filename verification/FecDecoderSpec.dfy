/** The FEC decoder: what `Decoder.AddData` and `Decoder.AddParity` do to the ring of recent
    data packets and the table of parity groups (`internal/fec/decoder.go`). */
module FecDecoderSpec {
  import opened Common
  import opened Wire
  import opened ErasureCodes
  import opened FecEncoderSpec

  const RING_SIZE := 256
  const MAX_GROUPS := 64

  datatype Slot = Free | Used(sn: nat, pkt: Bytes)

  /** A tracked group.  The source's `done` flag is set only together with the removal of the
      group, so a tracked group is never done. */
  datatype RxGroup = RxGroup(base: nat, k: nat, r: nat, shardSize: nat, parity: seq<Option<Bytes>>, got: nat)

  datatype Dec = Dec(ring: seq<Slot>, started: bool, highest: nat, groups: map<nat, RxGroup>,
                     recovered: nat, failed: nat)

  datatype Recovered = Recovered(sn: nat, pkt: Bytes)

  function NewDecoder(): Dec { Dec(seq(RING_SIZE, _ => Free), false, 0, map[], 0, 0) }

  /** The ring still holds packet `sn`. */
  predicate Has(ring: seq<Slot>, sn: nat) {
    |ring| == RING_SIZE && ring[sn % RING_SIZE].Used? && ring[sn % RING_SIZE].sn == sn
  }

  function PresentIn(ring: seq<Slot>, base: nat, n: nat): nat {
    if n == 0 then 0 else PresentIn(ring, base, n - 1) + if Has(ring, base + n - 1) then 1 else 0
  }

  /** A copy of the packet, padded to the shard size. */
  function FitTo(pkt: Bytes, size: nat): Bytes { if |pkt| <= size then Pad(pkt, size) else pkt[..size] }

  /** The first `n` data shards of a group, as far as the ring holds them. */
  function DataPart(ring: seq<Slot>, base: nat, size: nat, n: nat): seq<Option<Bytes>> {
    if n == 0 then []
    else
      DataPart(ring, base, size, n - 1)
      + [if Has(ring, base + n - 1) then Some(FitTo(ring[(base + n - 1) % RING_SIZE].pkt, size)) else None]
  }

  /** One of the first `n` packets is longer than the group's shards. */
  predicate Oversized(ring: seq<Slot>, base: nat, size: nat, n: nat) {
    n > 0 &&
    (Oversized(ring, base, size, n - 1)
     || (Has(ring, base + n - 1) && |ring[(base + n - 1) % RING_SIZE].pkt| > size))
  }

  /** A reconstructed shard as a packet of the length it declares, unless the ring has it. */
  function Taken(ring: seq<Slot>, sn: nat, shard: Bytes): seq<Recovered> {
    var len := InnerIPLen(shard);
    if Has(ring, sn) || len.None? || len.value > |shard| then [] else [Recovered(sn, shard[..len.value])]
  }

  /** The packets among the first `n` that the ring lacks. */
  function Harvest(ring: seq<Slot>, base: nat, data: seq<Bytes>, n: nat): seq<Recovered>
    requires n <= |data|
  {
    if n == 0 then [] else Harvest(ring, base, data, n - 1) + Taken(ring, base + n - 1, data[n - 1])
  }

  function Drop(d: Dec, base: nat): Dec { d.(groups := d.groups - {base}) }

  /** Reconstructs a group's missing packets if enough shards are on hand. */
  function TryReconstruct(code: Code, d: Dec, g: RxGroup): (Dec, seq<Recovered>) {
    var present := PresentIn(d.ring, g.base, g.k);
    if present >= g.k then (Drop(d, g.base), [])
    else if g.got < g.k - present || Oversized(d.ring, g.base, g.shardSize, g.k) then (d, [])
    else
      var data := code.rebuild(g.k, g.r, DataPart(d.ring, g.base, g.shardSize, g.k) + g.parity);
      if data.None? || |data.value| != g.k then (d, [])
      else
        var out := Harvest(d.ring, g.base, data.value, g.k);
        (Drop(d, g.base).(recovered := d.recovered + |out|), out)
  }

  /** Groups too old for their data to still be in the ring. */
  function Stale(d: Dec): set<nat> {
    if d.highest < RING_SIZE then {}
    else set base | base in d.groups && base < d.highest - RING_SIZE + MAX_FEC_SHARDS
  }

  function Prune(d: Dec): Dec { d.(groups := d.groups - Stale(d), failed := d.failed + |Stale(d)|) }

  function Record(d: Dec, sn: nat, pkt: Bytes): Dec
    requires |d.ring| == RING_SIZE
  {
    d.(ring := d.ring[sn % RING_SIZE := Used(sn, pkt)], started := true,
       highest := if !d.started || sn > d.highest then sn else d.highest)
  }

  /** The groups an arriving packet belongs to. */
  function Covering(d: Dec, sn: nat): set<nat> {
    set base | base in d.groups && base <= sn < base + d.groups[base].k
  }

  /** The map iteration may meet any covering group first and tries that one only. */
  ghost predicate AddData(code: Code, d: Dec, sn: nat, pkt: Bytes, d': Dec, out: seq<Recovered>)
    requires |d.ring| == RING_SIZE
  {
    if |pkt| > SHARD_CAP then d' == d && out == []
    else
      var d1 := Prune(Record(d, sn, pkt));
      if Covering(d1, sn) == {} then d' == d1 && out == []
      else
        exists base ::
          base in Covering(d1, sn) && base in d1.groups && (d', out) == TryReconstruct(code, d1, d1.groups[base])
  }

  ghost function EvictOldest(d: Dec): Dec {
    if d.groups == map[] then d
    else d.(groups := d.groups - {Least(d.groups.Keys)}, failed := d.failed + 1)
  }

  function NewGroup(h: FECHeader, size: nat): RxGroup {
    RxGroup(h.base, h.k, h.r, size, seq(h.r, _ => None), 0)
  }

  ghost function Track(d: Dec, h: FECHeader, size: nat): Dec {
    if h.base in d.groups then d
    else
      var d1 := if |d.groups| >= MAX_GROUPS then EvictOldest(d) else d;
      d1.(groups := d1.groups[h.base := NewGroup(h, size)])
  }

  function Store(g: RxGroup, index: nat, shard: Bytes): RxGroup
    requires index < |g.parity|
  {
    if g.parity[index].Some? then g else g.(parity := g.parity[index := Some(shard)], got := g.got + 1)
  }

  ghost function AddParity(code: Code, d: Dec, h: FECHeader, shard: Bytes): (Dec, seq<Recovered>) {
    if |shard| > SHARD_CAP then (d, [])
    else
      var d1 := Track(d, h, |shard|);
      var g := d1.groups[h.base];
      if h.k != g.k || h.r != g.r || |shard| != g.shardSize || h.index >= |g.parity| then (d1, [])
      else
        var g' := Store(g, h.index, shard);
        TryReconstruct(code, d1.(groups := d1.groups[h.base := g']), g')
  }
}
