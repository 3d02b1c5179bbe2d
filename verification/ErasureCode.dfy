/** The erasure code the FEC layer relies on, as a hypothesis, and a code that meets it. */
module ErasureCodes {
  import opened Common
  import opened Wire

  /** `parity` makes R parity shards of equal-length data shards; `rebuild` recovers the K data
      shards from K + R shards some of which are missing. */
  datatype Code = Code(parity: (seq<Bytes>, nat) -> seq<Bytes>,
                       rebuild: (nat, nat, seq<Option<Bytes>>) -> Option<seq<Bytes>>)

  ghost predicate Uniform(data: seq<Bytes>, k: nat, size: nat) {
    |data| == k && forall d <- data :: |d| == size
  }

  function Present(shards: seq<Option<Bytes>>): nat {
    if shards == [] then 0 else Present(shards[..|shards| - 1]) + if shards[|shards| - 1].Some? then 1 else 0
  }

  /** The shards that are there are the true ones. */
  ghost predicate PartOf(shards: seq<Option<Bytes>>, full: seq<Bytes>) {
    |shards| == |full| && forall i | 0 <= i < |full| :: shards[i].Some? ==> shards[i].value == full[i]
  }

  ghost predicate Recovers(c: Code, k: nat, r: nat, data: seq<Bytes>) {
    forall shards | PartOf(shards, data + c.parity(data, r)) && Present(shards) >= k ::
      c.rebuild(k, r, shards) == Some(data)
  }

  /** Any K of the K + R shards determine the data. */
  ghost predicate ErasureCode(c: Code, k: nat, r: nat) {
    forall data, size | size > 0 && Uniform(data, k, size) ::
      Uniform(c.parity(data, r), r, size) && Recovers(c, k, r, data)
  }

  // ----- Single XOR parity -----

  /** Bitwise exclusive or. */
  function Xor(a: nat, b: nat): nat {
    if a == 0 && b == 0 then 0 else 2 * Xor(a / 2, b / 2) + (a + b) % 2
  }

  lemma XorParts(a: nat, b: nat)
    ensures Xor(a, b) / 2 == Xor(a / 2, b / 2) && Xor(a, b) % 2 == (a + b) % 2
  {
  }

  lemma {:induction false} XorBelow(a: nat, b: nat, m: nat)
    requires a < Pow2(m) && b < Pow2(m)
    ensures Xor(a, b) < Pow2(m)
    decreases m
  {
    if m > 0 {
      XorBelow(a / 2, b / 2, m - 1);
    }
  }

  lemma {:induction false} XorCommutes(a: nat, b: nat)
    ensures Xor(a, b) == Xor(b, a)
  {
    if a != 0 || b != 0 {
      XorCommutes(a / 2, b / 2);
    }
  }

  lemma Parity(a: nat, b: nat, c: nat, ab: nat, bc: nat)
    requires ab % 2 == (a + b) % 2 && bc % 2 == (b + c) % 2
    ensures (ab + c) % 2 == (a + bc) % 2
  {
  }

  lemma SameParts(x: nat, y: nat)
    requires x / 2 == y / 2 && x % 2 == y % 2
    ensures x == y
  {
  }

  lemma {:induction false} XorAssociates(a: nat, b: nat, c: nat)
    ensures Xor(Xor(a, b), c) == Xor(a, Xor(b, c))
    decreases a + b + c
  {
    if a != 0 || b != 0 || c != 0 {
      hide Xor;
      XorAssociates(a / 2, b / 2, c / 2);
      var ab, bc := Xor(a, b), Xor(b, c);
      XorParts(a, b);
      XorParts(b, c);
      XorParts(ab, c);
      XorParts(a, bc);
      Parity(a, b, c, ab, bc);
      SameParts(Xor(ab, c), Xor(a, bc));
    }
  }

  lemma {:induction false} XorZero(a: nat)
    ensures Xor(a, 0) == a && Xor(a, a) == 0
  {
    if a != 0 {
      XorZero(a / 2);
    }
  }

  function XorByte(a: Byte, b: Byte): Byte {
    XorBelow(a, b, 8);
    Xor(a, b)
  }

  /** The exclusive or of byte `j` over the first `n` shards. */
  function Column(data: seq<Bytes>, j: nat, n: nat): Byte
    requires n <= |data|
  {
    if n == 0 then 0
    else XorByte(Column(data, j, n - 1), if j < |data[n - 1]| then data[n - 1][j] else 0)
  }

  function XorShard(data: seq<Bytes>, size: nat): Bytes {
    seq(size, j requires 0 <= j => Column(data, j, |data|))
  }

  function Width(data: seq<Bytes>): nat { if data == [] then 0 else |data[0]| }

  /** The data shards with zeros where one is missing. */
  function Filled(k: nat, shards: seq<Option<Bytes>>, size: nat): seq<Bytes>
    requires k <= |shards|
  {
    seq(k, i requires 0 <= i < k => if shards[i].Some? then shards[i].value else Zeros(size))
  }

  /** The index of the first missing data shard. */
  function FirstMissing(k: nat, shards: seq<Option<Bytes>>): nat
    requires k <= |shards|
  {
    if k == 0 then 0
    else
      var m := FirstMissing(k - 1, shards);
      if m < k - 1 then m else if shards[k - 1].None? then k - 1 else k
  }

  function Restored(parity: Bytes, data: seq<Bytes>): Bytes {
    seq(|parity|, j requires 0 <= j < |parity| => XorByte(parity[j], Column(data, j, |data|)))
  }

  function XorRebuild(k: nat, r: nat, shards: seq<Option<Bytes>>): Option<seq<Bytes>> {
    if |shards| != k + r || Present(shards) < k then None
    else
      var m := FirstMissing(k, shards);
      if m >= k then Some(Filled(k, shards, 0))
      else if r == 0 || shards[k].None? then None
      else
        var parity := shards[k].value;
        var data := Filled(k, shards, |parity|);
        Some(data[m := Restored(parity, data)])
  }

  function XorCode(): Code {
    Code((data: seq<Bytes>, r: nat) => seq(r, _ => XorShard(data, Width(data))),
         (k: nat, r: nat, shards: seq<Option<Bytes>>) => XorRebuild(k, r, shards))
  }

  lemma {:induction false} PresentBelow(shards: seq<Option<Bytes>>, a: nat)
    ensures Present(shards) <= |shards|
    ensures a < |shards| && shards[a].None? ==> Present(shards) <= |shards| - 1
    ensures a < |shards| && shards[a].None? ==>
              forall b | 0 <= b < |shards| && b != a && shards[b].None? :: Present(shards) <= |shards| - 2
  {
    if shards != [] {
      var last := |shards| - 1;
      PresentBelow(shards[..last], a);
      forall b | 0 <= b < |shards| && b != a && a < |shards| && shards[a].None? && shards[b].None?
        ensures Present(shards) <= |shards| - 2
      {
        if a == last {
          PresentBelow(shards[..last], b);
        }
      }
    }
  }

  lemma {:induction false} FirstMissingMeans(k: nat, shards: seq<Option<Bytes>>)
    requires k <= |shards|
    ensures var m := FirstMissing(k, shards);
            && m <= k && (m < k ==> shards[m].None?) && forall i | 0 <= i < m :: shards[i].Some?
  {
    if k > 0 {
      FirstMissingMeans(k - 1, shards);
    }
  }

  lemma XorCancels(c: nat, d: nat)
    ensures Xor(Xor(c, d), c) == d
  {
    XorCommutes(c, d);
    XorAssociates(d, c, c);
    XorZero(c);
    XorZero(d);
  }

  lemma XorMiddle(x: nat, d: nat, y: nat)
    ensures Xor(Xor(x, d), y) == Xor(Xor(x, y), d)
  {
    XorAssociates(x, d, y);
    XorCommutes(d, y);
    XorAssociates(x, y, d);
  }

  /** Taking one shard out of a column and putting it back. */
  lemma {:induction false} ColumnSplit(data: seq<Bytes>, rest: seq<Bytes>, j: nat, n: nat, m: nat)
    requires n <= |data| == |rest| && m < |data|
    requires forall i | 0 <= i < |data| && i != m :: data[i] == rest[i]
    requires j < |data[m]| && j < |rest[m]| && rest[m][j] == 0
    ensures Column(data, j, n) == if m < n then XorByte(Column(rest, j, n), data[m][j]) else Column(rest, j, n)
  {
    if n > 0 {
      hide Xor;
      ColumnSplit(data, rest, j, n - 1, m);
      if m == n - 1 {
        XorZero(Column(rest, j, n - 1));
      } else if m < n - 1 {
        XorMiddle(Column(rest, j, n - 1), data[m][j], if j < |data[n - 1]| then data[n - 1][j] else 0);
      }
    }
  }

  lemma XorRebuilds(data: seq<Bytes>, size: nat, shards: seq<Option<Bytes>>)
    requires |data| >= 1 && Uniform(data, |data|, size)
    requires PartOf(shards, data + [XorShard(data, size)]) && Present(shards) >= |data|
    ensures XorRebuild(|data|, 1, shards) == Some(data)
  {
    hide Xor, Column, Present;
    var k, m := |data|, FirstMissing(|data|, shards);
    var full := data + [XorShard(data, size)];
    FirstMissingMeans(k, shards);
    PresentBelow(shards, m);
    assert forall i | 0 <= i < k :: full[i] == data[i];
    assert |shards| == k + 1;
    if m >= k {
      assert Filled(k, shards, 0) == data;
      assert XorRebuild(k, 1, shards) == Some(data);
    } else {
      var rest := Filled(k, shards, size);
      assert shards[k].Some? && shards[k].value == XorShard(data, size);
      assert rest == data[m := Zeros(size)];
      var out := Restored(XorShard(data, size), rest);
      forall j | 0 <= j < size ensures out[j] == data[m][j] {
        ColumnSplit(data, rest, j, k, m);
        XorCancels(Column(rest, j, k), data[m][j]);
      }
      assert out == data[m];
      assert rest[m := out] == data;
      assert XorRebuild(k, 1, shards) == Some(rest[m := out]);
    }
  }

  /** The hypothesis is satisfiable: single XOR parity is an erasure code for every group size. */
  lemma XorIsErasureCode(k: nat)
    requires k >= 1
    ensures ErasureCode(XorCode(), k, 1)
  {
    forall data, size | size > 0 && Uniform(data, k, size)
      ensures Uniform(XorCode().parity(data, 1), 1, size) && Recovers(XorCode(), k, 1, data)
    {
      assert XorCode().parity(data, 1) == [XorShard(data, size)];
      forall shards | PartOf(shards, data + XorCode().parity(data, 1)) && Present(shards) >= k
        ensures XorCode().rebuild(k, 1, shards) == Some(data)
      {
        XorRebuilds(data, size, shards);
      }
    }
  }
}
