/** Vocabulary shared by the models. */
module Common {

  datatype Option<+T> = None | Some(value: T)

  type Byte = b: int | 0 <= b < 256

  type Bytes = seq<Byte>

  /** The most paths a session can have. */
  const MAX_PATHS := 32

  function Pow2(m: nat): nat { if m == 0 then 1 else 2 * Pow2(m - 1) }

  function Max(a: int, b: int): int { if a < b then b else a }

  /** The least member of a nonempty set. */
  ghost function Least(s: set<nat>): (m: nat)
    requires s != {}
    ensures m in s && forall k <- s :: m <= k
  {
    var x :| x in s;
    var rest := s - {x};
    if rest == {} then
      assert s == {x};
      x
    else
      var y := Least(rest);
      assert s == rest + {x};
      if x < y then x else y
  }

  lemma DivisionIsUnique(x: int, n: int, q: int, r: int)
    requires n > 0 && x == n * q + r && 0 <= r < n
    ensures x / n == q && x % n == r
  {
    var d := x / n - q;
    assert n * d == r - x % n;
    assert d >= 1 ==> n * d >= n;
    assert d <= -1 ==> n * d <= -n;
  }
}
