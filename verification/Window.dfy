/** The sliding duplicate bitmap that `replay.Window.Check` (32 blocks) and
    `Buffer.markSeen` (128 blocks) share: a value-level specification, what it
    decides over whole runs, and the array implementation that refines it. */
module BlockWindow {
  import opened Common

  const BLOCK_BITS := 64

  /** Blocks in `replay.Window` and in the reorder buffer's `seen` bitmap. */
  const REPLAY_BLOCKS := 32
  const SEEN_BLOCKS := 128

  /** `marks` holds the numbers whose bit is set.  A bit does not always stand for the
      counter that set it: a counter whose block lies exactly `blocks` behind the newest
      block sets the bit of the number one full window later. */
  datatype Window = Window(blocks: nat, started: bool, highest: nat, marks: set<nat>) {

    ghost predicate Valid() {
      && blocks > 0
      && (!started ==> marks == {})
      && (forall m <- marks :: m / BLOCK_BITS <= highest / BLOCK_BITS)
    }

    function Span(): nat { BLOCK_BITS * blocks }

    predicate TooOld(c: nat) { started && c <= highest && highest - c >= Span() }

    /** Inside the window, but the slot of its block already belongs to the newest block. */
    predicate Aliased(c: nat) {
      started && c <= highest && highest - c < Span() && c / BLOCK_BITS + blocks == highest / BLOCK_BITS
    }

    /** The number whose bit `Check` reads and sets for `c`. */
    function Mark(c: nat): nat { if Aliased(c) then c + Span() else c }

    function Check(c: nat): (Window, bool) {
      if !started then
        (Window(blocks, true, c, {c}), true)
      else if TooOld(c) then
        (this, false)
      else
        (Window(blocks, true, if c > highest then c else highest, marks + {Mark(c)}), Mark(c) !in marks)
    }

    /** The mark of an in-window counter lies in one of the newest blocks, and in the slot
        of the counter's own block. */
    lemma MarkHome(c: nat)
      requires Valid() && started && c <= highest && highest - c < Span()
      ensures highest / BLOCK_BITS - blocks < Mark(c) / BLOCK_BITS <= highest / BLOCK_BITS
      ensures Mark(c) / BLOCK_BITS % blocks == c / BLOCK_BITS % blocks
      ensures Mark(c) % BLOCK_BITS == c % BLOCK_BITS
    {
      if Aliased(c) {
        assert (c + Span()) / BLOCK_BITS == c / BLOCK_BITS + blocks;
        var b := c / BLOCK_BITS;
        DivisionIsUnique(b + blocks, blocks, b / blocks + 1, b % blocks);
      }
    }

    lemma CheckValid(c: nat)
      requires Valid()
      ensures Check(c).0.Valid() && Check(c).0.blocks == blocks
    {
      if started && !TooOld(c) {
        var w := Check(c).0;
        forall m <- w.marks ensures m / BLOCK_BITS <= w.highest / BLOCK_BITS {
          if m == Mark(c) && Aliased(c) {
            assert (c + Span()) / BLOCK_BITS == c / BLOCK_BITS + blocks;
          }
        }
      }
    }
  }

  function Fresh(blocks: nat): Window { Window(blocks, false, 0, {}) }

  // ----- Runs -----

  /** The window after the counters `cs` were presented in order. */
  function After(blocks: nat, cs: seq<nat>): Window {
    if cs == [] then Fresh(blocks) else After(blocks, cs[..|cs| - 1]).Check(cs[|cs| - 1]).0
  }

  /** The counters `Check` has accepted at least once. */
  function Accepted(blocks: nat, cs: seq<nat>): set<nat> {
    if cs == [] then {}
    else
      var prev := cs[..|cs| - 1];
      var c := cs[|cs| - 1];
      Accepted(blocks, prev) + if After(blocks, prev).Check(c).1 then {c} else {}
  }

  /** Counter `a` left a mark, its own or the one it aliases to. */
  ghost predicate Marked(w: Window, a: nat) {
    && a <= w.highest
    && (a in w.marks || (a + w.Span() in w.marks && a / BLOCK_BITS + w.blocks <= w.highest / BLOCK_BITS))
  }

  /** Mark `m` was left by an accepted counter. */
  ghost predicate Explained(w: Window, acc: set<nat>, m: nat) {
    m in acc || (m >= w.Span() && m - w.Span() in acc)
  }

  ghost predicate Tracks(w: Window, acc: set<nat>) {
    && (forall c <- acc :: Marked(w, c))
    && (forall m <- w.marks :: Explained(w, acc, m))
    && (w.started <==> acc != {})
  }

  lemma {:induction false} RunTracks(blocks: nat, cs: seq<nat>)
    requires blocks > 0
    ensures After(blocks, cs).Valid() && After(blocks, cs).blocks == blocks
    ensures After(blocks, cs).started <==> cs != []
    ensures Tracks(After(blocks, cs), Accepted(blocks, cs))
  {
    if cs != [] {
      var prev, c := cs[..|cs| - 1], cs[|cs| - 1];
      RunTracks(blocks, prev);
      After(blocks, prev).CheckValid(c);
      CheckTracks(After(blocks, prev), Accepted(blocks, prev), c);
    }
  }

  lemma CheckTracks(w: Window, acc: set<nat>, c: nat)
    requires w.Valid() && Tracks(w, acc)
    ensures Tracks(w.Check(c).0, acc + if w.Check(c).1 then {c} else {})
  {
    hide Marked, Explained;
    var (w', ok) := w.Check(c);
    var acc' := acc + if ok then {c} else {};
    forall a <- acc' ensures Marked(w', a) {
      if a in acc { StaysMarked(w, c, a); } else { BecomesMarked(w, c); }
    }
    forall m <- w'.marks ensures Explained(w', acc', m) {
      StaysExplained(w, acc, c, m);
    }
  }

  lemma StaysMarked(w: Window, c: nat, a: nat)
    requires w.started && Marked(w, a)
    ensures Marked(w.Check(c).0, a)
  {
    assert w.highest / BLOCK_BITS <= w.Check(c).0.highest / BLOCK_BITS;
  }

  lemma BecomesMarked(w: Window, c: nat)
    requires w.Check(c).1
    ensures Marked(w.Check(c).0, c)
  {
  }

  lemma StaysExplained(w: Window, acc: set<nat>, c: nat, m: nat)
    requires m in w.Check(c).0.marks && (w.started && m in w.marks ==> Explained(w, acc, m))
    ensures Explained(w.Check(c).0, acc + if w.Check(c).1 then {c} else {}, m)
  {
  }

  lemma TrackedAgainIff(w: Window, acc: set<nat>, c: nat)
    requires w.Valid() && Tracks(w, acc) && c in acc
    ensures w.Check(c).1 <==> w.Aliased(c) && c + w.Span() !in w.marks
  {
    if !w.Aliased(c) && !w.TooOld(c) {
      var b, top, n := c / BLOCK_BITS, w.highest / BLOCK_BITS, w.blocks;
      assert b + n != top;
      assert b + n > top by {
        assert w.highest < c + BLOCK_BITS * n;
        assert (c + BLOCK_BITS * n) / BLOCK_BITS == b + n;
      }
      assert c in w.marks;
    }
  }

  /** The counters accepted from the aliased block of their time, each of which set the bit of
      the number one span later. */
  function Strayed(blocks: nat, cs: seq<nat>): set<nat> {
    if cs == [] then {}
    else
      var prev := cs[..|cs| - 1];
      var c := cs[|cs| - 1];
      Strayed(blocks, prev) + if After(blocks, prev).Aliased(c) && After(blocks, prev).Check(c).1 then {c} else {}
  }

  /** Marks are the accepted counters' own or one span above a strayed counter. */
  ghost predicate Attributed(w: Window, acc: set<nat>, strayed: set<nat>) {
    && (forall m <- w.marks :: m in acc || (m >= w.Span() && m - w.Span() in strayed))
    && (forall c <- strayed :: c in acc && c + w.Span() in w.marks)
  }

  lemma CheckAttributes(w: Window, acc: set<nat>, strayed: set<nat>, c: nat)
    requires Attributed(w, acc, strayed) && (!w.started ==> w.marks == {} && strayed == {})
    ensures var (w', ok) := w.Check(c);
            Attributed(w', acc + (if ok then {c} else {}), strayed + if w.Aliased(c) && ok then {c} else {})
  {
  }

  lemma {:induction false} RunAttributes(blocks: nat, cs: seq<nat>)
    requires blocks > 0
    ensures Attributed(After(blocks, cs), Accepted(blocks, cs), Strayed(blocks, cs))
  {
    if cs != [] {
      hide Attributed, Tracks;
      var prev := cs[..|cs| - 1];
      RunAttributes(blocks, prev);
      RunTracks(blocks, prev);
      CheckAttributes(After(blocks, prev), Accepted(blocks, prev), Strayed(blocks, prev), cs[|cs| - 1]);
    } else {
      NothingAttributed(blocks);
    }
  }

  lemma NothingAttributed(blocks: nat)
    ensures Attributed(Fresh(blocks), {}, {})
  {
  }

  /** In the aliased block the bit a counter maps to is set exactly if that counter set it. */
  lemma AliasedBit(w: Window, acc: set<nat>, strayed: set<nat>, c: nat)
    requires w.Valid() && Tracks(w, acc) && Attributed(w, acc, strayed) && w.Aliased(c)
    ensures c + w.Span() in w.marks <==> c in strayed
  {
    if c + w.Span() in w.marks {
      assert c + w.Span() !in acc;
    }
  }

  /** A counter once accepted is refused again unless its block is exactly `blocks` behind the
      newest one and still inside the span; and there it is accepted exactly one more time. */
  lemma {:induction false} AcceptedAgainIff(blocks: nat, cs: seq<nat>, c: nat)
    requires blocks > 0
    requires c in Accepted(blocks, cs)
    ensures var w := After(blocks, cs);
            && (w.Check(c).1 <==> w.Aliased(c) && c + w.Span() !in w.marks)
            && (w.Check(c).1 <==> w.Aliased(c) && c !in Strayed(blocks, cs))
  {
    hide After, Accepted, Tracks, Strayed, Attributed;
    RunTracks(blocks, cs);
    RunAttributes(blocks, cs);
    TrackedAgainIff(After(blocks, cs), Accepted(blocks, cs), c);
    if After(blocks, cs).Aliased(c) {
      AliasedBit(After(blocks, cs), Accepted(blocks, cs), Strayed(blocks, cs), c);
    }
  }

  /** A counter never accepted is refused exactly when it is too old or, outside the aliased
      block, the number one span earlier was accepted from the aliased block of its time and set
      this counter's bit.  In the aliased block a new counter is always accepted. */
  lemma {:induction false} FreshRefusedIff(blocks: nat, cs: seq<nat>, c: nat)
    requires blocks > 0
    requires c !in Accepted(blocks, cs)
    ensures var w := After(blocks, cs);
            !w.Check(c).1 <==>
              w.TooOld(c) || (!w.Aliased(c) && c >= w.Span() && c - w.Span() in Strayed(blocks, cs))
  {
    hide After, Accepted, Strayed;
    RunTracks(blocks, cs);
    RunAttributes(blocks, cs);
    var w := After(blocks, cs);
    if w.Aliased(c) {
      AliasedBit(w, Accepted(blocks, cs), Strayed(blocks, cs), c);
    }
  }

  /** Away from the aliased block an accepted counter's own bit is the one that gets set. */
  lemma UnaliasedMarks(w: Window, c: nat)
    requires w.Valid() && !w.Aliased(c)
    ensures var (w', ok) := w.Check(c);
            if ok then c !in w.marks && w'.marks == w.marks + {c}
                       && multiset(w'.marks) == multiset(w.marks) + multiset{c}
            else w'.marks == w.marks
  {
  }

  // ----- The set-based window -----

  /** The window the documentation describes: unseen and less than a span behind. */
  datatype Ideal = Ideal(blocks: nat, highest: nat, seen: set<nat>) {
    function Check(c: nat): (Ideal, bool) {
      if seen != {} && c <= highest && highest - c >= BLOCK_BITS * blocks then (this, false)
      else (Ideal(blocks, if seen == {} || c > highest then c else highest, seen + {c}), c !in seen)
    }
  }

  function IdealAfter(blocks: nat, cs: seq<nat>): Ideal {
    if cs == [] then Ideal(blocks, 0, {}) else IdealAfter(blocks, cs[..|cs| - 1]).Check(cs[|cs| - 1]).0
  }

  /** No counter was presented while its block was aliased. */
  predicate Clean(blocks: nat, cs: seq<nat>) {
    cs == [] ||
    (Clean(blocks, cs[..|cs| - 1]) && !After(blocks, cs[..|cs| - 1]).Aliased(cs[|cs| - 1]))
  }

  ghost predicate Agrees(w: Window, i: Ideal) {
    && w.blocks == i.blocks && w.marks == i.seen && (w.started <==> i.seen != {})
    && (w.started ==> w.highest == i.highest)
    && (forall m <- w.marks :: m <= w.highest)
  }

  /** On clean runs the bitmap is the set-based window. */
  lemma {:induction false} CleanRunIsIdeal(blocks: nat, cs: seq<nat>)
    requires blocks > 0 && Clean(blocks, cs)
    ensures Agrees(After(blocks, cs), IdealAfter(blocks, cs))
    ensures Accepted(blocks, cs) == IdealAfter(blocks, cs).seen
  {
    if cs != [] {
      CleanRunIsIdeal(blocks, cs[..|cs| - 1]);
    }
  }

  /** After a clean run the next answer differs from the set-based window exactly when an
      already accepted counter is presented from the aliased block. */
  lemma NextAnswerIsIdealIff(blocks: nat, cs: seq<nat>, c: nat)
    requires blocks > 0 && Clean(blocks, cs)
    ensures After(blocks, cs).Check(c).1 == IdealAfter(blocks, cs).Check(c).1
            <==> !(After(blocks, cs).Aliased(c) && c in Accepted(blocks, cs))
  {
    CleanRunIsIdeal(blocks, cs);
  }

  /** The bound is tight at every size: counter 1 is accepted, accepted again after the
      newest block has moved `blocks` ahead, and the number one span later is then refused
      although it was never presented. */
  lemma {:induction false} AliasingRun(blocks: nat)
    requires blocks > 0
    ensures After(blocks, []).Check(1).1
    ensures After(blocks, [1]).Check(64 * blocks).1
    ensures After(blocks, [1, 64 * blocks]).Check(1).1
    ensures !After(blocks, [1, 64 * blocks, 1]).Check(64 * blocks + 1).1
  {
    var top := 64 * blocks;
    assert [1][..0] == [] && [1, top][..1] == [1] && [1, top, 1][..2] == [1, top];
    assert After(blocks, [1]) == Window(blocks, true, 1, {1});
    assert After(blocks, [1, top]) == Window(blocks, true, top, {1, top});
    assert top / BLOCK_BITS == blocks;
    assert After(blocks, [1, top]).Aliased(1);
    assert After(blocks, [1, top, 1]).marks == {1, top, top + 1};
  }

  /** The same run on the two sizes in use: Check(1), Check(2048), Check(1) of
      replay.Window, and markSeen at 8192. */
  lemma AliasingInUse()
    ensures After(REPLAY_BLOCKS, [1, 2048]).Check(1).1
    ensures After(SEEN_BLOCKS, [1, 8192]).Check(1).1
  {
    AliasingRun(REPLAY_BLOCKS);
    AliasingRun(SEEN_BLOCKS);
  }

  // ----- The bitmap -----

  /** A 64-bit block, as the set of its one bits. */
  type Word = set<nat>

  // ----- Slot arithmetic -----

  /** Within any `n` consecutive block numbers no two share a slot. */
  lemma SameSlot(b: int, top: int, n: int)
    requires n > 0 && top - n < b <= top
    ensures b % n == top % n ==> b == top
  {
    if b % n == top % n {
      var d := top / n - b / n;
      assert n * d == top - b;
      assert d >= 1 ==> n * d >= n;
      assert d <= -1 ==> n * d <= -n;
    }
  }

  lemma SlotsDiffer(a: int, b: int, top: int, n: int)
    requires n > 0 && top - n < a <= top && top - n < b <= top
    ensures a % n == b % n ==> a == b
  {
    if a <= b { SameSlot(a, b, n); } else { SameSlot(b, a, n); }
  }

  /** Every slot is the slot of some block among the newest `n`. */
  lemma Representative(b: int, top: int, n: int) returns (r: int)
    requires n > 0
    ensures top - n < r <= top && r % n == b % n
    ensures b > top ==> r <= b
  {
    var q := (top - b) / n;
    r := top - (top - b) % n;
    assert r == n * (b / n + q) + b % n;
    DivisionIsUnique(r, n, b / n + q, b % n);
  }

  /** The bits of block `b` among the marks; a negative block number is one the window has
      not reached yet. */
  ghost function BlockMarks(marks: set<nat>, b: int): Word {
    set m: nat | m in marks && m / BLOCK_BITS == b :: m % BLOCK_BITS
  }

  class Bitmap {
    const blocks: array<Word>
    var highest: nat
    var started: bool
    ghost var model: Window

    /** Slot `b % n` describes block `b`: its bits are exactly the marks of that block. */
    ghost predicate Describes(marks: set<nat>, b: int)
      requires blocks.Length > 0
      reads blocks
    {
      blocks[b % blocks.Length] == BlockMarks(marks, b)
    }

    ghost predicate Valid()
      reads this, blocks
    {
      && blocks.Length > 0
      && model.Valid()
      && model.blocks == blocks.Length
      && model.started == started
      && model.highest == highest
      && (forall b: int | highest / BLOCK_BITS - blocks.Length < b <= highest / BLOCK_BITS :: Describes(model.marks, b))
    }

    constructor (n: nat)
      requires n > 0
      ensures Valid() && fresh(blocks)
      ensures model == Fresh(n)
    {
      blocks := new Word[n](_ => {});
      highest, started := 0, false;
      model := Fresh(n);
      new;
      forall b: int ensures Describes(model.marks, b) { }
    }

    /** Reports whether `c` is acceptable and marks it. */
    method Check(c: nat) returns (ok: bool)
      requires Valid()
      modifies this, blocks
      ensures Valid()
      ensures (model, ok) == old(model).Check(c)
    {
      ghost var w := model;
      w.CheckValid(c);
      if !started {
        Anchor(c);
        return true;
      }
      if c > highest {
        Advance(c);
      } else if highest - c >= BLOCK_BITS * blocks.Length {
        return false;
      }
      ok := Take(c);
    }

    method Anchor(c: nat)
      requires Valid() && !started
      modifies this, blocks
      ensures Valid()
      ensures model == old(model).Check(c).0
    {
      var n := blocks.Length;
      model.CheckValid(c);
      AllClear(highest / BLOCK_BITS);
      blocks[c / BLOCK_BITS % n] := {c % BLOCK_BITS};
      highest, started := c, true;
      model := model.Check(c).0;
      forall b: int | c / BLOCK_BITS - n < b <= c / BLOCK_BITS ensures Describes(model.marks, b) {
        SameSlot(b, c / BLOCK_BITS, n);
      }
    }

    /** When none of the newest blocks carries a mark, every slot is clear. */
    lemma AllClear(top: int)
      requires blocks.Length > 0
      requires forall b: int | top - blocks.Length < b <= top ::
                 Describes(model.marks, b) && BlockMarks(model.marks, b) == {}
      ensures forall i | 0 <= i < blocks.Length :: blocks[i] == {}
    {
      forall i | 0 <= i < blocks.Length ensures blocks[i] == {} {
        var r := Representative(i, top, blocks.Length);
        assert Describes(model.marks, r);
      }
    }

    method Advance(c: nat)
      requires Valid() && started && c > highest
      modifies this, blocks
      ensures Valid() && started
      ensures model == old(model).(highest := c)
    {
      var n := blocks.Length;
      var cur, next := highest / BLOCK_BITS, c / BLOCK_BITS;
      var diff := if next - cur > n then n else next - cur;
      var i := 1;
      while i <= diff
        invariant 1 <= i <= diff + 1
        invariant forall b: int | cur + i - 1 - n < b <= cur + i - 1 :: Describes(model.marks, b)
        modifies blocks
      {
        ClearNext(cur + i, cur);
        i := i + 1;
      }
      if diff == n {
        AllClear(cur + n);
        forall b: int | next - n < b <= next ensures Describes(model.marks, b) {
          assert BlockMarks(model.marks, b) == {};
        }
      }
      highest := c;
      model := model.(highest := c);
    }

    /** Hands the slot of block `top - n` over to block `top`, which carries no mark yet. */
    method ClearNext(top: nat, ghost marked: nat)
      requires blocks.Length > 0 && marked < top
      requires forall m <- model.marks :: m / BLOCK_BITS <= marked
      requires forall b: int | top - 1 - blocks.Length < b <= top - 1 :: Describes(model.marks, b)
      modifies blocks
      ensures forall b: int | top - blocks.Length < b <= top :: Describes(model.marks, b)
    {
      var n := blocks.Length;
      blocks[top % n] := {};
      forall b: int | top - n < b <= top ensures Describes(model.marks, b) {
        SameSlot(b, top, n);
        assert b < top ==> old(Describes(model.marks, b));
        assert BlockMarks(model.marks, top) == {};
      }
    }

    method Take(c: nat) returns (ok: bool)
      requires Valid() && started && c <= highest && highest - c < BLOCK_BITS * blocks.Length
      modifies this, blocks
      ensures Valid()
      ensures ok <==> old(model).Mark(c) !in old(model).marks
      ensures model == old(model).(marks := old(model).marks + {old(model).Mark(c)})
    {
      var n := blocks.Length;
      ghost var m := model.Mark(c);
      ghost var home := m / BLOCK_BITS;
      model.MarkHome(c);
      var slot, bit := c / BLOCK_BITS % n, c % BLOCK_BITS;
      assert Describes(model.marks, home);
      ok := bit !in blocks[slot];
      assert ok <==> m !in model.marks by {
        assert forall x <- model.marks | x / BLOCK_BITS == home && x % BLOCK_BITS == bit :: x == m;
      }
      if ok {
        blocks[slot] := blocks[slot] + {bit};
      }
      model := model.(marks := model.marks + {m});
      forall b: int | highest / BLOCK_BITS - n < b <= highest / BLOCK_BITS ensures Describes(model.marks, b) {
        assert old(Describes(model.marks, b));
        SlotsDiffer(b, home, highest / BLOCK_BITS, n);
      }
    }
  }
}
