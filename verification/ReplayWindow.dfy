/** The anti-replay filter: a sliding bitmap of 64-bit words that stands for a plain set of sequence numbers. */
module ReplayWindow {

  const TWO32 := 0x1_0000_0000
  const DEFAULT_WINDOW := 4096

  type U32 = x: int | 0 <= x < TWO32

  // ---------------------------------------------------------------------
  // Words: a uint64 is its 64 bits, least significant first.

  type Word = w: seq<bool> | |w| == 64 witness seq(64, _ => false)

  const ZERO: Word := seq(64, _ => false)

  function Shr(w: Word, n: nat): Word {
    seq(64, j requires 0 <= j => j + n < 64 && w[j + n])
  }

  function Shl(w: Word, n: nat): Word {
    seq(64, j requires 0 <= j => n <= j < 64 && w[j - n])
  }

  function Or(v: Word, w: Word): Word {
    seq(64, j requires 0 <= j < 64 => v[j] || w[j])
  }

  /** 1 << n */
  function Mask(n: nat): Word {
    seq(64, j requires 0 <= j => j == n)
  }

  /** v & w != 0 */
  predicate Meet(v: Word, w: Word) {
    exists j :: 0 <= j < 64 && v[j] && w[j]
  }

  /** Bit b of the bitmap, counted from the low end of word 0; off outside the bitmap. */
  predicate On(words: seq<Word>, b: int) {
    0 <= b < 64 * |words| && words[b / 64][b % 64]
  }

  // ---------------------------------------------------------------------
  // The abstract filter: remembered numbers above a floor.

  datatype Filter = Filter(size: nat, base: nat, seen: set<nat>)

  function Max(a: int, b: int): int { if a < b then b else a }

  function From(seen: set<nat>, floor: int): set<nat> {
    set x | x in seen && x >= floor
  }

  /** One CheckAndMark on the abstract filter. */
  function Check(f: Filter, s: nat): (Filter, bool) {
    if s < f.base then (f, false)
    else
      var base := Max(f.base, s - f.size + 1);
      var seen := From(f.seen, base);
      if s in seen then (f.(base := base, seen := seen), false)
      else (f.(base := base, seen := seen + {s}), true)
  }

  function Fresh(size: nat): Filter { Filter(size, 0, {}) }

  /** The filter after a run, and the numbers it accepted. */
  function Run(size: nat, run: seq<nat>): (Filter, set<nat>) {
    if run == [] then (Fresh(size), {})
    else
      var (f, accepted) := Run(size, run[..|run| - 1]);
      var (g, ok) := Check(f, run[|run| - 1]);
      (g, if ok then accepted + {run[|run| - 1]} else accepted)
  }

  /** floor is max(0, highest accepted - size + 1), or 0 while nothing was accepted. */
  ghost predicate IsFloor(accepted: set<nat>, size: nat, floor: nat) {
    if accepted == {} then floor == 0
    else exists hi: nat :: Highest(accepted, hi) && floor == Max(0, hi - size + 1)
  }

  ghost predicate Highest(accepted: set<nat>, hi: nat) { hi in accepted && forall x :: x in accepted ==> x <= hi }

  /** What the window remembers is exactly the accepted numbers at or above its floor. */
  lemma {:induction false} RunInvariant(size: nat, run: seq<nat>)
    requires size > 0
    ensures var (f, accepted) := Run(size, run);
            && f.size == size
            && IsFloor(accepted, size, f.base)
            && f.seen == From(accepted, f.base)
  {
    if run != [] {
      var s := run[|run| - 1];
      RunInvariant(size, run[..|run| - 1]);
      var (f, accepted) := Run(size, run[..|run| - 1]);
      var (g, ok) := Check(f, s);
      if ok {
        if accepted == {} {
          assert Highest(accepted + {s}, s);
        } else {
          var hi: nat :| Highest(accepted, hi) && f.base == Max(0, hi - size + 1);
          var top := Max(hi, s);
          assert Highest(accepted + {s}, top);
        }
      } else if s >= f.base {
        assert s in accepted;
        assert g.base == f.base;
      }
    }
  }

  /** In every run a number is accepted iff it was never accepted before and is not below the floor. */
  lemma AcceptsIffNewAndInWindow(size: nat, run: seq<nat>, s: nat)
    requires size > 0
    ensures var (f, accepted) := Run(size, run);
            Check(f, s).1 <==> s !in accepted && (exists floor: nat :: IsFloor(accepted, size, floor) && s >= floor)
  {
    RunInvariant(size, run);
    var (f, accepted) := Run(size, run);
    assert IsFloor(accepted, size, f.base);
    forall floor: nat | IsFloor(accepted, size, floor) ensures floor == f.base {
      FloorUnique(accepted, size, floor, f.base);
    }
    if s in accepted {
      var hi: nat :| Highest(accepted, hi) && f.base == Max(0, hi - size + 1);
      assert s >= f.base ==> s in f.seen && Max(f.base, s - size + 1) == f.base;
    }
  }

  lemma FloorUnique(accepted: set<nat>, size: nat, a: nat, b: nat)
    requires IsFloor(accepted, size, a) && IsFloor(accepted, size, b)
    ensures a == b
  {
    if accepted != {} {
      var h: nat :| Highest(accepted, h) && a == Max(0, h - size + 1);
      var i: nat :| Highest(accepted, i) && b == Max(0, i - size + 1);
      OneHighest(accepted, h, i);
    }
  }

  lemma OneHighest(accepted: set<nat>, h: nat, i: nat)
    requires Highest(accepted, h) && Highest(accepted, i)
    ensures h == i
  {}

  // ---------------------------------------------------------------------
  // The bitmap.

  ghost predicate ClearFrom(words: seq<Word>, window: nat) {
    forall b :: window <= b ==> !On(words, b)
  }

  /** Bit b now is bit b + n before: the n lowest bits are dropped and zeros come in at the top. */
  ghost predicate Shifted(was: seq<Word>, words: seq<Word>, n: nat) {
    forall b: nat, c: nat :: c == b + n ==> (On(words, b) <==> On(was, c))
  }

  /** The numbers a bitmap whose bit 0 is `base` stands for. */
  ghost function Marks(words: seq<Word>, base: nat, window: nat): set<nat> {
    set s: nat | base <= s < base + window && Marked(words, base, s)
  }

  ghost predicate Marked(words: seq<Word>, base: nat, s: nat) {
    On(words, s - base)
  }

  class Window {
    const window: nat
    var base: nat
    const bits: array<Word>

    /** Bits past the window are never set, so a slide brings in only zeros. */
    ghost predicate Valid()
      reads this, bits
    {
      && 0 < window < TWO32
      && bits.Length == (window + 63) / 64
      && base + window <= TWO32
      && ClearFrom(bits[..], window)
    }

    ghost function Abs(): Filter
      reads this, bits
      requires Valid()
    {
      Filter(window, base, Marks(bits[..], base, window))
    }

    constructor (size: U32)
      ensures Valid() && fresh(bits)
      ensures Abs() == Fresh(if size == 0 then DEFAULT_WINDOW else size)
    {
      window := if size == 0 then DEFAULT_WINDOW else size;
      base := 0;
      bits := new Word[((if size == 0 then DEFAULT_WINDOW else size) + 63) / 64](_ => ZERO);
      new;
      assert forall b :: !On(bits[..], b);
    }

    method CheckAndMark(s: U32) returns (ok: bool)
      requires Valid()
      modifies this, bits
      ensures Valid()
      ensures (Abs(), ok) == Check(old(Abs()), s)
    {
      var diff := s - base;
      if diff < 0 {
        return false;
      }
      if diff >= window {
        Slide(s);
        diff := window - 1;
      }
      assert Abs() == old(Filter(window, Max(base, s - window + 1), From(Abs().seen, Max(base, s - window + 1))));
      assert Marked(bits[..], base, s) <==> On(bits[..], diff);
      var mask := Mask(diff % 64);
      if Meet(bits[diff / 64], mask) {
        return false;
      }
      assert !On(bits[..], diff) by { assert mask[diff % 64]; }
      Mark(diff);
      return true;
    }

    /** Moves the window up so that s is its last number. */
    method Slide(s: U32)
      requires Valid() && s >= base + window
      modifies this, bits
      ensures Valid() && base == s - window + 1
      ensures Abs().seen == From(old(Abs()).seen, base)
    {
      ghost var was, from := bits[..], base;
      var n := s - base - window + 1;
      ShiftRight(n);
      ghost var now := bits[..];
      SlideMarks(was, now, from, n, window);
      base := s - window + 1;
      assert bits[..] == now && base == from + n;
    }

    /** bits[b/64] |= 1 << (b%64) */
    method Mark(b: nat)
      requires Valid() && b < window
      modifies bits
      ensures Valid()
      ensures Abs().seen == old(Abs()).seen + {base + b}
    {
      ghost var was := bits[..];
      bits[b / 64] := Or(bits[b / 64], Mask(b % 64));
      assert forall c :: On(bits[..], c) <==> On(was, c) || c == b;
      assert forall x: nat :: x >= base ==> (Marked(bits[..], base, x) <==> Marked(was, base, x) || x == base + b);
    }

    method ShiftRight(n: nat)
      modifies bits
      ensures Shifted(old(bits[..]), bits[..], n)
    {
      hide On;
      hide IsMoved;
      hide Shifted;
      hide Shr;
      hide Shl;
      hide Or;
      var words := bits.Length;
      var wordShift, bitShift := n / 64, n % 64;
      ghost var was := bits[..];
      if wordShift >= words {
        forall i | 0 <= i < words { bits[i] := ZERO; }
        AllGone(was, bits[..], n);
        return;
      }
      for i := 0 to words
        invariant forall j :: i <= j < words ==> bits[j] == was[j]
        invariant forall j :: 0 <= j < i ==> IsMoved(was, bits[j], 64 * j + n)
      {
        var v := ZERO;
        var src := i + wordShift;
        if src < words {
          v := Shr(bits[src], bitShift);
          if bitShift != 0 && src + 1 < words {
            v := Or(v, Shl(bits[src + 1], 64 - bitShift));
          }
        }
        MovedWord(was, i, n, v);
        bits[i] := v;
      }
      assert bits[..] == bits[..words];
      AllMoved(was, bits[..], n);
    }
  }

  /** The word `v` holds the 64 bits of `was` from position `from` on. */
  ghost predicate IsMoved(was: seq<Word>, v: Word, from: nat) {
    forall q :: 0 <= q < 64 ==> (v[q] <==> On(was, from + q))
  }

  lemma SlideMarks(was: seq<Word>, words: seq<Word>, from: nat, n: nat, window: nat)
    requires Shifted(was, words, n) && ClearFrom(was, window)
    ensures ClearFrom(words, window)
    ensures Marks(words, from + n, window) == From(Marks(was, from, window), from + n)
  {
    forall b | window <= b ensures !On(words, b) {
      assert !On(was, b + n);
    }
    forall x: nat | x >= from + n
      ensures x in Marks(words, from + n, window) <==> x in Marks(was, from, window)
    {
      var b: nat := x - (from + n);
      assert On(words, b) <==> On(was, b + n);
      assert Marked(words, from + n, x) <==> Marked(was, from, x);
    }
  }

  lemma AllGone(was: seq<Word>, words: seq<Word>, n: nat)
    requires |words| == |was| <= n / 64 && forall i :: 0 <= i < |words| ==> words[i] == ZERO
    ensures Shifted(was, words, n)
  {
    assert forall b: nat :: !On(words, b);
  }

  lemma AllMoved(was: seq<Word>, words: seq<Word>, n: nat)
    requires |words| == |was|
    requires forall j :: 0 <= j < |words| ==> IsMoved(was, words[j], 64 * j + n)
    ensures Shifted(was, words, n)
  {
    forall b: nat, c: nat | c == b + n ensures On(words, b) <==> On(was, c) {
      if b < 64 * |words| {
        assert IsMoved(was, words[b / 64], 64 * (b / 64) + n);
        assert 64 * (b / 64) + n + b % 64 == b + n;
      }
    }
  }

  /** The shifted low part of one word joined with the high part of the next is the moved word. */
  lemma MovedWord(was: seq<Word>, i: nat, n: nat, v: Word)
    requires var src := i + n / 64;
             v == if src >= |was| then ZERO
                  else if n % 64 != 0 && src + 1 < |was|
                  then Or(Shr(was[src], n % 64), Shl(was[src + 1], 64 - n % 64))
                  else Shr(was[src], n % 64)
    ensures IsMoved(was, v, 64 * i + n)
  {
    forall q | 0 <= q < 64 ensures v[q] <==> On(was, 64 * i + n + q) {
      var o := n % 64 + q;
      assert 64 * i + n + q == 64 * (i + n / 64) + o;
      SplitIndex(i + n / 64, o);
    }
  }

  lemma SplitIndex(word: nat, offset: nat)
    requires offset < 128
    ensures (64 * word + offset) / 64 == if offset < 64 then word else word + 1
    ensures (64 * word + offset) % 64 == if offset < 64 then offset else offset - 64
  {}
}
