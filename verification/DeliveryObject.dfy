/** The delivery buffer as it runs, on 32-bit numbers that wrap around. */
module DeliveryObject {
  import opened Bytes
  import opened Frames
  import opened Delivery

  const M := 0x1_0000_0000
  const HALF := 0x8000_0000

  /** The number a frame carries on the wire. */
  function Wire(t: int): U32 { t % M }

  /** int32(a - b) < 0, the comparison of section 3.2 of RFC 1982. */
  predicate Before(a: U32, b: U32) { (a - b) % M >= HALF }

  /** The true number of s, read at or after the origin. */
  function Unwrap(origin: nat, s: U32): nat { origin + (s - origin) % M }

  /** The true number of s closest to the origin. */
  function Nearest(origin: nat, s: U32): int {
    var d := (s - origin) % M;
    if d < HALF then origin + d else origin + d - M
  }

  lemma NearestReads(origin: nat, s: U32)
    ensures Wire(Nearest(origin, s)) == s && -HALF <= Nearest(origin, s) - origin < HALF
  {
    WireUnwrap(origin, s);
    OneRound(Unwrap(origin, s));
  }

  lemma OneRound(t: int)
    ensures Wire(t - M) == Wire(t)
  {}

  /** Within 2^31 of the origin, what a number is read as is what it was. */
  lemma NearestIs(origin: nat, t: int)
    requires -HALF <= t - origin < HALF
    ensures Nearest(origin, Wire(t)) == t
  {
    NearestReads(origin, Wire(t));
    var u := Nearest(origin, Wire(t));
    assert t - u == (t / M - u / M) * M;
  }

  /** A number up to 2^32 - 1 is read as itself exactly when it lies within 2^31 of the origin. */
  lemma ReadTrulyIff(origin: nat, s: U32)
    ensures Nearest(origin, s) == s <==> -HALF <= s - origin < HALF
  {
    NearestReads(origin, s);
    if -HALF <= s - origin < HALF { NearestIs(origin, s); }
  }

  /** The 32-bit comparison agrees with the true order of numbers less than 2^31 apart, across wrap-around. */
  lemma SerialAgrees(t: int, u: int)
    requires -HALF <= t - u < HALF
    ensures Before(Wire(t), Wire(u)) <==> t < u
    ensures Wire(t) == Wire(u) <==> t == u
  {
    ModApart(t, u);
  }

  lemma ModApart(t: int, u: int)
    requires -HALF <= t - u < HALF
    ensures (t % M - u % M) % M == (if t < u then t - u + M else t - u)
  {
    var q, r := t / M, u / M;
    assert t == q * M + t % M && u == r * M + u % M;
    var d := t % M - u % M;
    assert d == t - u - (q - r) * M;
  }

  lemma UnwrapWire(origin: nat, t: nat)
    requires origin <= t < origin + HALF
    ensures Unwrap(origin, Wire(t)) == t
  {
    var x := (Wire(t) - origin) % M;
    assert t == t / M * M + t % M;
    assert (t - origin) - (Wire(t) - origin) == t / M * M;
    SameMod(t - origin, Wire(t) - origin, t / M);
  }

  lemma SameMod(a: int, b: int, q: int)
    requires a - b == q * M && 0 <= a < M
    ensures b % M == a
  {}

  lemma WireUnwrap(origin: nat, s: U32)
    ensures Wire(Unwrap(origin, s)) == s
  {
    var x := (s - origin) % M;
    assert s - origin == (s - origin) / M * M + x;
    assert origin + x == s - (s - origin) / M * M;
    SameMod(s, origin + x, (s - origin) / M);
  }

  // ---------------------------------------------------------------------
  // The table of waiting frames under wire numbers and under true numbers.

  ghost predicate Carries(pending: map<U32, Frame>, truth: map<nat, Frame>, t: nat) {
    t in truth ==> Wire(t) in pending && pending[Wire(t)] == truth[t]
  }

  ghost predicate Reads(origin: nat, pending: map<U32, Frame>, truth: map<nat, Frame>, s: U32) {
    s in pending ==> Unwrap(origin, s) in truth
  }

  ghost predicate CarriesAll(pending: map<U32, Frame>, truth: map<nat, Frame>) {
    forall t: nat :: Carries(pending, truth, t)
  }

  ghost predicate Near(origin: nat, truth: map<nat, Frame>) { forall t :: t in truth ==> origin <= t < origin + HALF }

  ghost predicate Known(origin: nat, pending: map<U32, Frame>, truth: map<nat, Frame>) {
    forall s: U32 :: Reads(origin, pending, truth, s)
  }

  /** Both tables hold the same frames, all within 2^31 of the origin. */
  ghost predicate Linked(origin: nat, pending: map<U32, Frame>, truth: map<nat, Frame>) {
    CarriesAll(pending, truth) && Near(origin, truth) && Known(origin, pending, truth) && |pending| == |truth|
  }

  lemma LinkedAt(origin: nat, pending: map<U32, Frame>, truth: map<nat, Frame>, t: nat)
    requires Linked(origin, pending, truth) && origin <= t < origin + HALF
    ensures t in truth <==> Wire(t) in pending
    ensures t in truth ==> truth[t] == pending[Wire(t)]
  {
    UnwrapWire(origin, t);
    assert Carries(pending, truth, t) && Reads(origin, pending, truth, Wire(t));
  }

  lemma LinkedPut(origin: nat, pending: map<U32, Frame>, truth: map<nat, Frame>, t: nat, f: Frame)
    requires Linked(origin, pending, truth) && origin <= t < origin + HALF && t !in truth
    ensures Linked(origin, pending[Wire(t) := f], truth[t := f])
  {
    LinkedAt(origin, pending, truth, t);
    CarriesPut(origin, pending, truth, t, f);
    KnownPut(origin, pending, truth, t, f);
    SizePut(pending, Wire(t), f);
    SizePut(truth, t, f);
  }

  lemma CarriesPut(origin: nat, pending: map<U32, Frame>, truth: map<nat, Frame>, t: nat, f: Frame)
    requires CarriesAll(pending, truth) && Near(origin, truth) && origin <= t < origin + HALF
    ensures CarriesAll(pending[Wire(t) := f], truth[t := f])
  {
    var p, q := pending[Wire(t) := f], truth[t := f];
    forall u: nat ensures Carries(p, q, u) {
      assert Carries(pending, truth, u);
      if u != t && u in truth { SerialAgrees(t, u); }
    }
  }

  lemma KnownPut(origin: nat, pending: map<U32, Frame>, truth: map<nat, Frame>, t: nat, f: Frame)
    requires Known(origin, pending, truth) && origin <= t < origin + HALF
    ensures Known(origin, pending[Wire(t) := f], truth[t := f])
  {
    UnwrapWire(origin, t);
    var p, q := pending[Wire(t) := f], truth[t := f];
    forall s: U32 ensures Reads(origin, p, q, s) {
      assert Reads(origin, pending, truth, s);
    }
  }

  lemma SizePut<K>(m: map<K, Frame>, k: K, f: Frame)
    requires k !in m
    ensures |m[k := f]| == |m| + 1
  {
    assert m[k := f].Keys == m.Keys + {k};
  }

  lemma SizeDrop<K>(m: map<K, Frame>, k: K)
    requires k in m
    ensures |m - {k}| == |m| - 1
  {
    assert (m - {k}).Keys == m.Keys - {k};
  }

  lemma LinkedDrop(origin: nat, pending: map<U32, Frame>, truth: map<nat, Frame>, t: nat)
    requires Linked(origin, pending, truth) && t in truth
    ensures Linked(origin, pending - {Wire(t)}, truth - {t})
  {
    assert Carries(pending, truth, t);
    CarriesDrop(origin, pending, truth, t);
    KnownDrop(origin, pending, truth, t);
    SizeDrop(pending, Wire(t));
    SizeDrop(truth, t);
  }

  lemma CarriesDrop(origin: nat, pending: map<U32, Frame>, truth: map<nat, Frame>, t: nat)
    requires CarriesAll(pending, truth) && Near(origin, truth) && t in truth
    ensures CarriesAll(pending - {Wire(t)}, truth - {t})
  {
    var p, q := pending - {Wire(t)}, truth - {t};
    forall u: nat ensures Carries(p, q, u) {
      assert Carries(pending, truth, u);
      if u != t && u in truth { SerialAgrees(t, u); }
    }
  }

  lemma KnownDrop(origin: nat, pending: map<U32, Frame>, truth: map<nat, Frame>, t: nat)
    requires Known(origin, pending, truth)
    ensures Known(origin, pending - {Wire(t)}, truth - {t})
  {
    var p, q := pending - {Wire(t)}, truth - {t};
    forall s: U32 ensures Reads(origin, p, q, s) {
      assert Reads(origin, pending, truth, s);
      WireUnwrap(origin, s);
    }
  }

  /** The origin moves on past nothing that waits. */
  lemma LinkedMove(origin: nat, pending: map<U32, Frame>, truth: map<nat, Frame>, to: nat)
    requires Linked(origin, pending, truth) && origin <= to && forall t :: t in truth ==> to <= t
    ensures Linked(to, pending, truth)
  {
    forall s: U32 ensures Reads(to, pending, truth, s) {
      assert Reads(origin, pending, truth, s);
      if s in pending {
        WireUnwrap(origin, s);
        UnwrapWire(to, Unwrap(origin, s));
      }
    }
  }

  /** The true numbers of the wire numbers. */
  ghost function TrueOf(origin: nat, keys: set<U32>): set<nat> { set s | s in keys :: Unwrap(origin, s) }

  lemma TrueOfLinked(origin: nat, pending: map<U32, Frame>, truth: map<nat, Frame>)
    requires Linked(origin, pending, truth)
    ensures TrueOf(origin, pending.Keys) == truth.Keys
  {
    forall t | t in truth ensures t in TrueOf(origin, pending.Keys) {
      assert Carries(pending, truth, t);
      UnwrapWire(origin, t);
      assert Wire(t) in pending.Keys;
    }
    forall s | s in pending ensures Unwrap(origin, s) in truth {
      assert Reads(origin, pending, truth, s);
    }
  }

  /** All numbers read less than 2^31 after the origin. */
  ghost predicate Close(origin: nat, keys: set<U32>) { forall s :: s in keys ==> Unwrap(origin, s) < origin + HALF }

  lemma LinkedClose(origin: nat, pending: map<U32, Frame>, truth: map<nat, Frame>)
    requires Linked(origin, pending, truth)
    ensures Close(origin, pending.Keys)
  {
    forall s | s in pending ensures Unwrap(origin, s) < origin + HALF {
      assert Reads(origin, pending, truth, s);
    }
  }

  lemma BeforeClose(origin: nat, a: U32, b: U32)
    requires Unwrap(origin, a) < origin + HALF && Unwrap(origin, b) < origin + HALF
    ensures Before(a, b) <==> Unwrap(origin, a) < Unwrap(origin, b)
  {
    WireUnwrap(origin, a);
    WireUnwrap(origin, b);
    SerialAgrees(Unwrap(origin, a), Unwrap(origin, b));
  }

  /** The eviction scan: the lowest of the waiting numbers and the arriving one. */
  method LowestFrom(seed: U32, keys: set<U32>, ghost origin: nat) returns (lo: U32)
    requires Close(origin, keys + {seed})
    ensures Least(Unwrap(origin, lo), TrueOf(origin, keys) + {Unwrap(origin, seed)})
  {
    lo := seed;
    var todo := keys;
    while todo != {}
      invariant todo <= keys && lo in keys + {seed} && (lo == seed || lo !in todo)
      invariant forall s :: s in keys + {seed} && s !in todo - {seed} ==> Unwrap(origin, lo) <= Unwrap(origin, s)
      decreases |todo|
    {
      var s :| s in todo;
      BeforeClose(origin, s, lo);
      if Before(s, lo) { lo := s; }
      todo := todo - {s};
    }
  }

  /** s is the number that reads lowest of all. */
  ghost predicate LeastSeen(origin: nat, keys: set<U32>, s: U32) {
    s in keys && Least(Unwrap(origin, s), TrueOf(origin, keys))
  }

  /** The tick's scan, in which 0 doubles as "none yet". */
  method LowestWaiting(keys: set<U32>, ghost origin: nat) returns (lo: U32)
    requires Close(origin, keys)
    ensures keys == {} ==> lo == 0
    ensures lo != 0 ==> lo in keys
    ensures forall s :: LeastSeen(origin, keys, s) && s != 0 ==> lo == s
  {
    lo := 0;
    var todo := keys;
    while todo != {}
      invariant todo <= keys && (lo != 0 ==> lo in keys)
      invariant forall s :: LeastSeen(origin, keys, s) && s !in todo && s != 0 ==> lo == s
      decreases |todo|
    {
      var s :| s in todo;
      if lo != 0 { BeforeClose(origin, s, lo); }
      ghost var was := lo;
      if lo == 0 || Before(s, lo) { lo := s; }
      LeastStays(keys, origin, was, s, lo);
      todo := todo - {s};
    }
  }

  lemma LeastStays(keys: set<U32>, origin: nat, was: U32, s: U32, lo: U32)
    requires s in keys && Close(origin, keys) && (was != 0 ==> was in keys)
    requires lo == if was == 0 || Before(s, was) then s else was
    ensures forall m :: LeastSeen(origin, keys, m) && m != 0 && (was == m || s == m) ==> lo == m
  {
    forall m | LeastSeen(origin, keys, m) && m != 0 && (was == m || s == m)
      ensures lo == m
    {
      assert Unwrap(origin, s) in TrueOf(origin, keys);
      if was != 0 {
        BeforeClose(origin, s, was);
        assert Unwrap(origin, was) in TrueOf(origin, keys);
        WireUnwrap(origin, s);
        WireUnwrap(origin, was);
      }
    }
  }

  // ---------------------------------------------------------------------
  // The object.

  function FramesOf(items: seq<Item>): (out: seq<Frame>)
    ensures |out| == |items|
  {
    seq(|items|, i requires 0 <= i < |items| => items[i].f)
  }

  /** out lists the frames of the items. */
  ghost function Carry(items: seq<Item>): seq<Frame> -> bool { out => out == FramesOf(items) }

  lemma CarryMore(items: seq<Item>, out: seq<Frame>, x: Item)
    requires Carry(items)(out)
    ensures Carry(items + [x])(out + [x.f])
  {}

  lemma CarryJoin(a: seq<Item>, s: seq<Frame>, b: seq<Item>, t: seq<Frame>)
    requires Carry(a)(s) && Carry(b)(t)
    ensures Carry(a + b)(s + t)
  {}

  /** The scan of a stale tick would have to answer 0, which it takes for "nothing waits". */
  ghost predicate Stuck(b: Buffer, now: int, timeout: int) {
    Stale(b, now, timeout) && b.pending != map[] && Wire(Lowest(b.pending.Keys)) == 0
  }

  lemma {:induction false} DrainKeepsLower(b: Buffer, t: nat)
    requires t in b.pending && t < b.next
    ensures t in Drain(b).buffer.pending && Drain(b).buffer.next >= b.next
    decreases |b.pending|
  {
    if b.next in b.pending {
      DropShrinks(b.pending, b.next);
      DrainKeepsLower(b.(pending := b.pending - {b.next}, next := b.next + 1), t);
    }
  }

  class DeliveryBuffer {
    var next: U32
    var pending: map<U32, Frame>
    var gapSince: Option<int>
    var gapTimeout: int
    var maxPending: nat
    var drops: nat
    ghost var origin: nat
    ghost var truth: map<nat, Frame>

    ghost function Abs(): Buffer
      reads this
    {
      Buffer(origin, truth, gapSince, drops)
    }

    ghost predicate Valid()
      reads this
    {
      next == Wire(origin) && Tie()(origin, pending, truth) && Fine()(Abs()) && maxPending > 0
    }

    constructor (gapTimeout: int, maxPending: int)
      ensures Valid() && Abs() == FRESH
      ensures this.gapTimeout == (if gapTimeout > 0 then gapTimeout else 100_000_000)
      ensures this.maxPending == (if maxPending > 0 then maxPending else 4096)
    {
      next, pending, gapSince, drops := 1, map[], None, 0;
      this.gapTimeout := if gapTimeout <= 0 then 100_000_000 else gapTimeout;
      this.maxPending := if maxPending <= 0 then 4096 else maxPending;
      origin, truth := 1, map[];
    }

    method Reload(gapTimeout: int, maxPending: int)
      requires Valid()
      modifies `gapTimeout, `maxPending
      ensures Valid() && Abs() == old(Abs())
      ensures this.gapTimeout == if gapTimeout > 0 then gapTimeout else old(this.gapTimeout)
      ensures this.maxPending == if maxPending > 0 then maxPending else old(this.maxPending)
    {
      if gapTimeout > 0 { this.gapTimeout := gapTimeout; }
      if maxPending > 0 { this.maxPending := maxPending; }
    }

    method DrainContiguous(ghost base: nat) returns (out: seq<Frame>, ghost items: seq<Item>)
      requires next == Wire(origin) && Tie()(base, pending, truth) && base <= origin <= base + HALF
      modifies `next, `pending, `gapSince, `origin, `truth
      ensures next == Wire(origin) && Tie()(base, pending, truth) && base <= origin <= base + HALF
      ensures Drain(old(Abs())) == Release(Abs(), items) && Carry(items)(out)
    {
      out, items := [], [];
      ghost var b, c := Abs(), Abs();
      DrainsFirst(b);
      while next in pending
        invariant next == Wire(origin) && Tie()(base, pending, truth) && base <= origin <= base + HALF
        invariant c == Abs() && Draining(b)(c, items) && Carry(items)(out)
        decreases |pending|
      {
        ghost var x;
        var f;
        f, x := TakeNext(base);
        DrainsMore(b, c, items);
        CarryMore(items, out, x);
        out, items, c := out + [f], items + [x], Popped(c);
      }
      DrainStop(base, next, pending, truth, origin);
      DrainsDone(b, c, items);
      if |pending| == 0 { gapSince := None; }
    }

    method TakeNext(ghost base: nat) returns (f: Frame, ghost x: Item)
      requires next == Wire(origin) && Tie()(base, pending, truth) && base <= origin <= base + HALF && next in pending
      modifies `next, `pending, `origin, `truth
      ensures next == Wire(origin) && Tie()(base, pending, truth) && base <= origin <= base + HALF
      ensures |pending| < |old(pending)|
      ensures old(Abs()).next in old(Abs()).pending && f == x.f
      ensures x == First(old(Abs())) && Abs() == Popped(old(Abs()))
    {
      DrainStep(base, next, pending, truth, origin);
      f, x := pending[next], Item(origin, truth[origin]);
      pending, truth := pending - {next}, truth - {origin};
      next, origin := (next + 1) % M, origin + 1;
    }

    /** Draining when next has come up to, but not past, what waits. */
    method DrainOn(ghost base: nat) returns (out: seq<Frame>, ghost items: seq<Item>)
      requires next == Wire(origin) && Tie()(base, pending, truth) && base <= origin <= base + HALF && maxPending > 0
      requires Ahead(Abs())
      modifies `next, `pending, `gapSince, `origin, `truth
      ensures Valid() && Drain(old(Abs())) == Release(Abs(), items) && Carry(items)(out)
    {
      AheadDrains(Abs());
      out, items := DrainContiguous(base);
      TieMove(base, pending, truth, origin, Abs());
    }

    /** One frame of a Push, read as closest to next. */
    method Arrive(f: Frame, now: int) returns (out: seq<Frame>, ghost items: seq<Item>)
      requires Valid()
      modifies `next, `pending, `gapSince, `drops, `origin, `truth
      ensures Valid() && Carry(items)(out)
      ensures Release(Abs(), items) == Delivery.Arrive(old(Abs()), ReadAt(old(Abs()), f), now, maxPending)
    {
      hide Before;
      hide Wire;
      hide Nearest;
      hide Delivery.Arrive;
      ghost var t, b := Nearest(origin, f.seqNo), Abs();
      NearestReads(origin, f.seqNo);
      SerialAgrees(t, origin);
      if Before(f.seqNo, next) {
        ArrivesLate(b, Item(t, f), now, maxPending);
        return [], [];
      }
      if f.seqNo == next {
        out, items := Advance();
        ArrivesNext(b, f, now, maxPending);
        CarryJoin([Item(t, f)], [f], items, out);
        out, items := [f] + out, [Item(t, f)] + items;
      } else {
        PutAside(f, t, now);
        out, items := [], [];
      }
    }

    /** The frame that next waits for: next moves on and the run behind it is released. */
    method Advance() returns (out: seq<Frame>, ghost items: seq<Item>)
      requires Valid()
      modifies `next, `pending, `gapSince, `origin, `truth
      ensures Valid() && Carry(items)(out)
      ensures var b := old(Abs()); Drain(b.(next := b.next + 1)) == Release(Abs(), items)
    {
      hide Wire;
      hide Drain;
      hide Tie;
      hide Fine;
      hide Ahead;
      hide Carry;
      ghost var base := origin + 1;
      TieNext(origin, pending, truth, Abs());
      NextWire(origin);
      next, origin := (next + 1) % M, origin + 1;
      out, items := DrainOn(base);
    }

    /** Takes in any frames at all, each read as closest to next when its turn comes. */
    method Push(frames: seq<Frame>, now: int) returns (out: seq<Frame>, ghost steps: seq<Release>)
      requires Valid()
      modifies `next, `pending, `gapSince, `drops, `origin, `truth
      ensures Valid() && Pushes(old(Abs()), frames, now, maxPending, steps) && |steps| == |frames|
      ensures Abs() == After(old(Abs()), steps) && Carry(Outs(steps))(out)
    {
      out, steps := [], [];
      ghost var b, c := Abs(), Abs();
      for i := 0 to |frames|
        invariant Valid() && |steps| == i && Carry(Outs(steps))(out)
        invariant Pushes(b, frames, now, maxPending, steps) && c == Abs() == After(b, steps)
      {
        ghost var added;
        var more;
        more, added := Arrive(frames[i], now);
        PushesMore(b, frames, now, maxPending, steps, Release(Abs(), added), out, more);
        c, out, steps := Abs(), out + more, steps + [Release(Abs(), added)];
      }
    }

    /** Skips a stale gap: the lowest waiting frame, and the run it starts, are released. */
    method Tick(now: int) returns (out: seq<Frame>, ghost items: seq<Item>)
      requires Valid()
      modifies `next, `pending, `gapSince, `origin, `truth
      ensures Carry(items)(out)
      ensures !Stuck(old(Abs()), now, gapTimeout) ==>
                Valid() && Release(Abs(), items) == Delivery.Tick(old(Abs()), now, gapTimeout)
      ensures Sane(Abs()) <==> !Stuck(old(Abs()), now, gapTimeout)
    {
      hide Wire;
      hide Unwrap;
      hide LeastSeen;
      hide Close;
      hide TrueOf;
      if gapSince.None? || now - gapSince.value < gapTimeout { return [], []; }
      ghost var b := Abs();
      TieScan(origin, pending, truth, b);
      var lo := LowestWaiting(pending.Keys, origin);
      if lo == 0 {
        NextWire(origin);
        next, origin := (next + 1) % M, origin + 1;
        gapSince := None;
        return [], [];
      }
      out, items := SkipHole(lo);
    }

    /** The scan answered lo: release it and the run it starts. */
    method SkipHole(lo: U32) returns (out: seq<Frame>, ghost items: seq<Item>)
      requires Valid() && truth != map[] && lo in pending && lo != 0
      requires var t := Lowest(truth.Keys); Wire(t) != 0 ==> lo == Wire(t)
      modifies `next, `pending, `gapSince, `origin, `truth
      ensures Carry(items)(out)
      ensures Wire(Lowest(old(truth).Keys)) != 0 ==>
                Valid() && Release(Abs(), items) == Drain(old(Abs()).(next := Lowest(old(truth).Keys)))
      ensures Wire(Lowest(old(truth).Keys)) == 0 ==> !Sane(Abs())
    {
      ghost var base, low := origin, Lowest(truth.Keys);
      SkipTo(origin, pending, truth, Abs(), lo);
      next, origin := lo, Unwrap(origin, lo);
      ghost var c := Abs();
      out, items := DrainContiguous(base);
      if Wire(low) != 0 {
        AheadDrains(c);
        TieMove(base, pending, truth, origin, Abs());
      } else {
        DrainKeepsLower(c, low);
      }
    }

    method PutAside(f: Frame, ghost t: nat, now: int)
      requires Valid() && f.seqNo == Wire(t) && origin < t < origin + HALF
      modifies `pending, `gapSince, `drops, `truth
      ensures Valid()
      ensures Release(Abs(), []) == Delivery.Arrive(old(Abs()), Item(t, f), now, maxPending)
    {
      ghost var b := Abs();
      ArriveKeepsOrder(b, [], Item(t, f), now, maxPending);
      TieAt(origin, pending, truth, t);
      if f.seqNo !in pending {
        MakeRoom(f.seqNo, t);
        TiePut(origin, pending, truth, t, f);
        pending, truth := pending[f.seqNo := f], truth[t := f];
      }
      if gapSince.None? { gapSince := Some(now); }
    }

    /** The bound: a full buffer drops the lowest number it can see. */
    method MakeRoom(seqNo: U32, ghost t: nat)
      requires Tie()(origin, pending, truth) && seqNo == Wire(t) && origin < t < origin + HALF && t !in truth
      modifies `pending, `drops, `truth
      ensures Tie()(origin, pending, truth) && t !in truth && Abs() == Bounded(old(Abs()), t, maxPending)
    {
      hide Unwrap;
      hide Wire;
      hide Close;
      hide TrueOf;
      TieAt(origin, pending, truth, t);
      if |pending| >= maxPending {
        TieLowest(origin, pending, truth, seqNo, t);
        var lo := LowestFrom(seqNo, pending.Keys, origin);
        TieEvict(origin, pending, truth, lo, t);
        pending, truth := pending - {lo}, truth - {Unwrap(origin, lo)};
        drops := drops + 1;
      }
    }
  }

  lemma ArrivesLate(b: Buffer, x: Item, now: int, max: nat)
    requires x.t < b.next
    ensures Delivery.Arrive(b, x, now, max) == Release(b, [])
  {}

  lemma ArrivesNext(b: Buffer, f: Frame, now: int, max: nat)
    ensures var r := Drain(b.(next := b.next + 1));
            Delivery.Arrive(b, Item(b.next, f), now, max) == Release(r.buffer, [Item(b.next, f)] + r.out)
  {}

  /** The frame under the number it is read as: the one closest to next. */
  ghost function ReadAt(b: Buffer, f: Frame): Item { Item(Nearest(b.next, f.seqNo), f) }

  /** The buffer after the steps. */
  ghost function After(b: Buffer, steps: seq<Release>): Buffer {
    if steps == [] then b else steps[|steps| - 1].buffer
  }

  ghost function Outs(steps: seq<Release>): seq<Item> {
    if steps == [] then [] else Outs(steps[..|steps| - 1]) + steps[|steps| - 1].out
  }

  ghost predicate PushStep(b: Buffer, frames: seq<Frame>, now: int, max: nat, steps: seq<Release>, i: nat) {
    i < |steps| && i < |frames| ==>
      var c := After(b, steps[..i]); steps[i] == Delivery.Arrive(c, ReadAt(c, frames[i]), now, max)
  }

  /** The steps are the arrivals of the first |steps| frames, in order. */
  ghost predicate Pushes(b: Buffer, frames: seq<Frame>, now: int, max: nat, steps: seq<Release>) {
    |steps| <= |frames| && forall i: nat :: PushStep(b, frames, now, max, steps, i)
  }

  lemma PushesMore(b: Buffer, frames: seq<Frame>, now: int, max: nat, steps: seq<Release>, r: Release, out: seq<Frame>,
                   more: seq<Frame>)
    requires Pushes(b, frames, now, max, steps) && |steps| < |frames|
    requires var c := After(b, steps); r == Delivery.Arrive(c, ReadAt(c, frames[|steps|]), now, max)
    requires Carry(Outs(steps))(out) && Carry(r.out)(more)
    ensures Pushes(b, frames, now, max, steps + [r]) && Carry(Outs(steps + [r]))(out + more)
  {
    hide Delivery.Arrive;
    var longer := steps + [r];
    assert longer[..|steps|] == steps;
    CarryJoin(Outs(steps), out, r.out, more);
    forall i: nat ensures PushStep(b, frames, now, max, longer, i) {
      assert PushStep(b, frames, now, max, steps, i);
      if i < |steps| { assert longer[..i] == steps[..i]; }
    }
  }

  lemma TieScan(origin: nat, pending: map<U32, Frame>, truth: map<nat, Frame>, b: Buffer)
    requires Tie()(origin, pending, truth) && b.pending == truth && Fine()(b) && b.gapSince.Some?
    ensures Close(origin, pending.Keys) && TrueOf(origin, pending.Keys) == truth.Keys && truth != map[]
    ensures var t := Lowest(truth.Keys); LeastSeen(origin, pending.Keys, Wire(t)) && Unwrap(origin, Wire(t)) == t
  {
    LinkedClose(origin, pending, truth);
    TrueOfLinked(origin, pending, truth);
    var t := Lowest(truth.Keys);
    LinkedCarries(origin, pending, truth, t);
    UnwrapWire(origin, t);
  }

  /** The scan's answer: the lowest waiting number, or one beyond it when the lowest is 0 on the wire. */
  lemma SkipTo(origin: nat, pending: map<U32, Frame>, truth: map<nat, Frame>, b: Buffer, lo: U32)
    requires Tie()(origin, pending, truth) && b.pending == truth && b.next == origin && Fine()(b) && truth != map[]
    requires lo in pending && lo != 0
    requires var t := Lowest(truth.Keys); Wire(t) != 0 ==> lo == Wire(t)
    ensures var t, to := Lowest(truth.Keys), Unwrap(origin, lo);
            && origin <= to <= origin + HALF && lo == Wire(to)
            && (if Wire(t) != 0 then to == t && Ahead(b.(next := to)) else t < to)
  {
    LinkedClose(origin, pending, truth);
    WireUnwrap(origin, lo);
    var t := Lowest(truth.Keys);
    UnwrapWire(origin, t);
    TrueOfLinked(origin, pending, truth);
    assert Unwrap(origin, lo) in TrueOf(origin, pending.Keys);
  }

  ghost predicate Ahead(b: Buffer) {
    (forall t :: t in b.pending ==> t >= b.next) && (b.pending != map[] ==> b.gapSince.Some?)
  }

  lemma AheadDrains(b: Buffer)
    requires Ahead(b)
    ensures Fine()(Drain(b).buffer)
  {
    DrainReleases(b);
  }

  lemma TieMove(base: nat, pending: map<U32, Frame>, truth: map<nat, Frame>, to: nat, b: Buffer)
    requires Tie()(base, pending, truth) && base <= to && b.pending == truth && b.next == to && Fine()(b)
    ensures Tie()(to, pending, truth)
  {
    LinkedMove(base, pending, truth, to);
  }

  lemma TieNext(origin: nat, pending: map<U32, Frame>, truth: map<nat, Frame>, b: Buffer)
    requires Tie()(origin, pending, truth) && b.pending == truth && b.next == origin && Fine()(b)
    ensures Tie()(origin + 1, pending, truth) && Ahead(b.(next := origin + 1))
  {
    LinkedMove(origin, pending, truth, origin + 1);
  }

  lemma TieAt(origin: nat, pending: map<U32, Frame>, truth: map<nat, Frame>, t: nat)
    requires Tie()(origin, pending, truth) && origin <= t < origin + HALF
    ensures t in truth <==> Wire(t) in pending
    ensures |pending| == |truth|
  {
    LinkedAt(origin, pending, truth, t);
  }

  lemma TiePut(origin: nat, pending: map<U32, Frame>, truth: map<nat, Frame>, t: nat, f: Frame)
    requires Tie()(origin, pending, truth) && origin <= t < origin + HALF && t !in truth
    ensures Tie()(origin, pending[Wire(t) := f], truth[t := f])
  {
    LinkedPut(origin, pending, truth, t, f);
  }

  lemma TieLowest(origin: nat, pending: map<U32, Frame>, truth: map<nat, Frame>, seqNo: U32, t: nat)
    requires Tie()(origin, pending, truth) && seqNo == Wire(t) && origin <= t < origin + HALF
    ensures Close(origin, pending.Keys + {seqNo}) && Unwrap(origin, seqNo) == t
    ensures TrueOf(origin, pending.Keys) == truth.Keys
  {
    LinkedClose(origin, pending, truth);
    UnwrapWire(origin, t);
    TrueOfLinked(origin, pending, truth);
  }

  lemma TieEvict(origin: nat, pending: map<U32, Frame>, truth: map<nat, Frame>, lo: U32, t: nat)
    requires Tie()(origin, pending, truth) && origin <= t < origin + HALF && t !in truth
    requires Least(Unwrap(origin, lo), truth.Keys + {t})
    ensures Tie()(origin, pending - {lo}, truth - {Unwrap(origin, lo)})
    ensures Unwrap(origin, lo) == Lowest(truth.Keys + {t})
  {
    WireUnwrap(origin, lo);
    if Unwrap(origin, lo) in truth {
      LinkedDrop(origin, pending, truth, Unwrap(origin, lo));
    } else {
      TieWithout(origin, pending, truth, t);
    }
  }

  lemma TieWithout(origin: nat, pending: map<U32, Frame>, truth: map<nat, Frame>, t: nat)
    requires Tie()(origin, pending, truth) && origin <= t < origin + HALF && t !in truth
    ensures Tie()(origin, pending - {Wire(t)}, truth - {t})
  {
    LinkedAt(origin, pending, truth, t);
    assert pending - {Wire(t)} == pending && truth - {t} == truth;
  }

  // Sane and Linked as values: an object's invariant carries them as facts that stay folded until a lemma opens them.

  ghost function Fine(): Buffer -> bool { b => Sane(b) }

  ghost function Tie(): (nat, map<U32, Frame>, map<nat, Frame>) -> bool {
    (origin, pending, truth) => Linked(origin, pending, truth)
  }

  /** Draining b hands on items and then whatever draining c does. */
  ghost function Draining(b: Buffer): (Buffer, seq<Item>) -> bool {
    (c, items) => Drain(b) == Release(Drain(c).buffer, items + Drain(c).out)
  }

  ghost function First(c: Buffer): Item
    requires c.next in c.pending
  {
    Item(c.next, c.pending[c.next])
  }

  ghost function Popped(c: Buffer): Buffer { c.(pending := c.pending - {c.next}, next := c.next + 1) }

  lemma DrainsFirst(b: Buffer)
    ensures Draining(b)(b, [])
  {
    assert [] + Drain(b).out == Drain(b).out;
  }

  lemma DrainsMore(b: Buffer, c: Buffer, items: seq<Item>)
    requires Draining(b)(c, items) && c.next in c.pending
    ensures Draining(b)(Popped(c), items + [First(c)])
  {
    hide Drain;
    var x, rest := First(c), Drain(Popped(c)).out;
    DrainPops(c);
    assert items + ([x] + rest) == (items + [x]) + rest;
  }

  lemma DrainPops(c: Buffer)
    requires c.next in c.pending
    ensures Drain(c) == Release(Drain(Popped(c)).buffer, [First(c)] + Drain(Popped(c)).out)
  {}

  lemma DrainsDone(b: Buffer, c: Buffer, items: seq<Item>)
    requires Draining(b)(c, items) && c.next !in c.pending
    ensures Drain(b) == Release(if |c.pending| == 0 then c.(gapSince := None) else c, items)
  {
    assert items + [] == items;
  }

  lemma DrainStep(base: nat, next: U32, pending: map<U32, Frame>, truth: map<nat, Frame>, origin: nat)
    requires next == Wire(origin) && Tie()(base, pending, truth) && base <= origin <= base + HALF && next in pending
    ensures origin < base + HALF && origin in truth && truth[origin] == pending[next]
    ensures Tie()(base, pending - {next}, truth - {origin})
    ensures (next + 1) % M == Wire(origin + 1) && |pending - {next}| < |pending|
  {
    WaitsTrue(base, pending, truth, origin);
    LinkedDrop(base, pending, truth, origin);
    SizeDrop(pending, next);
    NextWire(origin);
  }

  lemma DrainStop(base: nat, next: U32, pending: map<U32, Frame>, truth: map<nat, Frame>, origin: nat)
    requires next == Wire(origin) && Tie()(base, pending, truth) && base <= origin <= base + HALF && next !in pending
    ensures origin !in truth && |pending| == |truth|
  {
    LinkedCarries(base, pending, truth, origin);
  }

  lemma LinkedCarries(base: nat, pending: map<U32, Frame>, truth: map<nat, Frame>, t: nat)
    requires Linked(base, pending, truth)
    ensures t in truth ==> Wire(t) in pending
  {
    assert Carries(pending, truth, t);
  }

  lemma NextWire(t: nat)
    ensures Wire(t + 1) == (Wire(t) + 1) % M
  {}

  lemma WaitsTrue(base: nat, pending: map<U32, Frame>, truth: map<nat, Frame>, t: nat)
    requires Linked(base, pending, truth) && base <= t <= base + HALF && Wire(t) in pending
    ensures t < base + HALF && t in truth && truth[t] == pending[Wire(t)]
  {
    if t == base + HALF {
      assert Reads(base, pending, truth, Wire(t));
      UnwrapFar(base, t);
    } else {
      LinkedAt(base, pending, truth, t);
    }
  }

  lemma UnwrapFar(origin: nat, t: nat)
    requires origin <= t < origin + M
    ensures Unwrap(origin, Wire(t)) == t
  {
    assert t == t / M * M + t % M;
    SameMod(t - origin, Wire(t) - origin, t / M);
  }

  // ---------------------------------------------------------------------
  // A stuck tick is reached.

  ghost function Numbered(t: nat): Item { Item(t, Frame(0, 0, 0, Wire(t), 0, [])) }

  /** Two far jumps, each skipped by a tick, and then the frame numbered 0 on the wire arrives early. */
  ghost function ToWrap(timeout: int): seq<Event> {
    [Arrived(Numbered(HALF - 1), 0), Ticked(timeout), Arrived(Numbered(M - 2), 0), Ticked(timeout),
     Arrived(Numbered(M), 0)]
  }

  /** One frame waits for the numbers before it. */
  ghost function Waiting(next: nat, t: nat): Buffer { Buffer(next, map[t := Numbered(t).f], Some(0), 0) }

  lemma TickReleases(next: nat, t: nat, timeout: int)
    requires next < t
    ensures Delivery.Tick(Waiting(next, t), timeout, timeout) == Release(Buffer(t + 1, map[], None, 0), [Numbered(t)])
  {
    var b := Waiting(next, t);
    assert b.pending.Keys == {t};
    assert Lowest(b.pending.Keys) in {t};
    assert b.pending - {t} == map[];
    assert Drain(Buffer(t + 1, map[], Some(0), 0)) == Release(Buffer(t + 1, map[], None, 0), []);
  }

  lemma WaitsFor(next: nat, t: nat, max: nat)
    requires next < t && max > 0
    ensures Delivery.Arrive(Buffer(next, map[], None, 0), Numbered(t), 0, max) == Release(Waiting(next, t), [])
  {}

  /**
   The stream runs up to its wrap, every frame within 2^31 of next when it arrives, and then only the frame numbered 0
   waits: a stale tick takes it for nothing.
   */
  lemma StuckAfterWrap(max: nat, timeout: int)
    requires max > 0
    ensures var evs, h := ToWrap(timeout), Run(ToWrap(timeout), 5, max, timeout);
            && (forall i :: 0 <= i < 5 && evs[i].Arrived? ==>
                              Nearest(Run(evs, i, max, timeout).buffer.next, evs[i].x.f.seqNo) == evs[i].x.t)
            && h.buffer == Waiting(M - 1, M) && Stuck(h.buffer, timeout, timeout)
  {
    hide Delivery.Arrive;
    hide Delivery.Tick;
    hide Nearest;
    hide Evicts;
    hide Phantom;
    hide Takes;
    hide Waiting;
    var evs := ToWrap(timeout);
    WaitsFor(1, HALF - 1, max);
    TickReleases(1, HALF - 1, timeout);
    WaitsFor(HALF, M - 2, max);
    TickReleases(HALF, M - 2, timeout);
    WaitsFor(M - 1, M, max);
    assert Run(evs, 0, max, timeout).buffer == FRESH;
    assert Run(evs, 1, max, timeout).buffer == Waiting(1, HALF - 1);
    assert Run(evs, 2, max, timeout).buffer == Buffer(HALF, map[], None, 0);
    assert Run(evs, 3, max, timeout).buffer == Waiting(HALF, M - 2);
    assert Run(evs, 4, max, timeout).buffer == Buffer(M - 1, map[], None, 0);
    NearestIs(1, HALF - 1);
    NearestIs(HALF, M - 2);
    NearestIs(M - 1, M);
    OnlyZeroWaits(timeout);
    assert Run(evs, 5, max, timeout).buffer == Waiting(M - 1, M);
  }

  lemma OnlyZeroWaits(timeout: int)
    ensures Stuck(Waiting(M - 1, M), timeout, timeout)
  {
    var b := Waiting(M - 1, M);
    assert b.pending.Keys == {M};
    assert Lowest(b.pending.Keys) in {M};
  }
}
