/**
 The delivery buffer over true (unwrapped) sequence numbers: in-order release, gap skipping and the bound
 on waiting frames. DeliveryObject ties the 32-bit object to it.
 */
module Delivery {
  import opened Bytes
  import opened Frames

  /** A frame under its true number. A number read off the wire as older than the start of the stream is negative. */
  datatype Item = Item(t: int, f: Frame)

  datatype Buffer = Buffer(next: nat, pending: map<nat, Frame>, gapSince: Option<int>, drops: nat)

  datatype Release = Release(buffer: Buffer, out: seq<Item>)

  const FRESH := Buffer(1, map[], None, 0)

  /** drainContiguous: the run of waiting frames that starts at next. */
  function Drain(b: Buffer): Release
    decreases |b.pending|
  {
    if b.next in b.pending then
      DropShrinks(b.pending, b.next);
      var r := Drain(b.(pending := b.pending - {b.next}, next := b.next + 1));
      Release(r.buffer, [Item(b.next, b.pending[b.next])] + r.out)
    else Release(if b.pending == map[] then b.(gapSince := None) else b, [])
  }

  lemma DropShrinks(m: map<nat, Frame>, t: nat)
    requires t in m
    ensures |m - {t}| == |m| - 1
  {
    assert (m - {t}).Keys == m.Keys - {t};
  }

  predicate Least(lo: nat, keys: set<nat>) { lo in keys && forall t :: t in keys ==> lo <= t }

  lemma {:induction false} LeastExists(keys: set<nat>)
    requires keys != {}
    ensures exists lo :: Least(lo, keys)
  {
    var x :| x in keys;
    if keys == {x} {
      assert Least(x, keys);
    } else {
      LeastExists(keys - {x});
      var y :| Least(y, keys - {x});
      assert forall t :: t in keys ==> t == x || t in keys - {x};
      assert Least(if x < y then x else y, keys);
    }
  }

  ghost function Lowest(keys: set<nat>): (lo: nat)
    requires keys != {}
    ensures Least(lo, keys)
  {
    LeastExists(keys);
    var lo :| Least(lo, keys);
    lo
  }

  /** The arrival finds the buffer full. */
  predicate Full(b: Buffer, max: nat) { |b.pending| >= max }

  /** The bound drops the lowest number, counting the arriving frame among the candidates. */
  ghost function Bounded(b: Buffer, t: nat, max: nat): Buffer {
    if Full(b, max) then b.(pending := b.pending - {Lowest(b.pending.Keys + {t})}, drops := b.drops + 1) else b
  }

  /** One frame of a Push. */
  ghost function Arrive(b: Buffer, x: Item, now: int, max: nat): Release {
    if x.t < b.next then Release(b, [])
    else if x.t == b.next then
      var r := Drain(b.(next := b.next + 1));
      Release(r.buffer, [x] + r.out)
    else
      var kept := if x.t in b.pending then b
        else Bounded(b, x.t, max).(pending := Bounded(b, x.t, max).pending[x.t := x.f]);
      Release(if b.gapSince.None? then kept.(gapSince := Some(now)) else kept, [])
  }

  /** The gap has been open for the timeout. */
  predicate Stale(b: Buffer, now: int, timeout: int) { b.gapSince.Some? && now - b.gapSince.value >= timeout }

  ghost function Tick(b: Buffer, now: int, timeout: int): Release {
    if !Stale(b, now, timeout) then Release(b, [])
    else if b.pending == map[] then Release(b.(next := b.next + 1, gapSince := None), [])
    else Drain(b.(next := Lowest(b.pending.Keys)))
  }

  // ---------------------------------------------------------------------
  // Runs, with what was taken in, evicted, and counted as dropped though nothing was.

  datatype Event = Arrived(x: Item, now: int) | Ticked(now: int)

  datatype History = History(buffer: Buffer, out: seq<Item>, taken: multiset<Item>, evicted: multiset<Item>,
                             phantoms: nat)

  ghost predicate Takes(b: Buffer, x: Item) { x.t >= b.next && x.t !in b.pending }

  /** A full buffer meets a frame it puts aside. */
  ghost predicate Overflows(b: Buffer, x: Item, max: nat) { x.t > b.next && x.t !in b.pending && Full(b, max) }

  /** The arriving frame is itself the lowest: nothing makes room for it. */
  ghost predicate Phantom(b: Buffer, x: Item, max: nat) {
    Overflows(b, x, max) && Lowest(b.pending.Keys + {x.t}) == x.t
  }

  ghost function Evicts(b: Buffer, x: Item, max: nat): multiset<Item> {
    if Overflows(b, x, max) && !Phantom(b, x, max)
    then var lo := Lowest(b.pending.Keys + {x.t}); multiset{Item(lo, b.pending[lo])}
    else multiset{}
  }

  ghost function Step(h: History, ev: Event, max: nat, timeout: int): History {
    match ev
    case Arrived(x, now) =>
      var r := Arrive(h.buffer, x, now, max);
      History(r.buffer, h.out + r.out,
              if Takes(h.buffer, x) then h.taken + multiset{x} else h.taken,
              h.evicted + Evicts(h.buffer, x, max),
              h.phantoms + if Phantom(h.buffer, x, max) then 1 else 0)
    case Ticked(now) =>
      var r := Tick(h.buffer, now, timeout);
      h.(buffer := r.buffer, out := h.out + r.out)
  }

  ghost function Run(evs: seq<Event>, n: nat, max: nat, timeout: int): History
    requires n <= |evs|
  {
    if n == 0 then History(FRESH, [], multiset{}, multiset{}, 0)
    else Step(Run(evs, n - 1, max, timeout), evs[n - 1], max, timeout)
  }

  // ---------------------------------------------------------------------
  // Order.

  ghost predicate Rising(out: seq<Item>) { forall i, j :: 0 <= i < j < |out| ==> out[i].t < out[j].t }

  ghost predicate Within(out: seq<Item>, lo: nat, hi: nat) { forall i :: 0 <= i < |out| ==> lo <= out[i].t < hi }

  /** next is never waiting, everything waiting is beyond it, and the gap timer runs iff something waits. */
  ghost predicate Sane(b: Buffer) {
    && (forall t :: t in b.pending ==> t > b.next)
    && (b.gapSince.Some? <==> b.pending != map[])
  }

  function ItemsOf(pending: map<nat, Frame>): (items: set<Item>)
    ensures forall x: Item :: x in items <==> x.t in pending && pending[x.t] == x.f
  {
    set t | t in pending :: Item(t, pending[t])
  }

  function Stock(pending: map<nat, Frame>): multiset<Item> { multiset(ItemsOf(pending)) }

  lemma StockDrop(pending: map<nat, Frame>, t: nat)
    requires t in pending
    ensures Stock(pending) == Stock(pending - {t}) + multiset{Item(t, pending[t])}
  {
    var x := Item(t, pending[t]);
    assert ItemsOf(pending) == ItemsOf(pending - {t}) + {x};
    assert x !in ItemsOf(pending - {t});
  }

  lemma StockPut(pending: map<nat, Frame>, t: nat, f: Frame)
    requires t !in pending
    ensures Stock(pending[t := f]) == Stock(pending) + multiset{Item(t, f)}
  {
    StockDrop(pending[t := f], t);
    assert pending[t := f] - {t} == pending;
  }

  /** What draining releases starts at next, rises, and leaves the rest waiting beyond the new next. */
  lemma {:induction false} DrainReleases(b: Buffer)
    requires forall t :: t in b.pending ==> t >= b.next
    requires b.pending != map[] ==> b.gapSince.Some?
    ensures var r := Drain(b);
            && Sane(r.buffer) && r.buffer.next >= b.next && r.buffer.drops == b.drops
            && Rising(r.out) && Within(r.out, b.next, r.buffer.next)
            && (b.next in b.pending ==> |r.out| > 0)
    decreases |b.pending|
  {
    if b.next in b.pending {
      DropShrinks(b.pending, b.next);
      DrainReleases(b.(pending := b.pending - {b.next}, next := b.next + 1));
    }
  }

  /** Draining releases next and the numbers that follow it without a gap. */
  lemma {:induction false} DrainCounts(b: Buffer)
    ensures var r := Drain(b);
            r.buffer.next == b.next + |r.out| && forall i :: 0 <= i < |r.out| ==> r.out[i].t == b.next + i
    decreases |b.pending|
  {
    if b.next in b.pending {
      DropShrinks(b.pending, b.next);
      DrainCounts(b.(pending := b.pending - {b.next}, next := b.next + 1));
    }
  }

  /** next is one past the last number released. */
  ghost predicate Reached(b: Buffer, out: seq<Item>) { b.next == if out == [] then 1 else out[|out| - 1].t + 1 }

  lemma StepReached(h: History, ev: Event, max: nat, timeout: int)
    requires Sane(h.buffer) && Reached(h.buffer, h.out)
    ensures var g := Step(h, ev, max, timeout); Reached(g.buffer, g.out)
  {
    hide Drain;
    match ev
    case Arrived(x, now) => DrainCounts(h.buffer.(next := h.buffer.next + 1));
    case Ticked(now) =>
      if Stale(h.buffer, now, timeout) {
        TickReached(h.buffer, now, timeout);
      }
  }

  lemma TickReached(b: Buffer, now: int, timeout: int)
    requires Sane(b) && Stale(b, now, timeout)
    ensures var r := Tick(b, now, timeout); |r.out| > 0 && r.buffer.next == r.out[|r.out| - 1].t + 1
  {
    var lo := Lowest(b.pending.Keys);
    assert lo in b.pending;
    DrainCounts(b.(next := lo));
  }

  /** Draining moves frames out of the buffer and loses none. */
  lemma {:induction false} DrainConserves(b: Buffer)
    ensures var r := Drain(b);
            Stock(b.pending) == multiset(r.out) + Stock(r.buffer.pending) && |r.buffer.pending| <= |b.pending|
    decreases |b.pending|
  {
    hide Stock;
    if b.next in b.pending {
      DropShrinks(b.pending, b.next);
      var c := b.(pending := b.pending - {b.next}, next := b.next + 1);
      DrainConserves(c);
      StockDrop(b.pending, b.next);
      OneMore(Item(b.next, b.pending[b.next]), Drain(c).out);
      Regroup(Stock(b.pending), Item(b.next, b.pending[b.next]), Stock(c.pending), multiset(Drain(c).out),
              Stock(Drain(c).buffer.pending));
    }
  }

  lemma Regroup(all: multiset<Item>, x: Item, rest: multiset<Item>, out: multiset<Item>, left: multiset<Item>)
    requires all == rest + multiset{x} && rest == out + left
    ensures all == multiset{x} + out + left
  {}

  lemma OneMore(x: Item, out: seq<Item>)
    ensures multiset([x] + out) == multiset{x} + multiset(out)
  {}

  /** Everything released so far lies below next, in rising order. */
  ghost predicate Ordered(b: Buffer, out: seq<Item>) { Sane(b) && Rising(out) && Within(out, 0, b.next) }

  lemma OrderMore(b: Buffer, out: seq<Item>, r: Release)
    requires Ordered(b, out) && Sane(r.buffer) && r.buffer.next >= b.next
    requires Rising(r.out) && Within(r.out, b.next, r.buffer.next)
    ensures Ordered(r.buffer, out + r.out)
  {}

  lemma ArriveKeepsOrder(b: Buffer, out: seq<Item>, x: Item, now: int, max: nat)
    requires Ordered(b, out)
    ensures var r := Arrive(b, x, now, max); Ordered(r.buffer, out + r.out)
  {
    var r := Arrive(b, x, now, max);
    if x.t == b.next {
      DrainReleases(b.(next := b.next + 1));
    } else if x.t > b.next {
      assert x.t in r.buffer.pending;
    }
    OrderMore(b, out, r);
  }

  lemma TickKeepsOrder(b: Buffer, out: seq<Item>, now: int, timeout: int)
    requires Ordered(b, out)
    ensures var r := Tick(b, now, timeout); Ordered(r.buffer, out + r.out)
    ensures Stale(b, now, timeout) ==> b.pending != map[] && |Tick(b, now, timeout).out| > 0
  {
    if Stale(b, now, timeout) {
      var lo := Lowest(b.pending.Keys);
      assert lo in b.pending;
      DrainReleases(b.(next := lo));
    }
    OrderMore(b, out, Tick(b, now, timeout));
  }

  /**
   In every run: the output rises strictly, next is one past the last number released and never waiting, everything
   waiting is beyond next, and the gap timer runs iff something waits; so a stale tick always releases a frame.
   */
  lemma {:induction false} DeliveryOrder(evs: seq<Event>, n: nat, max: nat, timeout: int)
    requires n <= |evs|
    ensures var h := Run(evs, n, max, timeout);
            && Ordered(h.buffer, h.out) && Reached(h.buffer, h.out)
            && (n < |evs| && evs[n].Ticked? && Stale(h.buffer, evs[n].now, timeout) ==>
                  h.buffer.pending != map[] && |Tick(h.buffer, evs[n].now, timeout).out| > 0)
  {
    if n > 0 {
      DeliveryOrder(evs, n - 1, max, timeout);
      var h := Run(evs, n - 1, max, timeout);
      StepReached(h, evs[n - 1], max, timeout);
      match evs[n - 1] {
        case Arrived(x, now) => ArriveKeepsOrder(h.buffer, h.out, x, now, max);
        case Ticked(now) => TickKeepsOrder(h.buffer, h.out, now, timeout);
      }
    }
    var h := Run(evs, n, max, timeout);
    if n < |evs| && evs[n].Ticked? {
      TickKeepsOrder(h.buffer, h.out, evs[n].now, timeout);
    }
  }

  lemma AlwaysSane(evs: seq<Event>, n: nat, max: nat, timeout: int)
    requires n <= |evs|
    ensures Sane(Run(evs, n, max, timeout).buffer)
  {
    DeliveryOrder(evs, n, max, timeout);
  }

  // ---------------------------------------------------------------------
  // Conservation.

  /** Each frame taken in is exactly one of released, waiting and evicted; the drop counter is explained. */
  ghost predicate Balanced(h: History) {
    && Settled(h.taken, multiset(h.out), Stock(h.buffer.pending), h.evicted)
    && h.buffer.drops == |h.evicted| + h.phantoms
  }

  ghost predicate Settled(taken: multiset<Item>, out: multiset<Item>, waiting: multiset<Item>,
                          evicted: multiset<Item>) {
    taken == out + waiting + evicted
  }

  lemma SettleMore(taken: multiset<Item>, out: multiset<Item>, waiting: multiset<Item>, evicted: multiset<Item>,
                   added: multiset<Item>, released: multiset<Item>, left: multiset<Item>, gone: multiset<Item>)
    requires Settled(taken, out, waiting, evicted) && waiting + added == released + left + gone
    ensures Settled(taken + added, out + released, left, evicted + gone)
  {
    calc {
      taken + added;
      out + evicted + (waiting + added);
      out + evicted + (released + left + gone);
      out + released + left + (evicted + gone);
    }
  }

  ghost function Added(b: Buffer, x: Item): multiset<Item> { if Takes(b, x) then multiset{x} else multiset{} }

  /** What one arrival does: the waiting frames and the new one are the released, the waiting and the evicted ones. */
  ghost predicate Conserves(b: Buffer, added: multiset<Item>, r: Release, gone: multiset<Item>, phantoms: nat) {
    && Stock(b.pending) + added == multiset(r.out) + Stock(r.buffer.pending) + gone
    && r.buffer.drops == b.drops + |gone| + phantoms
    && |r.buffer.pending| <= |b.pending| + |added| - |gone|
  }

  lemma PutGrows(m: map<nat, Frame>, x: Item)
    requires x.t >= 0 && x.t !in m
    ensures |m[x.t := x.f]| == |m| + 1
  {
    assert m[x.t := x.f].Keys == m.Keys + {x.t};
  }

  lemma PutAside(pending: map<nat, Frame>, x: Item)
    requires x.t >= 0 && x.t !in pending
    ensures Stock(pending[x.t := x.f]) == Stock(pending) + multiset{x} && |pending[x.t := x.f]| == |pending| + 1
  {
    StockPut(pending, x.t, x.f);
    PutGrows(pending, x);
  }

  lemma PutForLowest(pending: map<nat, Frame>, x: Item, lo: nat)
    requires x.t >= 0 && x.t !in pending && lo in pending
    ensures var left := (pending - {lo})[x.t := x.f];
            && Stock(pending) + multiset{x} == Stock(left) + multiset{Item(lo, pending[lo])}
            && |left| == |pending|
  {
    StockDrop(pending, lo);
    DropShrinks(pending, lo);
    PutAside(pending - {lo}, x);
  }

  lemma AsideConserves(b: Buffer, x: Item, now: int, max: nat)
    requires x.t > b.next && x.t !in b.pending
    ensures Conserves(b, multiset{x}, Arrive(b, x, now, max), Evicts(b, x, max), if Phantom(b, x, max) then 1 else 0)
    ensures |Arrive(b, x, now, max).buffer.pending| == |b.pending| + 1 - |Evicts(b, x, max)|
  {
    var lo := Lowest(b.pending.Keys + {x.t});
    if Full(b, max) && lo != x.t {
      AsideEvicts(b, x, now, max, lo);
    } else {
      AsideKeepsAll(b, x, now, max);
    }
  }

  lemma AsideEvicts(b: Buffer, x: Item, now: int, max: nat, lo: nat)
    requires x.t > b.next && x.t !in b.pending && Full(b, max) && lo == Lowest(b.pending.Keys + {x.t}) != x.t
    ensures Conserves(b, multiset{x}, Arrive(b, x, now, max), Evicts(b, x, max), 0) && !Phantom(b, x, max)
    ensures |Arrive(b, x, now, max).buffer.pending| == |b.pending| && |Evicts(b, x, max)| == 1
  {
    PutForLowest(b.pending, x, lo);
    var r := Arrive(b, x, now, max);
    assert r.buffer.pending == (b.pending - {lo})[x.t := x.f];
    assert Evicts(b, x, max) == multiset{Item(lo, b.pending[lo])};
    NothingReleased(b, multiset{x}, r, Evicts(b, x, max), 0);
  }

  lemma AsideKeepsAll(b: Buffer, x: Item, now: int, max: nat)
    requires x.t > b.next && x.t !in b.pending && (Full(b, max) ==> Lowest(b.pending.Keys + {x.t}) == x.t)
    ensures Conserves(b, multiset{x}, Arrive(b, x, now, max), multiset{}, if Phantom(b, x, max) then 1 else 0)
    ensures |Arrive(b, x, now, max).buffer.pending| == |b.pending| + 1 && Evicts(b, x, max) == multiset{}
  {
    assert b.pending - {x.t} == b.pending;
    PutAside(b.pending, x);
    var r := Arrive(b, x, now, max);
    assert r.buffer.pending == b.pending[x.t := x.f];
    NothingReleased(b, multiset{x}, r, multiset{}, if Phantom(b, x, max) then 1 else 0);
  }

  lemma NothingReleased(b: Buffer, added: multiset<Item>, r: Release, gone: multiset<Item>, phantoms: nat)
    requires r.out == [] && Stock(b.pending) + added == Stock(r.buffer.pending) + gone
    requires r.buffer.drops == b.drops + |gone| + phantoms && |r.buffer.pending| <= |b.pending| + |added| - |gone|
    ensures Conserves(b, added, r, gone, phantoms)
  {}

  lemma NextConserves(b: Buffer, x: Item, now: int, max: nat)
    requires x.t == b.next && x.t !in b.pending
    ensures Conserves(b, multiset{x}, Arrive(b, x, now, max), multiset{}, 0)
    ensures |Arrive(b, x, now, max).buffer.pending| <= |b.pending|
  {
    hide Drain;
    hide Stock;
    var c := b.(next := b.next + 1);
    DrainConserves(c);
    DrainDrops(c);
    OneMore(x, Drain(c).out);
  }

  lemma {:induction false} DrainDrops(b: Buffer)
    ensures Drain(b).buffer.drops == b.drops
    decreases |b.pending|
  {
    if b.next in b.pending {
      DropShrinks(b.pending, b.next);
      DrainDrops(b.(pending := b.pending - {b.next}, next := b.next + 1));
    }
  }

  lemma ArriveConserves(b: Buffer, x: Item, now: int, max: nat)
    requires Sane(b)
    ensures Conserves(b, Added(b, x), Arrive(b, x, now, max), Evicts(b, x, max), if Phantom(b, x, max) then 1 else 0)
  {
    if x.t > b.next && x.t !in b.pending {
      AsideConserves(b, x, now, max);
    } else if x.t == b.next {
      NextConserves(b, x, now, max);
    }
  }

  lemma TickConserves(b: Buffer, now: int, timeout: int)
    ensures Conserves(b, multiset{}, Tick(b, now, timeout), multiset{}, 0)
  {
    if Stale(b, now, timeout) && b.pending != map[] {
      var c := b.(next := Lowest(b.pending.Keys));
      DrainConserves(c);
      DrainDrops(c);
    }
  }

  lemma BalanceMore(h: History, added: multiset<Item>, r: Release, gone: multiset<Item>, phantoms: nat)
    requires Balanced(h) && Conserves(h.buffer, added, r, gone, phantoms)
    ensures Balanced(History(r.buffer, h.out + r.out, h.taken + added, h.evicted + gone, h.phantoms + phantoms))
  {
    SettleMore(h.taken, multiset(h.out), Stock(h.buffer.pending), h.evicted, added, multiset(r.out),
               Stock(r.buffer.pending), gone);
    assert multiset(h.out + r.out) == multiset(h.out) + multiset(r.out);
  }

  lemma StepBalances(h: History, ev: Event, max: nat, timeout: int)
    requires Balanced(h) && Sane(h.buffer)
    ensures Balanced(Step(h, ev, max, timeout))
  {
    match ev
    case Arrived(x, now) => ArriveBalances(h, x, now, max, timeout);
    case Ticked(now) => TickBalances(h, now, max, timeout);
  }

  lemma ArriveBalances(h: History, x: Item, now: int, max: nat, timeout: int)
    requires Balanced(h) && Sane(h.buffer)
    ensures Balanced(Step(h, Arrived(x, now), max, timeout))
  {
    ArriveConserves(h.buffer, x, now, max);
    BalanceMore(h, Added(h.buffer, x), Arrive(h.buffer, x, now, max), Evicts(h.buffer, x, max),
                if Phantom(h.buffer, x, max) then 1 else 0);
    assert h.taken + multiset{} == h.taken;
  }

  lemma TickBalances(h: History, now: int, max: nat, timeout: int)
    requires Balanced(h)
    ensures Balanced(Step(h, Ticked(now), max, timeout))
  {
    TickConserves(h.buffer, now, timeout);
    BalanceMore(h, multiset{}, Tick(h.buffer, now, timeout), multiset{}, 0);
    assert h.taken + multiset{} == h.taken && h.evicted + multiset{} == h.evicted;
  }

  /**
   In every run each frame taken in is exactly one of released, waiting and evicted, and the drop counter is
   the number of evictions plus the times a full buffer met a frame lower than all it held.
   */
  lemma {:induction false} DeliveryConserves(evs: seq<Event>, n: nat, max: nat, timeout: int)
    requires n <= |evs|
    ensures Balanced(Run(evs, n, max, timeout))
  {
    if n == 0 {
      FreshBalanced();
    } else {
      var m := n - 1;
      DeliveryConserves(evs, m, max, timeout);
      ConservesNext(evs, m, max, timeout);
    }
  }

  lemma FreshBalanced()
    ensures Balanced(History(FRESH, [], multiset{}, multiset{}, 0))
  {
    assert Stock(map[]) == multiset{};
  }

  lemma ConservesNext(evs: seq<Event>, n: nat, max: nat, timeout: int)
    requires n < |evs| && Balanced(Run(evs, n, max, timeout))
    ensures Balanced(Run(evs, n + 1, max, timeout))
  {
    AlwaysSane(evs, n, max, timeout);
    StepBalances(Run(evs, n, max, timeout), evs[n], max, timeout);
  }

  // ---------------------------------------------------------------------
  // The bound.

  /** From within the bound, an arrival leaves it exactly when a full buffer meets a frame lower than all it holds. */
  lemma BoundLeftIff(b: Buffer, x: Item, now: int, max: nat)
    requires Sane(b) && |b.pending| <= max
    ensures |Arrive(b, x, now, max).buffer.pending| > max <==> Phantom(b, x, max)
  {
    if x.t == b.next {
      NextConserves(b, x, now, max);
    } else if x.t > b.next && x.t !in b.pending {
      AsideConserves(b, x, now, max);
    }
  }

  /** The excess over the bound is at most the number of such meetings; without any, the bound always holds. */
  lemma {:induction false} BoundHolds(evs: seq<Event>, n: nat, max: nat, timeout: int)
    requires n <= |evs|
    ensures var h := Run(evs, n, max, timeout); |h.buffer.pending| <= max + h.phantoms
  {
    if n > 0 {
      BoundHolds(evs, n - 1, max, timeout);
      AlwaysSane(evs, n - 1, max, timeout);
      BoundStep(Run(evs, n - 1, max, timeout), evs[n - 1], max, timeout);
    }
  }

  lemma BoundStep(h: History, ev: Event, max: nat, timeout: int)
    requires Sane(h.buffer) && |h.buffer.pending| <= max + h.phantoms
    ensures var g := Step(h, ev, max, timeout); |g.buffer.pending| <= max + g.phantoms
  {
    match ev
    case Arrived(x, now) => ArriveBound(h.buffer, x, now, max);
    case Ticked(now) => TickConserves(h.buffer, now, timeout);
  }

  lemma ArriveBound(b: Buffer, x: Item, now: int, max: nat)
    requires Sane(b)
    ensures var size := |Arrive(b, x, now, max).buffer.pending|;
            size <= |b.pending| || size <= max || (size == |b.pending| + 1 && Phantom(b, x, max))
  {
    if x.t == b.next {
      NextConserves(b, x, now, max);
    } else if x.t > b.next && x.t !in b.pending {
      AsideConserves(b, x, now, max);
    }
  }

  /** The bound is exceeded for real: with room for one, 3 arrives and then 2. */
  lemma BoundExceeded(f: Frame)
    ensures var evs := [Arrived(Item(3, f), 0), Arrived(Item(2, f), 0)];
            |Run(evs, 2, 1, 100).buffer.pending| == 2
  {
    var evs := [Arrived(Item(3, f), 0), Arrived(Item(2, f), 0)];
    var h := Run(evs, 1, 1, 100);
    assert Run(evs, 0, 1, 100).buffer == FRESH;
    assert h.buffer.pending == map[3 := f];
    assert Least(2, h.buffer.pending.Keys + {2});
    assert Phantom(h.buffer, Item(2, f), 1);
    BoundLeftIff(h.buffer, Item(2, f), 0, 1);
    AsideConserves(h.buffer, Item(2, f), 0, 1);
  }

  // ---------------------------------------------------------------------
  // What moves next.

  lemma {:induction false} DrainPasses(b: Buffer, t: nat)
    requires b.next <= t < Drain(b).buffer.next
    ensures t in b.pending
    decreases |b.pending|
  {
    DrainOnce(b);
    hide Drain;
    if t > b.next {
      DropShrinks(b.pending, b.next);
      DrainPasses(b.(pending := b.pending - {b.next}, next := b.next + 1), t);
    }
  }

  lemma DrainOnce(b: Buffer)
    ensures if b.next in b.pending
            then Drain(b).buffer == Drain(b.(pending := b.pending - {b.next}, next := b.next + 1)).buffer
            else Drain(b).buffer.next == b.next
  {}

  /** An arrival moves next only past the arriving number and numbers that were waiting. */
  lemma ArrivalPasses(b: Buffer, x: Item, now: int, max: nat, t: nat)
    requires b.next <= t < Arrive(b, x, now, max).buffer.next
    ensures x.t == b.next && (t == x.t || t in b.pending)
  {
    if t > b.next { DrainPasses(b.(next := b.next + 1), t); }
  }

  lemma WaitingWasTaken(h: History, t: nat)
    requires Balanced(h) && t in h.buffer.pending
    ensures Item(t, h.buffer.pending[t]) in h.taken
  {
    var x := Item(t, h.buffer.pending[t]);
    assert x in ItemsOf(h.buffer.pending);
    assert x in Stock(h.buffer.pending);
  }

  ghost predicate TakenIn(h: History, t: int) { exists x :: x in h.taken && x.t == t }

  lemma ArrivalPassesTaken(evs: seq<Event>, n: nat, max: nat, timeout: int, t: nat)
    requires n < |evs| && evs[n].Arrived?
    requires Run(evs, n, max, timeout).buffer.next <= t < Run(evs, n + 1, max, timeout).buffer.next
    ensures TakenIn(Run(evs, n + 1, max, timeout), t)
  {
    hide Arrive;
    var h, g, x := Run(evs, n, max, timeout), Run(evs, n + 1, max, timeout), evs[n].x;
    DeliveryConserves(evs, n, max, timeout);
    AlwaysSane(evs, n, max, timeout);
    ArrivalPasses(h.buffer, x, evs[n].now, max, t);
    if t in h.buffer.pending {
      WaitingWasTaken(h, t);
      assert Item(t, h.buffer.pending[t]) in g.taken;
    } else {
      assert x in g.taken;
    }
  }

  /** In every run next moves past a number that was never taken in only by a tick, whatever waits behind it. */
  lemma UntakenPassedByTick(evs: seq<Event>, n: nat, max: nat, timeout: int, t: nat)
    requires n < |evs| && !TakenIn(Run(evs, n + 1, max, timeout), t)
    requires Run(evs, n, max, timeout).buffer.next <= t < Run(evs, n + 1, max, timeout).buffer.next
    ensures evs[n].Ticked?
  {
    hide Run;
    if evs[n].Arrived? { ArrivalPassesTaken(evs, n, max, timeout, t); }
  }
}
