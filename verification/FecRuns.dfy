/** Whole runs: the decoder follows the phases through every honest run, and what that means for one block. */
module FecRuns {
  import opened Bytes
  import opened Erasure
  import opened Frames
  import opened FecBlock
  import opened FecDecoder
  import opened FecAssembly
  import opened FecReassembly

  // ---------------------------------------------------------------------
  // The deadline tick.

  lemma ExpireOut(lib: Library, k: nat, reg: Registry, w: World, d: Dec, key: BlockKey)
    requires ValidRegistry(lib, k, reg) && TracksBlocks(lib, reg, w, d.blocks) && IsOpen(w, key)
    ensures key in reg && key in d.blocks
    ensures FlushOut(key, d.blocks[key]) == Partial(reg[key], w[key].arrived, |reg[key].data|)
  {
    TableAt(lib, reg, w, d.blocks, key);
    assert Registered(lib, k, reg[key], key);
    FlushHandsOn(lib, reg[key], key, w[key].arrived, d.blocks[key]);
  }

  lemma FlushShape(d: Dec, key: BlockKey, frames: seq<Frame>)
    requires key in d.blocks && FlushOut(key, d.blocks[key]) == frames
    ensures var o := Flush(d, key);
            && o.out == frames && o.done == [key] && o.dec.params == d.params && o.dec.cache == d.cache
            && o.dec.blocks == d.blocks - {key}
            && o.dec.lastFlushed ==
               if key.id > Last(d, StreamOf(key)) then d.lastFlushed[StreamOf(key) := key.id] else d.lastFlushed
  {}

  lemma ExpireOneTracks(lib: Library, k: nat, reg: Registry, w: World, d: Dec, key: BlockKey)
    requires ValidRegistry(lib, k, reg) && Tracks(lib, k, reg, w, d) && IsOpen(w, key)
    ensures key in reg && key in d.blocks
    ensures Answers(lib, k, reg, d, Flush(d, key), ExpireOne(reg, w, key))
  {
    ExpireOut(lib, k, reg, w, d, key);
    var frames := Partial(reg[key], w[key].arrived, |reg[key].data|);
    FlushShape(d, key, frames);
    ClosedAnswers(lib, k, reg, w, d, key, w[key].arrived, Flush(d, key), frames);
  }

  lemma {:induction false} ExpireTracks(lib: Library, k: nat, reg: Registry, w: World, d: Dec, order: seq<BlockKey>)
    requires ValidRegistry(lib, k, reg) && Tracks(lib, k, reg, w, d)
    ensures Answers(lib, k, reg, d, FlushAll(d, order), Expire(reg, w, order))
    decreases |order|
  {
    if order != [] {
      var init, key := order[..|order| - 1], order[|order| - 1];
      ExpireTracks(lib, k, reg, w, d, init);
      ExpireLast(lib, k, reg, d, FlushAll(d, init), Expire(reg, w, init), key);
    }
  }

  lemma ExpireLast(lib: Library, k: nat, reg: Registry, d: Dec, o: Outcome, a: Advance, key: BlockKey)
    requires ValidRegistry(lib, k, reg) && Answers(lib, k, reg, d, o, a)
    ensures key in o.dec.blocks <==> key in reg && IsOpen(a.world, key)
    ensures key in o.dec.blocks ==>
              var (p, b) := (Flush(o.dec, key), ExpireOne(reg, a.world, key));
              Answers(lib, k, reg, d, Outcome(p.dec, o.out + p.out, o.done + p.done),
                      Advance(b.world, a.deliveries + b.deliveries))
  {
    TableAt(lib, reg, a.world, o.dec.blocks, key);
    if key in o.dec.blocks {
      ExpireOneTracks(lib, k, reg, a.world, o.dec, key);
      var x := ExpireOne(reg, a.world, key).deliveries[0];
      assert ExpireOne(reg, a.world, key).deliveries == [x];
      JoinedOne(x);
      JoinedSnoc(a.deliveries, x);
    }
  }

  /** The overdue blocks of the table are the open ones whose deadline has passed. */
  lemma OverdueIsExpired(lib: Library, k: nat, reg: Registry, w: World, d: Dec, key: BlockKey, now: int)
    requires Tracks(lib, k, reg, w, d)
    ensures key in d.blocks && Overdue(d, key, now) <==> IsOpen(w, key) && now >= w[key].deadline
  {
    TableAt(lib, reg, w, d.blocks, key);
  }

  // ---------------------------------------------------------------------
  // Runs of the phases.

  datatype Event =
    | Arrival(key: BlockKey, i: nat, deadline: int)
    | Expiry(now: int, order: seq<BlockKey>)
    | Aside  // a frame that belongs to no block

  ghost predicate ValidEvent(reg: Registry, ev: Event) {
    ev.Arrival? ==> ev.key in reg && ev.i < |reg[ev.key].data| + reg[ev.key].p
  }

  /** A tick visits exactly the open blocks whose deadline has passed, each once. */
  ghost predicate Visits(w: World, now: int, order: seq<BlockKey>) {
    && (forall i, j :: 0 <= i < j < |order| ==> order[i] != order[j])
    && (forall key :: key in order <==> IsOpen(w, key) && now >= w[key].deadline)
  }

  ghost function Step(reg: Registry, w: World, ev: Event): Advance
    requires ValidEvent(reg, ev)
  {
    match ev
    case Arrival(key, i, deadline) => Arrive(reg, w, key, i, deadline)
    case Expiry(now, order) => Expire(reg, w, order)
    case Aside => Advance(w, [])
  }

  ghost function Run(reg: Registry, w: World, evs: seq<Event>, n: nat): Advance
    requires n <= |evs| && forall j :: 0 <= j < |evs| ==> ValidEvent(reg, evs[j])
  {
    if n == 0 then Advance(w, [])
    else
      var before := Run(reg, w, evs, n - 1);
      var a := Step(reg, before.world, evs[n - 1]);
      Advance(a.world, before.deliveries + a.deliveries)
  }

  /** Done is for good: what was handed on stays so, with nothing handed on again. */
  lemma ArriveKeepsDone(reg: Registry, w: World, key: BlockKey, i: nat, deadline: int, other: BlockKey)
    requires key in reg && other in w && w[other].Done?
    ensures var a := Arrive(reg, w, key, i, deadline);
            other in a.world && a.world[other] == w[other] && forall x :: x in a.deliveries ==> x.key != other
  {
    DoneIsBarred(w, other);
  }

  lemma {:induction false} ExpireOthers(reg: Registry, w: World, order: seq<BlockKey>, other: BlockKey)
    requires other !in order || !IsOpen(w, other) || other !in reg
    ensures var a := Expire(reg, w, order);
            && (other in a.world <==> other in w) && (other in w ==> a.world[other] == w[other])
            && forall x :: x in a.deliveries ==> x.key != other
    decreases |order|
  {
    if order != [] {
      var init, key := order[..|order| - 1], order[|order| - 1];
      assert order == init + [key];
      ExpireOthers(reg, w, init, other);
      var before := Expire(reg, w, init);
      if key in reg && IsOpen(before.world, key) {
        assert key != other;
        assert ExpireOne(reg, before.world, key).deliveries[0].key == key;
      }
    }
  }

  lemma {:induction false} ExpireHits(reg: Registry, w: World, order: seq<BlockKey>, other: BlockKey)
    requires other in order && IsOpen(w, other) && other in reg
    requires forall i, j :: 0 <= i < j < |order| ==> order[i] != order[j]
    ensures var a := Expire(reg, w, order);
            && other in a.world && a.world[other] == Done(w[other].arrived)
            && For(a.deliveries, other) == [Delivery(other, Partial(reg[other], w[other].arrived, |reg[other].data|))]
    decreases |order|
  {
    hide For;
    hide Partial;
    var init, key := order[..|order| - 1], order[|order| - 1];
    assert order == init + [key];
    var before := Expire(reg, w, init);
    if key == other {
      forall j | 0 <= j < |init| ensures init[j] != other {
        assert init[j] == order[j];
      }
      ExpireOthers(reg, w, init, other);
      ForNone(before.deliveries, other);
      var x := Delivery(other, Partial(reg[other], w[other].arrived, |reg[other].data|));
      assert ExpireOne(reg, before.world, other).deliveries == [x];
      ForSnoc(before.deliveries, x, other);
    } else {
      assert forall i, j :: 0 <= i < j < |init| ==> init[i] == order[i] && init[j] == order[j];
      ExpireHits(reg, w, init, other);
      if key in reg && IsOpen(before.world, key) {
        var x := ExpireOne(reg, before.world, key).deliveries[0];
        ForSnoc(before.deliveries, x, other);
      }
    }
  }

  // ---------------------------------------------------------------------
  // Deliveries of one block.

  ghost function For(deliveries: seq<Delivery>, key: BlockKey): seq<Delivery> {
    if deliveries == [] then []
    else For(deliveries[..|deliveries| - 1], key)
         + if deliveries[|deliveries| - 1].key == key then [deliveries[|deliveries| - 1]] else []
  }

  lemma ForSnoc(a: seq<Delivery>, x: Delivery, key: BlockKey)
    ensures For(a + [x], key) == For(a, key) + if x.key == key then [x] else []
  {
    assert (a + [x])[..|a|] == a;
  }

  lemma {:induction false} ForNone(a: seq<Delivery>, key: BlockKey)
    requires forall x :: x in a ==> x.key != key
    ensures For(a, key) == []
  {
    if a != [] {
      assert a[|a| - 1] in a;
      forall x | x in a[..|a| - 1] ensures x.key != key { assert x in a; }
      ForNone(a[..|a| - 1], key);
    }
  }

  lemma {:induction false} ForConcat(a: seq<Delivery>, b: seq<Delivery>, key: BlockKey)
    ensures For(a + b, key) == For(a, key) + For(b, key)
  {
    if b == [] {
      assert a + b == a;
    } else {
      var init, x := b[..|b| - 1], b[|b| - 1];
      ForConcat(a, init, key);
      ForSnoc(a + init, x, key);
      assert a + b == a + init + [x];
    }
  }

  // ---------------------------------------------------------------------
  // The erasure round trip.

  /** The frames of the block among the first n events. */
  ghost function Arrivals(evs: seq<Event>, key: BlockKey, n: nat): set<nat>
    requires n <= |evs|
  {
    if n == 0 then {}
    else Arrivals(evs, key, n - 1)
         + if evs[n - 1].Arrival? && evs[n - 1].key == key then {evs[n - 1].i} else {}
  }

  /** A run from w in which every tick visits exactly the blocks that are due. */
  ghost predicate ValidRun(reg: Registry, w: World, evs: seq<Event>) {
    && (forall j :: 0 <= j < |evs| ==> ValidEvent(reg, evs[j]))
    && (forall j :: 0 <= j < |evs| && evs[j].Expiry? ==> Visits(Run(reg, w, evs, j).world, evs[j].now, evs[j].order))
  }

  /** The block opens with the first event, and no tick before event n reaches its deadline. */
  ghost predicate OpensWith(w: World, evs: seq<Event>, key: BlockKey, deadline: int, n: nat)
    requires n <= |evs|
  {
    && key !in w && !Barred(w, key)
    && 0 < n && evs[0].Arrival? && evs[0].key == key && evs[0].deadline == deadline
    && (forall j :: 0 <= j < n && evs[j].Expiry? ==> evs[j].now < deadline)
  }

  lemma CompleteGrows(b: Block, a: set<nat>, c: set<nat>)
    requires a <= c && Complete(b, a)
    ensures Complete(b, c)
  {
    var i :| i in ParityPart(b, a);
    assert i in ParityPart(b, c);
    SubsetSize(a, c);
  }

  lemma ArriveOther(reg: Registry, w: World, key: BlockKey, i: nat, deadline: int, other: BlockKey)
    requires key in reg && key != other
    ensures var a := Arrive(reg, w, key, i, deadline);
            && (other in a.world <==> other in w) && (other in w ==> a.world[other] == w[other])
            && For(a.deliveries, other) == []
  {
    ForNone(Arrive(reg, w, key, i, deadline).deliveries, other);
  }

  /** What the block's own phase and deliveries are after n events. */
  ghost predicate OneBlock(reg: Registry, a: Advance, key: BlockKey, arrived: set<nat>, deadline: int)
    requires key in reg
  {
    && key in a.world
    && if Complete(reg[key], arrived)
       then a.world[key].Done? && For(a.deliveries, key) == [Delivery(key, Content(reg[key]))]
       else a.world[key] == Open(arrived, deadline) && For(a.deliveries, key) == []
  }

  /** A block that is not barred is delivered once, as soon as it is complete, and stays open until then. */
  lemma {:induction false} PhasesRoundTrip(reg: Registry, w: World, evs: seq<Event>, key: BlockKey, deadline: int,
                                           n: nat)
    requires ValidRun(reg, w, evs) && n <= |evs| && OpensWith(w, evs, key, deadline, n)
    ensures key in reg && OneBlock(reg, Run(reg, w, evs, n), key, Arrivals(evs, key, n), deadline)
  {
    if n == 1 {
      RoundTripFirst(reg, w, evs, key, deadline);
    } else {
      PhasesRoundTrip(reg, w, evs, key, deadline, n - 1);
      RoundTripNext(reg, w, evs, key, deadline, n - 1);
    }
  }

  lemma RoundTripFirst(reg: Registry, w: World, evs: seq<Event>, key: BlockKey, deadline: int)
    requires ValidRun(reg, w, evs) && |evs| > 0 && OpensWith(w, evs, key, deadline, 1)
    ensures key in reg && OneBlock(reg, Run(reg, w, evs, 1), key, Arrivals(evs, key, 1), deadline)
  {
    assert ValidEvent(reg, evs[0]);
    FirstArrival(reg, w, key, evs[0].i, deadline);
    assert Run(reg, w, evs, 0) == Advance(w, []);
    var a := Arrive(reg, w, key, evs[0].i, deadline);
    assert [] + a.deliveries == a.deliveries;
    assert Arrivals(evs, key, 0) == {};
    assert {} + {evs[0].i} == {evs[0].i};
  }

  lemma RoundTripNext(reg: Registry, w: World, evs: seq<Event>, key: BlockKey, deadline: int, n: nat)
    requires ValidRun(reg, w, evs) && n < |evs| && OpensWith(w, evs, key, deadline, n + 1)
    requires key in reg && OneBlock(reg, Run(reg, w, evs, n), key, Arrivals(evs, key, n), deadline)
    ensures OneBlock(reg, Run(reg, w, evs, n + 1), key, Arrivals(evs, key, n + 1), deadline)
  {
    var ev := evs[n];
    assert ValidEvent(reg, ev);
    RoundTripStep(reg, Run(reg, w, evs, n), ev, key, Arrivals(evs, key, n), deadline);
  }

  lemma FirstArrival(reg: Registry, w: World, key: BlockKey, i: nat, deadline: int)
    requires key in reg && key !in w && !Barred(w, key)
    ensures OneBlock(reg, Arrive(reg, w, key, i, deadline), key, {i}, deadline)
  {
    assert WithArrival(w, key, i, deadline).arrived == {i};
    var x := Delivery(key, Content(reg[key]));
    ForSnoc([], x, key);
    assert [] + [x] == [x];
  }

  lemma RoundTripStep(reg: Registry, before: Advance, ev: Event, key: BlockKey, arrived: set<nat>, deadline: int)
    requires key in reg && ValidEvent(reg, ev) && OneBlock(reg, before, key, arrived, deadline)
    requires ev.Expiry? ==> ev.now < deadline && Visits(before.world, ev.now, ev.order)
    ensures var a := Step(reg, before.world, ev);
            OneBlock(reg, Advance(a.world, before.deliveries + a.deliveries), key,
                     arrived + (if ev.Arrival? && ev.key == key then {ev.i} else {}), deadline)
  {
    var a := Step(reg, before.world, ev);
    ForConcat(before.deliveries, a.deliveries, key);
    match ev
    case Arrival(other, i, dl) =>
      if other != key {
        ArriveOther(reg, before.world, other, i, dl, key);
        assert arrived + {} == arrived;
      } else if before.world[key].Done? {
        ArriveKeepsDone(reg, before.world, key, i, dl, key);
        ForNone(a.deliveries, key);
        CompleteGrows(reg[key], arrived, arrived + {i});
      } else {
        OwnArrival(reg, before.world, key, i, dl, arrived, deadline);
      }
    case Expiry(now, order) =>
      assert arrived + {} == arrived;
      ExpireOthers(reg, before.world, order, key);
      ForNone(a.deliveries, key);
    case Aside =>
      assert arrived + {} == arrived;
  }

  lemma OwnArrival(reg: Registry, w: World, key: BlockKey, i: nat, dl: int, arrived: set<nat>, deadline: int)
    requires key in reg && key in w && w[key] == Open(arrived, deadline)
    ensures OneBlock(reg, Arrive(reg, w, key, i, dl), key, arrived + {i}, deadline)
  {
    assert WithArrival(w, key, i, dl) == Open(arrived + {i}, deadline);
    var x := Delivery(key, Content(reg[key]));
    ForSnoc([], x, key);
    assert [] + [x] == [x];
  }

  /** The deadline tick delivers what arrived of an incomplete block: all of it when every data frame arrived. */
  lemma PhasesAtDeadline(reg: Registry, w: World, key: BlockKey, arrived: set<nat>, deadline: int, now: int,
                         order: seq<BlockKey>)
    requires key in reg && key in w && w[key] == Open(arrived, deadline) && now >= deadline && Visits(w, now, order)
    ensures var a := Expire(reg, w, order);
            && key in a.world && a.world[key] == Done(arrived)
            && For(a.deliveries, key) == [Delivery(key, Partial(reg[key], arrived, |reg[key].data|))]
            && (DataPart(reg[key], arrived) == Range(|reg[key].data|) ==>
                  Partial(reg[key], arrived, |reg[key].data|) == Content(reg[key]))
  {
    ExpireHits(reg, w, order, key);
    if DataPart(reg[key], arrived) == Range(|reg[key].data|) {
      PartialFull(reg[key], arrived);
    }
  }

  // ---------------------------------------------------------------------
  // Nothing foreign comes out.

  ghost predicate Genuine(reg: Registry, x: Delivery) {
    x.key in reg && forall f :: f in x.frames ==> f in Content(reg[x.key])
  }

  lemma {:induction false} PartialGenuine(b: Block, arrived: set<nat>, n: nat)
    requires n <= |b.data|
    ensures forall f :: f in Partial(b, arrived, n) ==> f in Content(b)
  {
    if n > 0 {
      PartialGenuine(b, arrived, n - 1);
      var last := Delivered(b.session, b.data[n - 1].seqNo, b.data[n - 1].payload);
      assert Content(b)[n - 1] == last;
      assert forall f :: f in Partial(b, arrived, n) ==> f in Partial(b, arrived, n - 1) || f == last;
    }
  }

  lemma {:induction false} ExpireGenuine(reg: Registry, w: World, order: seq<BlockKey>)
    ensures forall i :: 0 <= i < |Expire(reg, w, order).deliveries| ==>
              Genuine(reg, Expire(reg, w, order).deliveries[i])
    decreases |order|
  {
    if order != [] {
      ExpireGenuine(reg, w, order[..|order| - 1]);
      var before, key := Expire(reg, w, order[..|order| - 1]), order[|order| - 1];
      if key in reg && IsOpen(before.world, key) {
        PartialGenuine(reg[key], before.world[key].arrived, |reg[key].data|);
        assert Genuine(reg, ExpireOne(reg, before.world, key).deliveries[0]);
      }
    }
  }

  lemma StepGenuine(reg: Registry, w: World, ev: Event)
    requires ValidEvent(reg, ev)
    ensures forall i :: 0 <= i < |Step(reg, w, ev).deliveries| ==> Genuine(reg, Step(reg, w, ev).deliveries[i])
  {
    match ev
    case Arrival(key, i, deadline) =>
    case Expiry(now, order) => ExpireGenuine(reg, w, order);
    case Aside =>
  }
}
