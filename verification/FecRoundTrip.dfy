/**
 The erasure round trip of the decoder itself: which act of a run hands a block on, and what it hands on. The
 phases appear only as the witness that a run is honest.
 */
module FecRoundTrip {
  import opened Bytes
  import opened Erasure
  import opened Frames
  import opened FecBlock
  import opened FecDecoder
  import opened FecAssembly
  import opened FecReassembly
  import opened FecDecoderRuns
  import FecRuns

  /** Every tick visits exactly the blocks that are overdue when it comes, each once. */
  ghost predicate Punctual(lib: Library, d: Dec, acts: seq<Act>)
    requires Sound(d)
  {
    forall j :: 0 <= j < |acts| && acts[j].Ticked? ==>
      VisitsOverdue(Run(lib, d, acts, j).dec, acts[j].now, acts[j].order)
  }

  /** An honest run of the decoder: every frame is one of a registered block, or stands outside any block. */
  ghost predicate Honest(lib: Library, k: nat, reg: Registry, w: World, d: Dec, acts: seq<Act>,
                         evs: seq<FecRuns.Event>) {
    && ErasureContract(lib) && ValidRegistry(lib, k, reg) && Tracks(lib, k, reg, w, d) && Sound(d)
    && HonestRun(lib, reg, d.params, acts, evs) && Punctual(lib, d, acts)
  }

  /** What act n of a run hands on and flushes. */
  ghost function Answer(lib: Library, d: Dec, acts: seq<Act>, n: nat): Outcome
    requires Sound(d) && n < |acts|
  {
    Do(lib, Run(lib, d, acts, n).dec, acts[n])
  }

  lemma TickVisits(lib: Library, k: nat, reg: Registry, w: World, d: Dec, now: int, order: seq<BlockKey>)
    requires Tracks(lib, k, reg, w, d) && VisitsOverdue(d, now, order)
    ensures FecRuns.Visits(w, now, order)
  {
    forall key ensures key in order <==> IsOpen(w, key) && now >= w[key].deadline {
      FecRuns.OverdueIsExpired(lib, k, reg, w, d, key, now);
    }
  }

  /** The phases of an honest run are a valid run of theirs. */
  lemma HonestIsValid(lib: Library, k: nat, reg: Registry, w: World, d: Dec, acts: seq<Act>, evs: seq<FecRuns.Event>)
    requires Honest(lib, k, reg, w, d, acts, evs)
    ensures FecRuns.ValidRun(reg, w, evs)
  {
    forall j | 0 <= j < |evs| && evs[j].Expiry?
      ensures FecRuns.Visits(FecRuns.Run(reg, w, evs, j).world, evs[j].now, evs[j].order)
    {
      assert Corresponds(lib, reg, d.params, acts[j], evs[j]);
      HonestRunFollows(lib, k, reg, d, w, acts, evs, j);
      TickVisits(lib, k, reg, FecRuns.Run(reg, w, evs, j).world, Run(lib, d, acts, j).dec, evs[j].now, evs[j].order);
    }
  }

  /** Act n answers with what the phases deliver at step n. */
  lemma AnswerFollows(lib: Library, k: nat, reg: Registry, w: World, d: Dec, acts: seq<Act>, evs: seq<FecRuns.Event>,
                      n: nat)
    requires Honest(lib, k, reg, w, d, acts, evs) && n < |acts|
    ensures var a := FecRuns.Step(reg, FecRuns.Run(reg, w, evs, n).world, evs[n]);
            Answer(lib, d, acts, n).out == Expected(acts[n], evs[n], a)
              && Answer(lib, d, acts, n).done == KeysOf(a.deliveries)
  {
    HonestRunFollows(lib, k, reg, d, w, acts, evs, n);
    var v, e := FecRuns.Run(reg, w, evs, n).world, Run(lib, d, acts, n).dec;
    ActFollows(lib, k, reg, v, e, acts[n], evs[n]);
  }

  // ---------------------------------------------------------------------
  // A block not yet seen.

  /** The decoder has no buffer for the block, and no later block of its stream has been flushed. */
  ghost predicate Unseen(d: Dec, key: BlockKey) { key !in d.blocks && Last(d, StreamOf(key)) < key.id }

  lemma UnseenIsNew(lib: Library, k: nat, reg: Registry, w: World, d: Dec, key: BlockKey)
    requires Tracks(lib, k, reg, w, d) && Unseen(d, key)
    ensures key !in w && !Barred(w, key)
  {
    assert BarOk(w, d, key);
    TableAt(lib, reg, w, d.blocks, key);
    DoneIsBarred(w, key);
  }

  /** The first act is the first frame of the block, and every tick before act n comes before the block's deadline. */
  ghost predicate Opens(d: Dec, acts: seq<Act>, evs: seq<FecRuns.Event>, key: BlockKey, n: nat) {
    && |acts| == |evs| && 0 < n <= |acts| && Unseen(d, key)
    && evs[0].Arrival? && evs[0].key == key
    && (forall j :: 0 <= j < n && evs[j].Expiry? ==> evs[j].now < evs[0].deadline)
  }

  /** Frame i of the block arrives at act n. */
  ghost predicate Brings(ev: FecRuns.Event, key: BlockKey) { ev.Arrival? && ev.key == key }

  /** With act n the block has for the first time k of its frames, one of them parity. */
  ghost predicate Completes(b: Block, evs: seq<FecRuns.Event>, key: BlockKey, n: nat)
    requires n < |evs|
  {
    !Complete(b, FecRuns.Arrivals(evs, key, n)) && Complete(b, FecRuns.Arrivals(evs, key, n + 1))
  }

  lemma {:induction false} ForKeys(ds: seq<Delivery>, key: BlockKey)
    ensures key in KeysOf(ds) <==> FecRuns.For(ds, key) != []
  {
    if ds != [] {
      var init, x := ds[..|ds| - 1], ds[|ds| - 1];
      ForKeys(init, key);
      assert ds == init + [x];
      KeysConcat(init, [x]);
      assert KeysOf([x]) == [x.key];
    }
  }

  lemma OpensPhases(lib: Library, k: nat, reg: Registry, w: World, d: Dec, acts: seq<Act>, evs: seq<FecRuns.Event>,
                    key: BlockKey, n: nat)
    requires Honest(lib, k, reg, w, d, acts, evs) && Opens(d, acts, evs, key, n)
    ensures key in reg && FecRuns.ValidRun(reg, w, evs) && FecRuns.OpensWith(w, evs, key, evs[0].deadline, n)
    ensures FecRuns.OneBlock(reg, FecRuns.Run(reg, w, evs, n), key, FecRuns.Arrivals(evs, key, n), evs[0].deadline)
  {
    HonestIsValid(lib, k, reg, w, d, acts, evs);
    UnseenIsNew(lib, k, reg, w, d, key);
    FecRuns.PhasesRoundTrip(reg, w, evs, key, evs[0].deadline, n);
  }

  /** What step n delivers of the block, given where the block stood before it and stands after it. */
  lemma StepDelivers(reg: Registry, w: World, evs: seq<FecRuns.Event>, key: BlockKey, deadline: int, n: nat)
    requires FecRuns.ValidRun(reg, w, evs) && n < |evs| && key in reg
    requires FecRuns.OneBlock(reg, FecRuns.Run(reg, w, evs, n), key, FecRuns.Arrivals(evs, key, n), deadline)
    requires FecRuns.OneBlock(reg, FecRuns.Run(reg, w, evs, n + 1), key, FecRuns.Arrivals(evs, key, n + 1), deadline)
    ensures var ds := FecRuns.Step(reg, FecRuns.Run(reg, w, evs, n).world, evs[n]).deliveries;
            FecRuns.For(ds, key) == if Completes(reg[key], evs, key, n) then [Delivery(key, Content(reg[key]))] else []
  {
    var before := FecRuns.Run(reg, w, evs, n);
    var ds := FecRuns.Step(reg, before.world, evs[n]).deliveries;
    FecRuns.ForConcat(before.deliveries, ds, key);
    var arrived, now := FecRuns.Arrivals(evs, key, n), FecRuns.Arrivals(evs, key, n + 1);
    if Complete(reg[key], arrived) {
      FecRuns.CompleteGrows(reg[key], arrived, now);
    }
  }

  /** An arrival delivers nothing, or its own block. */
  lemma ArrivalDelivers(reg: Registry, w: World, ev: FecRuns.Event)
    requires ev.Arrival? && FecRuns.ValidEvent(reg, ev)
    ensures var ds := FecRuns.Step(reg, w, ev).deliveries;
            FecRuns.For(ds, ev.key) == ds && (ds == [] || ds == [Delivery(ev.key, Content(reg[ev.key]))])
  {
    var x := Delivery(ev.key, Content(reg[ev.key]));
    FecRuns.ForSnoc([], x, ev.key);
    assert [] + [x] == [x];
  }

  /** The answer that hands on the whole block and nothing else. */
  ghost predicate HandsOn(reg: Registry, key: BlockKey, o: Outcome) {
    key in reg && o.done == [key] && o.out == Content(reg[key])
  }

  /**
   The erasure round trip. From the first frame of a block that has no buffer and is not below its stream's flush
   mark, and up to the block's deadline, with its frames in any order, duplicated, lost, and mixed with frames of any
   other blocks: the act with which k of the k+p frames have arrived, one of them parity, hands on exactly the
   block's k frames, byte for byte and in block order. No other act flushes the block, and no other frame of it
   makes the decoder hand anything on.
   */
  lemma ErasureRoundTrip(lib: Library, k: nat, reg: Registry, w: World, d: Dec, acts: seq<Act>, evs: seq<FecRuns.Event>,
                         key: BlockKey, n: nat)
    requires Honest(lib, k, reg, w, d, acts, evs) && n < |acts| && Opens(d, acts, evs, key, n + 1)
    ensures key in reg
    ensures Completes(reg[key], evs, key, n) ==> HandsOn(reg, key, Answer(lib, d, acts, n))
    ensures !Completes(reg[key], evs, key, n) ==> key !in Answer(lib, d, acts, n).done
    ensures !Completes(reg[key], evs, key, n) && Brings(evs[n], key) ==> Answer(lib, d, acts, n).out == []
  {
    AnswerFollows(lib, k, reg, w, d, acts, evs, n);
    OpensPhases(lib, k, reg, w, d, acts, evs, key, n + 1);
    var v := FecRuns.Run(reg, w, evs, n).world;
    var ds := FecRuns.Step(reg, v, evs[n]).deliveries;
    StepOf(reg, w, evs, key, n);
    ForKeys(ds, key);
    if Brings(evs[n], key) {
      ArrivalDelivers(reg, v, evs[n]);
      if Completes(reg[key], evs, key, n) { JoinedOne(Delivery(key, Content(reg[key]))); }
    } else {
      SameArrivals(evs, key, n);
    }
  }

  lemma SameArrivals(evs: seq<FecRuns.Event>, key: BlockKey, n: nat)
    requires n < |evs| && !Brings(evs[n], key)
    ensures FecRuns.Arrivals(evs, key, n + 1) == FecRuns.Arrivals(evs, key, n)
  {}

  lemma StepOf(reg: Registry, w: World, evs: seq<FecRuns.Event>, key: BlockKey, n: nat)
    requires FecRuns.ValidRun(reg, w, evs) && n < |evs| && evs[0].Arrival?
    requires FecRuns.OpensWith(w, evs, key, evs[0].deadline, n + 1)
    ensures key in reg
    ensures var ds := FecRuns.Step(reg, FecRuns.Run(reg, w, evs, n).world, evs[n]).deliveries;
            FecRuns.For(ds, key) == if Completes(reg[key], evs, key, n) then [Delivery(key, Content(reg[key]))] else []
  {
    if n == 0 {
      FecRuns.PhasesRoundTrip(reg, w, evs, key, evs[0].deadline, 1);
      FirstDelivers(reg, w, evs, key);
    } else {
      LaterDelivers(reg, w, evs, key, evs[0].deadline, n);
    }
  }

  lemma LaterDelivers(reg: Registry, w: World, evs: seq<FecRuns.Event>, key: BlockKey, deadline: int, n: nat)
    requires FecRuns.ValidRun(reg, w, evs) && 0 < n < |evs| && FecRuns.OpensWith(w, evs, key, deadline, n + 1)
    ensures key in reg
    ensures var ds := FecRuns.Step(reg, FecRuns.Run(reg, w, evs, n).world, evs[n]).deliveries;
            FecRuns.For(ds, key) == if Completes(reg[key], evs, key, n) then [Delivery(key, Content(reg[key]))] else []
  {
    FecRuns.PhasesRoundTrip(reg, w, evs, key, deadline, n);
    FecRuns.PhasesRoundTrip(reg, w, evs, key, deadline, n + 1);
    StepDelivers(reg, w, evs, key, deadline, n);
  }

  lemma FirstDelivers(reg: Registry, w: World, evs: seq<FecRuns.Event>, key: BlockKey)
    requires FecRuns.ValidRun(reg, w, evs) && |evs| > 0 && key in reg && Brings(evs[0], key)
    requires FecRuns.OneBlock(reg, FecRuns.Run(reg, w, evs, 1), key, FecRuns.Arrivals(evs, key, 1), evs[0].deadline)
    ensures var ds := FecRuns.Step(reg, FecRuns.Run(reg, w, evs, 0).world, evs[0]).deliveries;
            FecRuns.For(ds, key) == if Completes(reg[key], evs, key, 0) then [Delivery(key, Content(reg[key]))] else []
  {
    var ds := FecRuns.Step(reg, w, evs[0]).deliveries;
    assert FecRuns.Run(reg, w, evs, 1).deliveries == [] + ds == ds;
    assert FecRuns.Arrivals(evs, key, 0) == {};
    NothingComplete(reg[key]);
  }

  lemma NothingComplete(b: Block)
    ensures !Complete(b, {})
  {
    assert ParityPart(b, {}) == {};
  }

  // ---------------------------------------------------------------------
  // The deadline.

  /** The deliveries of an answer: the frames of its blocks, block after block. */
  ghost predicate Delivers(o: Outcome, ds: seq<Delivery>) { o.out == Joined(ds) && o.done == KeysOf(ds) }

  /** The arrived data of the block is handed on in one piece, and once. */
  ghost predicate HandsOnPart(o: Outcome, key: BlockKey, part: seq<Frame>) {
    exists ds :: Delivers(o, ds) && FecRuns.For(ds, key) == [Delivery(key, part)]
  }

  /**
   A block that is still incomplete when a tick reaches its deadline: the tick hands on what arrived of it, in
   block order. That is all of it when every data frame arrived, parity or not.
   */
  lemma DeadlineHandsOn(lib: Library, k: nat, reg: Registry, w: World, d: Dec, acts: seq<Act>, evs: seq<FecRuns.Event>,
                        key: BlockKey, n: nat)
    requires Honest(lib, k, reg, w, d, acts, evs) && n < |acts| && Opens(d, acts, evs, key, n)
    requires evs[n].Expiry? && evs[n].now >= evs[0].deadline
    requires key in reg ==> !Complete(reg[key], FecRuns.Arrivals(evs, key, n))
    ensures key in reg
    ensures var arrived := FecRuns.Arrivals(evs, key, n);
            && HandsOnPart(Answer(lib, d, acts, n), key, Partial(reg[key], arrived, |reg[key].data|))
            && (DataPart(reg[key], arrived) == Range(|reg[key].data|) ==>
                  HandsOnPart(Answer(lib, d, acts, n), key, Content(reg[key])))
  {
    AnswerFollows(lib, k, reg, w, d, acts, evs, n);
    OpensPhases(lib, k, reg, w, d, acts, evs, key, n);
    var v, arrived := FecRuns.Run(reg, w, evs, n).world, FecRuns.Arrivals(evs, key, n);
    FecRuns.PhasesAtDeadline(reg, v, key, arrived, evs[0].deadline, evs[n].now, evs[n].order);
    assert Delivers(Answer(lib, d, acts, n), FecRuns.Step(reg, v, evs[n]).deliveries);
  }

  // ---------------------------------------------------------------------
  // A block that comes too late, among any frames at all.

  /** No buffer, and a block of the stream with this number or a later one has been flushed. */
  ghost predicate TooLate(d: Dec, key: BlockKey) { key !in d.blocks && Last(d, StreamOf(key)) >= key.id }

  lemma LateStays(d: Dec, o: Outcome, key: BlockKey)
    requires Orderly(d, o) && TooLate(d, key)
    ensures TooLate(o.dec, key) && key !in o.done
  {
    forall i | 0 <= i < |o.done| ensures o.done[i] != key {
      assert Flushed(d, o, o.done[i]);
    }
  }

  /** The points of a run at which the block is too late, and the acts that flush it. */
  ghost function Late(lib: Library, d: Dec, acts: seq<Act>, key: BlockKey): nat -> bool
    requires Sound(d)
  {
    (n: nat) => n <= |acts| && TooLate(Run(lib, d, acts, n).dec, key)
  }

  ghost function Flushes(lib: Library, d: Dec, acts: seq<Act>, key: BlockKey): nat -> bool
    requires Sound(d)
  {
    (n: nat) => n < |acts| && key in Answer(lib, d, acts, n).done
  }

  /** A flushed block is too late from the next act on; a late one stays late and is not flushed. */
  ghost predicate BarsAt(flushes: nat -> bool, late: nat -> bool, n: nat) {
    (flushes(n) ==> late(n + 1)) && (late(n) ==> late(n + 1) && !flushes(n))
  }

  ghost predicate Bars(flushes: nat -> bool, late: nat -> bool, len: nat) {
    forall n: nat :: n < len ==> BarsAt(flushes, late, n)
  }

  lemma ActBars(lib: Library, d: Dec, acts: seq<Act>, key: BlockKey, n: nat)
    requires Sound(d) && n < |acts|
    ensures BarsAt(Flushes(lib, d, acts, key), Late(lib, d, acts, key), n)
  {
    var e := Run(lib, d, acts, n).dec;
    var o := Do(lib, e, acts[n]);
    DoOrderly(lib, e, acts[n]);
    if TooLate(e, key) { LateStays(e, o, key); }
    if key in o.done { FlushedLate(e, o, key); }
  }

  lemma FlushedLate(d: Dec, o: Outcome, key: BlockKey)
    requires Orderly(d, o) && key in o.done
    ensures TooLate(o.dec, key)
  {
    var i :| 0 <= i < |o.done| && o.done[i] == key;
    assert Flushed(d, o, o.done[i]);
  }

  lemma RunBars(lib: Library, d: Dec, acts: seq<Act>, key: BlockKey)
    requires Sound(d)
    ensures Bars(Flushes(lib, d, acts, key), Late(lib, d, acts, key), |acts|)
  {
    forall n: nat | n < |acts| ensures BarsAt(Flushes(lib, d, acts, key), Late(lib, d, acts, key), n) {
      ActBars(lib, d, acts, key, n);
    }
  }

  lemma StaysBarred(flushes: nat -> bool, late: nat -> bool, len: nat, m: nat, n: nat)
    requires Bars(flushes, late, len) && m <= n < len && late(m)
    ensures late(n) && !flushes(n)
  {
    forall i: nat | m <= i < n && late(i) ensures late(i + 1) {
      assert BarsAt(flushes, late, i);
    }
    Onward(late, m, n);
    assert BarsAt(flushes, late, n);
  }

  lemma BarredOnce(flushes: nat -> bool, late: nat -> bool, len: nat, i: nat, j: nat)
    requires Bars(flushes, late, len) && i < j < len && flushes(i)
    ensures !flushes(j)
  {
    assert BarsAt(flushes, late, i);
    StaysBarred(flushes, late, len, i + 1, j);
  }

  /** Once a block is too late it stays so, and no act flushes it ever again, whatever frames arrive. */
  lemma NeverHandedOn(lib: Library, d: Dec, acts: seq<Act>, key: BlockKey, m: nat, n: nat)
    requires Sound(d) && m <= n < |acts| && Late(lib, d, acts, key)(m)
    ensures Late(lib, d, acts, key)(n) && !Flushes(lib, d, acts, key)(n)
  {
    RunBars(lib, d, acts, key);
    StaysBarred(Flushes(lib, d, acts, key), Late(lib, d, acts, key), |acts|, m, n);
  }

  /** Two acts do not flush the same block, whatever frames arrive. */
  lemma NotTwice(lib: Library, d: Dec, acts: seq<Act>, key: BlockKey, i: nat, j: nat)
    requires Sound(d) && i < j < |acts| && Flushes(lib, d, acts, key)(i)
    ensures !Flushes(lib, d, acts, key)(j)
  {
    RunBars(lib, d, acts, key);
    BarredOnce(Flushes(lib, d, acts, key), Late(lib, d, acts, key), |acts|, i, j);
  }

  /** When an act flushes a block, every earlier block of the stream that has no buffer then is too late. */
  lemma LaterBlockBars(lib: Library, d: Dec, acts: seq<Act>, key: BlockKey, earlier: BlockKey, n: nat)
    requires Sound(d) && n < |acts| && Flushes(lib, d, acts, key)(n)
    requires StreamOf(earlier) == StreamOf(key) && earlier.id <= key.id
    requires earlier !in Run(lib, d, acts, n + 1).dec.blocks
    ensures Late(lib, d, acts, earlier)(n + 1)
  {
    ActBars(lib, d, acts, key, n);
  }

  // ---------------------------------------------------------------------
  // When a block is handed on.

  /** Some act up to act n flushes the block. */
  ghost predicate HandedOnBy(lib: Library, d: Dec, acts: seq<Act>, key: BlockKey, n: nat)
    requires Sound(d) && n < |acts|
  {
    exists j: nat :: j <= n && key in Answer(lib, d, acts, j).done
  }

  lemma {:induction false} CompletedAt(b: Block, evs: seq<FecRuns.Event>, key: BlockKey, n: nat) returns (j: nat)
    requires n <= |evs| && Complete(b, FecRuns.Arrivals(evs, key, n))
    ensures j < n && Completes(b, evs, key, j)
  {
    if n == 0 {
      NothingComplete(b);
    } else if Complete(b, FecRuns.Arrivals(evs, key, n - 1)) {
      j := CompletedAt(b, evs, key, n - 1);
    } else {
      j := n - 1;
    }
  }

  lemma OpensEarlier(d: Dec, acts: seq<Act>, evs: seq<FecRuns.Event>, key: BlockKey, n: nat, j: nat)
    requires Opens(d, acts, evs, key, n) && 0 < j <= n
    ensures Opens(d, acts, evs, key, j)
  {}

  lemma PartIsFlushed(o: Outcome, key: BlockKey, part: seq<Frame>)
    requires HandsOnPart(o, key, part)
    ensures key in o.done
  {
    var ds :| Delivers(o, ds) && FecRuns.For(ds, key) == [Delivery(key, part)];
    ForKeys(ds, key);
  }

  lemma UnseenHandedOn(lib: Library, k: nat, reg: Registry, w: World, d: Dec, acts: seq<Act>, evs: seq<FecRuns.Event>,
                       key: BlockKey, n: nat)
    requires Honest(lib, k, reg, w, d, acts, evs) && n < |acts| && Opens(d, acts, evs, key, n)
    requires evs[n].Expiry? && evs[n].now >= evs[0].deadline
    ensures HandedOnBy(lib, d, acts, key, n)
  {
    OpensPhases(lib, k, reg, w, d, acts, evs, key, n);
    if Complete(reg[key], FecRuns.Arrivals(evs, key, n)) {
      var j := CompletedAt(reg[key], evs, key, n);
      OpensEarlier(d, acts, evs, key, n, j + 1);
      ErasureRoundTrip(lib, k, reg, w, d, acts, evs, key, j);
      assert key in Answer(lib, d, acts, j).done;
    } else {
      DeadlineHandsOn(lib, k, reg, w, d, acts, evs, key, n);
      PartIsFlushed(Answer(lib, d, acts, n), key, Partial(reg[key], FecRuns.Arrivals(evs, key, n), |reg[key].data|));
    }
  }

  /**
   A block for which the decoder has no buffer when its first frame arrives is handed on by its deadline exactly when
   no block of its stream with its number or a later one was flushed before.
   */
  lemma HandedOnIffNotBarred(lib: Library, k: nat, reg: Registry, w: World, d: Dec, acts: seq<Act>,
                             evs: seq<FecRuns.Event>, key: BlockKey, n: nat)
    requires Honest(lib, k, reg, w, d, acts, evs) && 0 < n < |acts| && key !in d.blocks
    requires Brings(evs[0], key) && (forall j :: 0 <= j < n && evs[j].Expiry? ==> evs[j].now < evs[0].deadline)
    requires evs[n].Expiry? && evs[n].now >= evs[0].deadline
    ensures HandedOnBy(lib, d, acts, key, n) <==> Last(d, StreamOf(key)) < key.id
  {
    if Last(d, StreamOf(key)) < key.id {
      UnseenHandedOn(lib, k, reg, w, d, acts, evs, key, n);
    } else {
      BarredNotHandedOn(lib, d, acts, key, n);
    }
  }

  lemma BarredNotHandedOn(lib: Library, d: Dec, acts: seq<Act>, key: BlockKey, n: nat)
    requires Sound(d) && n < |acts| && TooLate(d, key)
    ensures !HandedOnBy(lib, d, acts, key, n)
  {
    forall j: nat | j <= n ensures key !in Answer(lib, d, acts, j).done {
      NeverHandedOn(lib, d, acts, key, 0, j);
    }
  }

  /** What every step keeps holds from one point of a run to every later one. */
  lemma {:induction false} Onward(kept: nat -> bool, m: nat, n: nat)
    requires m <= n && kept(m) && forall i: nat :: m <= i < n && kept(i) ==> kept(i + 1)
    ensures kept(n)
    decreases n - m
  {
    if m < n { Onward(kept, m + 1, n); }
  }

  // ---------------------------------------------------------------------
  // Nothing foreign comes out.

  /** The frame stands in a block that this step flushed. */
  ghost predicate FromBlock(reg: Registry, done: seq<BlockKey>, f: Frame) {
    exists i :: 0 <= i < |done| && done[i] in reg && f in Content(reg[done[i]])
  }

  lemma {:induction false} JoinedFrom(reg: Registry, ds: seq<Delivery>, f: Frame)
    requires f in Joined(ds) && forall i :: 0 <= i < |ds| ==> FecRuns.Genuine(reg, ds[i])
    ensures FromBlock(reg, KeysOf(ds), f)
  {
    var init, x := ds[..|ds| - 1], ds[|ds| - 1];
    assert FecRuns.Genuine(reg, x);
    if f in x.frames {
      assert KeysOf(ds)[|ds| - 1] == x.key;
    } else {
      JoinedFrom(reg, init, f);
      var i :| 0 <= i < |init| && KeysOf(init)[i] in reg && f in Content(reg[KeysOf(init)[i]]);
      assert KeysOf(ds)[i] == KeysOf(init)[i];
    }
  }

  /**
   In every honest run, whatever an act hands on is the frame it brought, outside any block, or content of a block it
   flushes.
   */
  lemma HandedOnGenuine(lib: Library, k: nat, reg: Registry, w: World, d: Dec, acts: seq<Act>, evs: seq<FecRuns.Event>,
                        n: nat, f: Frame)
    requires Honest(lib, k, reg, w, d, acts, evs) && n < |acts| && f in Answer(lib, d, acts, n).out
    ensures (acts[n].Received? && evs[n].Aside? && f == acts[n].f) || FromBlock(reg, Answer(lib, d, acts, n).done, f)
  {
    hide Answer;
    hide Honest;
    AnswerFollows(lib, k, reg, w, d, acts, evs, n);
    EventValid(lib, k, reg, w, d, acts, evs, n);
    var v := FecRuns.Run(reg, w, evs, n).world;
    FecRuns.StepGenuine(reg, v, evs[n]);
    if !(acts[n].Received? && evs[n].Aside?) { JoinedFrom(reg, FecRuns.Step(reg, v, evs[n]).deliveries, f); }
  }

  lemma EventValid(lib: Library, k: nat, reg: Registry, w: World, d: Dec, acts: seq<Act>, evs: seq<FecRuns.Event>,
                   n: nat)
    requires Honest(lib, k, reg, w, d, acts, evs) && n < |acts|
    ensures |evs| == |acts| && forall j :: 0 <= j < |evs| ==> FecRuns.ValidEvent(reg, evs[j])
  {}
}
