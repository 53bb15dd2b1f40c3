/** Decoder runs: over any frames at all, and over honest traffic. */
module FecDecoderRuns {
  import opened Bytes
  import opened Erasure
  import opened Frames
  import opened FecBlock
  import opened FecSizing
  import opened FecDecoder
  import opened FecReassembly
  import FecRuns
  import PathLedger

  /** Receive: any frame on any path. Ticked: a tick visiting the given blocks. */
  datatype Act = Received(path: string, f: Frame, now: int) | Ticked(now: int, order: seq<BlockKey>)

  ghost function Do(lib: Library, d: Dec, act: Act): Outcome
    requires Sound(d)
  {
    match act
    case Received(path, f, now) => Push(lib, d, path, f, now)
    case Ticked(now, order) => Tick(d, now, order)
  }

  // ---------------------------------------------------------------------
  // Any frames: a block is flushed at most once and never reopened.

  /** What a step may do to the table and the flush marks. */
  ghost predicate Orderly(d: Dec, o: Outcome) {
    && Sound(o.dec)
    && (forall s :: Last(o.dec, s) >= Last(d, s))
    && (forall key :: key in o.dec.blocks ==> key in d.blocks || Last(d, StreamOf(key)) < key.id)
    && (forall i :: 0 <= i < |o.done| ==> Flushed(d, o, o.done[i]))
    && (forall i, j :: 0 <= i < j < |o.done| ==> o.done[i] != o.done[j])
  }

  ghost predicate Flushed(d: Dec, o: Outcome, key: BlockKey) {
    && key !in o.dec.blocks && Last(o.dec, StreamOf(key)) >= key.id
    && (key in d.blocks || Last(d, StreamOf(key)) < key.id)
  }

  lemma FlushOrderly(d: Dec, key: BlockKey)
    requires Sound(d) && key in d.blocks
    ensures Orderly(d, Flush(d, key))
  {}

  lemma DeliverOrderly(lib: Library, d: Dec, key: BlockKey)
    requires Sound(d) && key in d.blocks
    ensures Orderly(d, MaybeDeliver(lib, d, key))
  {
    var st := d.blocks[key];
    if !(st.k == 0 || |st.data| + |st.parity| < st.k) {
      if |st.data| == st.k {
        FlushOrderly(d, key);
      } else {
        ReconstructOrderly(lib, d, key);
      }
    }
  }

  lemma ReconstructOrderly(lib: Library, d: Dec, key: BlockKey)
    requires Sound(d) && key in d.blocks
    ensures Orderly(d, Reconstruct(lib, d, key))
  {
    var st := d.blocks[key];
    var (code, cache) := CodeFor(lib, d.cache, st.k, st.p);
    if code.None? || lib.rebuild(code.value, HeldShards(st)).None? {
      IdleOrderly(d, Reconstruct(lib, d, key));
    } else {
      RefilledOrderly(d, key, cache, lib.rebuild(code.value, HeldShards(st)).value);
    }
  }

  lemma RefilledOrderly(d: Dec, key: BlockKey, cache: map<nat, Code>, word: seq<Shard>)
    requires Sound(d) && key in d.blocks
    ensures Orderly(d, Flush(Refilled(d, key, cache, word), key))
  {
    var st := d.blocks[key];
    FilledOrderly(d, Refilled(d, key, cache, word), key, st, Filled(st, word, |st.seqs|));
  }

  lemma FilledOrderly(d: Dec, e: Dec, key: BlockKey, st: Held, data: map<U32, seq<Byte>>)
    requires Sound(d) && key in d.blocks && WellFormed(st) && e.lastFlushed == d.lastFlushed
    requires e.blocks == d.blocks[key := st.(data := data)]
    ensures Orderly(d, Flush(e, key))
  {
    assert Sound(e);
    FlushOrderly(e, key);
  }

  lemma PushOrderly(lib: Library, d: Dec, key: BlockKey, f: Frame, deadline: int)
    requires Sound(d)
    ensures Orderly(d, PushBlock(lib, d, key, f, deadline))
  {
    PlaceSound(d, key, f, deadline);
    match Place(d, key, f, deadline)
    case Refused(e) =>
    case Kept(e) =>
      DeliverOrderly(lib, e, key);
      KeptOrderly(d, e, key, MaybeDeliver(lib, e, key));
  }

  lemma KeptOrderly(d: Dec, e: Dec, key: BlockKey, o: Outcome)
    requires Orderly(e, o) && e.lastFlushed == d.lastFlushed
    requires forall other :: other in e.blocks ==> other in d.blocks || other == key
    requires key in d.blocks || Last(d, StreamOf(key)) < key.id
    ensures Orderly(d, o)
  {
    forall i | 0 <= i < |o.done| ensures Flushed(d, o, o.done[i]) {
      assert Flushed(e, o, o.done[i]);
    }
  }

  lemma {:induction false} FlushAllOrderly(d: Dec, order: seq<BlockKey>)
    requires Sound(d)
    ensures Orderly(d, FlushAll(d, order))
    ensures FlushAll(d, order).dec.blocks.Keys <= d.blocks.Keys
    decreases |order|
  {
    if order != [] {
      FlushAllOrderly(d, order[..|order| - 1]);
      var before, key := FlushAll(d, order[..|order| - 1]), order[|order| - 1];
      if key in before.dec.blocks { FlushMoreOrderly(d, before, key); }
    }
  }

  lemma FlushMoreOrderly(d: Dec, before: Outcome, key: BlockKey)
    requires Orderly(d, before) && before.dec.blocks.Keys <= d.blocks.Keys && key in before.dec.blocks
    ensures var o := Flush(before.dec, key);
            && Orderly(d, Outcome(o.dec, before.out + o.out, before.done + o.done))
            && o.dec.blocks.Keys <= d.blocks.Keys
  {
    var o := Flush(before.dec, key);
    FlushOrderly(before.dec, key);
    var both := Outcome(o.dec, before.out + o.out, before.done + o.done);
    forall i | 0 <= i < |both.done| ensures Flushed(d, both, both.done[i]) {
      if i < |before.done| { assert Flushed(d, before, before.done[i]); }
    }
    forall i, j | 0 <= i < j < |both.done| ensures both.done[i] != both.done[j] {
      if j == |before.done| { assert Flushed(d, before, before.done[i]); }
    }
  }

  lemma DoOrderly(lib: Library, d: Dec, act: Act)
    requires Sound(d)
    ensures Orderly(d, Do(lib, d, act))
  {
    match act
    case Received(path, f, now) => ReceiveOrderly(lib, d, path, f, now);
    case Ticked(now, order) => TickOrderly(d, now, order);
  }

  lemma ReceiveOrderly(lib: Library, d: Dec, path: string, f: Frame, now: int)
    requires Sound(d)
    ensures Orderly(d, Push(lib, d, path, f, now))
  {
    hide PushBlock;
    hide Orderly;
    if (IsPass(f) && !IsParity(f)) || !Enabled(d.params) || (!IsParity(f) && f.blockSeq == 0) {
      IdleOrderly(d, Push(lib, d, path, f, now));
    } else {
      var key, deadline := KeyOf(d.params, path, f), now + d.params.timeout;
      PushOrderly(lib, d, key, f, deadline);
      assert Push(lib, d, path, f, now) == PushBlock(lib, d, key, f, deadline);
    }
  }

  lemma IdleOrderly(d: Dec, o: Outcome)
    requires Sound(d) && o.dec.blocks == d.blocks && o.dec.lastFlushed == d.lastFlushed && o.done == []
    ensures Orderly(d, o)
  {}

  lemma TickOrderly(d: Dec, now: int, order: seq<BlockKey>)
    requires Sound(d)
    ensures Orderly(d, Tick(d, now, order))
  {
    var aged := d.(pathSeq := map s | s in d.pathSeq :: PathLedger.FlushGap(d.pathSeq[s], now));
    FlushAllOrderly(aged, order);
    AgedOrderly(d, aged, FlushAll(aged, order));
  }

  lemma AgedOrderly(d: Dec, aged: Dec, o: Outcome)
    requires Orderly(aged, o) && aged.blocks == d.blocks && aged.lastFlushed == d.lastFlushed
    ensures Orderly(d, o)
  {
    forall i | 0 <= i < |o.done| ensures Flushed(d, o, o.done[i]) {
      assert Flushed(aged, o, o.done[i]);
    }
  }

  /** A run: the decoder, everything handed on, and the keys of all flushed blocks. */
  ghost function Run(lib: Library, d: Dec, acts: seq<Act>, n: nat): (o: Outcome)
    requires Sound(d) && n <= |acts|
    ensures Sound(o.dec)
  {
    if n == 0 then Outcome(d, [], [])
    else
      var before := Run(lib, d, acts, n - 1);
      DoOrderly(lib, before.dec, acts[n - 1]);
      After(before, Do(lib, before.dec, acts[n - 1]))
  }

  ghost function After(before: Outcome, o: Outcome): Outcome {
    Outcome(o.dec, before.out + o.out, before.done + o.done)
  }

  /** Flushed blocks are out of the table, at or below the stream's mark, and listed once each. */
  ghost predicate FlushedOnce(o: Outcome) {
    && (forall i :: 0 <= i < |o.done| ==> Settled(o.dec, o.done[i]))
    && (forall i, j :: 0 <= i < j < |o.done| ==> o.done[i] != o.done[j])
  }

  ghost predicate Settled(d: Dec, key: BlockKey) { key !in d.blocks && Last(d, StreamOf(key)) >= key.id }

  lemma OnceMore(before: Outcome, o: Outcome)
    requires FlushedOnce(before) && Orderly(before.dec, o)
    ensures FlushedOnce(After(before, o))
  {
    var done := before.done + o.done;
    forall i | 0 <= i < |done| ensures Settled(o.dec, done[i]) {
      if i < |before.done| {
        assert Settled(before.dec, before.done[i]);
      } else {
        assert Flushed(before.dec, o, o.done[i - |before.done|]);
      }
    }
    forall i, j | 0 <= i < j < |done| ensures done[i] != done[j] {
      if j >= |before.done| {
        assert Flushed(before.dec, o, o.done[j - |before.done|]);
        if i < |before.done| { assert Settled(before.dec, before.done[i]); }
      }
    }
  }

  ghost predicate MarkRises(d: Dec, e: Dec, s: StreamKey) { Last(e, s) >= Last(d, s) }

  ghost predicate MarksRise(d: Dec, e: Dec) { forall s :: MarkRises(d, e, s) }

  /** FlushedOnce as a value, which an induction over runs carries without unfolding it at every length. */
  ghost function Once(): Outcome -> bool { o => FlushedOnce(o) }

  /** In every run over any frames whatever, no block is flushed twice and none comes back to the table once flushed. */
  lemma FlushOnceNeverReopened(lib: Library, d: Dec, acts: seq<Act>, n: nat)
    requires n <= |acts| && Sound(d)
    ensures Once()(Run(lib, d, acts, n))
  {
    NoneFlushed(lib, d, acts);
    for i := 0 to n
      invariant Once()(Run(lib, d, acts, i))
    {
      OnceNext(lib, d, acts, i);
    }
  }

  lemma NoneFlushed(lib: Library, d: Dec, acts: seq<Act>)
    requires Sound(d)
    ensures Once()(Run(lib, d, acts, 0))
  {}

  lemma OnceNext(lib: Library, d: Dec, acts: seq<Act>, n: nat)
    requires n < |acts| && Sound(d) && Once()(Run(lib, d, acts, n))
    ensures Once()(Run(lib, d, acts, n + 1))
  {
    OnceStep(lib, Run(lib, d, acts, n), acts[n]);
  }

  /** The highest flushed number of a stream never falls, at any step of any run. */
  lemma MarksNeverFall(lib: Library, d: Dec, acts: seq<Act>, n: nat)
    requires n < |acts| && Sound(d)
    ensures MarksRise(Run(lib, d, acts, n).dec, Run(lib, d, acts, n + 1).dec)
  {
    var before, act := Run(lib, d, acts, n), acts[n];
    DoOrderly(lib, before.dec, act);
    OrderlyRises(before.dec, Do(lib, before.dec, act));
  }

  lemma OrderlyRises(d: Dec, o: Outcome)
    requires Orderly(d, o)
    ensures MarksRise(d, o.dec)
  {}

  lemma OnceStep(lib: Library, before: Outcome, act: Act)
    requires Sound(before.dec) && FlushedOnce(before)
    ensures FlushedOnce(After(before, Do(lib, before.dec, act)))
  {
    DoOrderly(lib, before.dec, act);
    OnceMore(before, Do(lib, before.dec, act));
  }

  // ---------------------------------------------------------------------
  // The deadline empties the table.

  lemma {:induction false} FlushAllRemoves(d: Dec, order: seq<BlockKey>)
    ensures FlushAll(d, order).dec.blocks == d.blocks - (set key | key in order)
    decreases |order|
  {
    if order != [] {
      var init, key := order[..|order| - 1], order[|order| - 1];
      FlushAllRemoves(d, init);
      assert order == init + [key];
      assert (set x | x in order) == (set x | x in init) + {key};
    }
  }

  /** A tick past every deadline leaves no block in the table of an enabled decoder. */
  lemma TickEmpties(d: Dec, now: int, order: seq<BlockKey>)
    requires Enabled(d.params) && VisitsOverdue(d, now, order)
    requires forall key :: key in d.blocks ==> Overdue(d, key, now)
    ensures Tick(d, now, order).dec.blocks == map[]
  {
    var aged := d.(pathSeq := map s | s in d.pathSeq :: PathLedger.FlushGap(d.pathSeq[s], now));
    FlushAllRemoves(aged, order);
  }

  // ---------------------------------------------------------------------
  // Honest traffic.

  /** ev is what the act means for the phases: a frame of a registered block, a frame aside, or the tick. */
  ghost predicate Corresponds(lib: Library, reg: Registry, p: Params, act: Act, ev: FecRuns.Event) {
    match act
    case Received(path, f, now) =>
      (ev.Aside? && !IsParity(f) && (IsPass(f) || f.blockSeq == 0))
      || (ev.Arrival? && ev.key == KeyOf(p, path, f) && ev.deadline == now + p.timeout
          && OfBlock(lib, reg, ev.key, ev.i, f))
    case Ticked(now, order) => ev == FecRuns.Expiry(now, order)
  }

  ghost predicate OfBlock(lib: Library, reg: Registry, key: BlockKey, i: nat, f: Frame) {
    key in reg && i < |reg[key].data| + reg[key].p && IsFrame(lib, reg[key], i, f)
  }

  /** A frame of a block is routed to its block. */
  lemma RoutedToBlock(lib: Library, k: nat, reg: Registry, d: Dec, path: string, f: Frame, now: int, key: BlockKey,
                      i: nat, deadline: int)
    requires Sound(d) && Enabled(d.params) && ValidRegistry(lib, k, reg) && OfBlock(lib, reg, key, i, f)
    requires key == KeyOf(d.params, path, f) && deadline == now + d.params.timeout
    ensures Push(lib, d, path, f, now) == PushBlock(lib, d, key, f, deadline)
  {
    assert Registered(lib, k, reg[key], key);
  }

  lemma TracksAged(lib: Library, k: nat, reg: Registry, w: World, d: Dec, e: Dec)
    requires Tracks(lib, k, reg, w, d) && e == d.(pathSeq := e.pathSeq)
    ensures Tracks(lib, k, reg, w, e)
  {
    forall key: BlockKey | key.id > 0 ensures BarOk(w, e, key) {
      assert BarOk(w, d, key);
    }
  }

  /** The step hands on out, flushes what the phases say, and goes on following them. */
  ghost predicate Follow(lib: Library, k: nat, reg: Registry, d: Dec, out: seq<Frame>, o: Outcome, a: Advance) {
    && o.out == out && o.done == KeysOf(a.deliveries)
    && Tracks(lib, k, reg, a.world, o.dec) && o.dec.params == d.params
  }

  lemma AsideFollows(lib: Library, k: nat, reg: Registry, w: World, d: Dec, path: string, f: Frame, now: int)
    requires Tracks(lib, k, reg, w, d) && Sound(d) && !IsParity(f) && (IsPass(f) || f.blockSeq == 0)
    ensures Follow(lib, k, reg, d, [f], Push(lib, d, path, f, now), Advance(w, []))
  {
    TracksAged(lib, k, reg, w, d, Push(lib, d, path, f, now).dec);
  }

  lemma ArrivalFollows(lib: Library, k: nat, reg: Registry, w: World, d: Dec, path: string, f: Frame, now: int,
                       key: BlockKey, i: nat, deadline: int)
    requires ErasureContract(lib) && ValidRegistry(lib, k, reg) && Tracks(lib, k, reg, w, d) && Sound(d)
    requires OfBlock(lib, reg, key, i, f) && key == KeyOf(d.params, path, f) && deadline == now + d.params.timeout
    ensures var a := Arrive(reg, w, key, i, deadline);
            Follow(lib, k, reg, d, Joined(a.deliveries), Push(lib, d, path, f, now), a)
  {
    RoutedToBlock(lib, k, reg, d, path, f, now, key, i, deadline);
    ArriveTracks(lib, k, reg, w, d, key, i, f, deadline);
  }

  lemma TickFollows(lib: Library, k: nat, reg: Registry, w: World, d: Dec, now: int, order: seq<BlockKey>)
    requires ValidRegistry(lib, k, reg) && Tracks(lib, k, reg, w, d)
    ensures var a := Expire(reg, w, order); Follow(lib, k, reg, d, Joined(a.deliveries), Tick(d, now, order), a)
  {
    var aged := d.(pathSeq := map s | s in d.pathSeq :: PathLedger.FlushGap(d.pathSeq[s], now));
    TracksAged(lib, k, reg, w, d, aged);
    FecRuns.ExpireTracks(lib, k, reg, w, aged, order);
  }

  ghost function Expected(act: Act, ev: FecRuns.Event, a: Advance): seq<Frame> {
    if ev.Aside? && act.Received? then [act.f] else Joined(a.deliveries)
  }

  /** The decoder's answer to an honest act is the one the phases give. */
  lemma ActFollows(lib: Library, k: nat, reg: Registry, w: World, d: Dec, act: Act, ev: FecRuns.Event)
    requires ErasureContract(lib) && ValidRegistry(lib, k, reg) && Tracks(lib, k, reg, w, d) && Sound(d)
    requires Corresponds(lib, reg, d.params, act, ev) && FecRuns.ValidEvent(reg, ev)
    ensures var a := FecRuns.Step(reg, w, ev); Follow(lib, k, reg, d, Expected(act, ev, a), Do(lib, d, act), a)
  {
    match act
    case Received(path, f, now) => ReceivedFollows(lib, k, reg, w, d, path, f, now, ev);
    case Ticked(now, order) => TickFollows(lib, k, reg, w, d, now, order);
  }

  lemma ReceivedFollows(lib: Library, k: nat, reg: Registry, w: World, d: Dec, path: string, f: Frame, now: int,
                        ev: FecRuns.Event)
    requires ErasureContract(lib) && ValidRegistry(lib, k, reg) && Tracks(lib, k, reg, w, d) && Sound(d)
    requires Corresponds(lib, reg, d.params, Received(path, f, now), ev) && FecRuns.ValidEvent(reg, ev)
    ensures var a := FecRuns.Step(reg, w, ev);
            Follow(lib, k, reg, d, Expected(Received(path, f, now), ev, a), Push(lib, d, path, f, now), a)
  {
    if ev.Aside? {
      AsideFollows(lib, k, reg, w, d, path, f, now);
    } else {
      var key, i, deadline := ev.key, ev.i, ev.deadline;
      ArrivalFollows(lib, k, reg, w, d, path, f, now, key, i, deadline);
    }
  }

  ghost predicate HonestRun(lib: Library, reg: Registry, p: Params, acts: seq<Act>, evs: seq<FecRuns.Event>) {
    && |evs| == |acts|
    && (forall j :: 0 <= j < |acts| ==> Corresponds(lib, reg, p, acts[j], evs[j]))
    && (forall j :: 0 <= j < |evs| ==> FecRuns.ValidEvent(reg, evs[j]))
  }

  /**
   Through every honest run the decoder's table, flush marks and output are those of the phases: step n hands
   on exactly what the phases deliver at step n, or the frame itself when it belongs to no block.
   */
  lemma {:induction false} HonestRunFollows(lib: Library, k: nat, reg: Registry, d: Dec, w: World, acts: seq<Act>,
                                            evs: seq<FecRuns.Event>, n: nat)
    requires ErasureContract(lib) && ValidRegistry(lib, k, reg) && Tracks(lib, k, reg, w, d) && Sound(d)
    requires HonestRun(lib, reg, d.params, acts, evs) && n <= |acts|
    ensures Tracks(lib, k, reg, FecRuns.Run(reg, w, evs, n).world, Run(lib, d, acts, n).dec)
    ensures Run(lib, d, acts, n).dec.params == d.params
    ensures Run(lib, d, acts, n).done == KeysOf(FecRuns.Run(reg, w, evs, n).deliveries)
    ensures n < |acts| ==>
              var e, v := Run(lib, d, acts, n).dec, FecRuns.Run(reg, w, evs, n).world;
              Do(lib, e, acts[n]).out == Expected(acts[n], evs[n], FecRuns.Step(reg, v, evs[n]))
  {
    hide ErasureContract;
    hide Do;
    hide FecRuns.Step;
    hide Tracks;
    if n > 0 {
      HonestRunFollows(lib, k, reg, d, w, acts, evs, n - 1);
      var e, v, act, ev := Run(lib, d, acts, n - 1).dec, FecRuns.Run(reg, w, evs, n - 1).world, acts[n - 1], evs[n - 1];
      ActFollows(lib, k, reg, v, e, act, ev);
      KeysConcat(FecRuns.Run(reg, w, evs, n - 1).deliveries, FecRuns.Step(reg, v, ev).deliveries);
    }
    if n < |acts| {
      ActFollows(lib, k, reg, FecRuns.Run(reg, w, evs, n).world, Run(lib, d, acts, n).dec, acts[n], evs[n]);
    }
  }

  lemma KeysConcat(a: seq<Delivery>, b: seq<Delivery>)
    ensures KeysOf(a + b) == KeysOf(a) + KeysOf(b)
  {}

  // ---------------------------------------------------------------------
  // What is handed on is what was sent.

  /** The payloads the peer sent, by session and number. */
  type Sent = map<(U64, U32), seq<Byte>>

  predicate Truthful(sent: Sent, f: Frame) {
    (f.session, f.seqNo) in sent && sent[(f.session, f.seqNo)] == f.payload
  }

  ghost predicate TruthfulAll(sent: Sent, out: seq<Frame>) { forall f :: f in out ==> Truthful(sent, f) }

  ghost predicate TruthfulBlocks(sent: Sent, reg: Registry) {
    forall key :: key in reg ==> TruthfulAll(sent, Content(reg[key]))
  }

  lemma {:induction false} JoinedTruthful(sent: Sent, reg: Registry, deliveries: seq<Delivery>)
    requires TruthfulBlocks(sent, reg)
    requires forall i :: 0 <= i < |deliveries| ==> FecRuns.Genuine(reg, deliveries[i])
    ensures TruthfulAll(sent, Joined(deliveries))
  {
    if deliveries != [] {
      var init, x := deliveries[..|deliveries| - 1], deliveries[|deliveries| - 1];
      JoinedTruthful(sent, reg, init);
      assert FecRuns.Genuine(reg, x);
      assert TruthfulAll(sent, Content(reg[x.key]));
    }
  }

  /** Every frame an honest step hands on carries the payload sent under its number. */
  lemma StepTruthful(lib: Library, k: nat, reg: Registry, w: World, d: Dec, act: Act, ev: FecRuns.Event, sent: Sent)
    requires ErasureContract(lib) && ValidRegistry(lib, k, reg) && Tracks(lib, k, reg, w, d) && Sound(d)
    requires Corresponds(lib, reg, d.params, act, ev) && FecRuns.ValidEvent(reg, ev)
    requires TruthfulBlocks(sent, reg) && (ev.Aside? && act.Received? ==> Truthful(sent, act.f))
    ensures TruthfulAll(sent, Do(lib, d, act).out)
  {
    ActFollows(lib, k, reg, w, d, act, ev);
    FecRuns.StepGenuine(reg, w, ev);
    JoinedTruthful(sent, reg, FecRuns.Step(reg, w, ev).deliveries);
  }

  lemma AfterTruthful(lib: Library, k: nat, reg: Registry, w: World, before: Outcome, act: Act, ev: FecRuns.Event,
                      sent: Sent)
    requires ErasureContract(lib) && ValidRegistry(lib, k, reg) && Tracks(lib, k, reg, w, before.dec)
    requires Sound(before.dec)
    requires Corresponds(lib, reg, before.dec.params, act, ev) && FecRuns.ValidEvent(reg, ev)
    requires TruthfulBlocks(sent, reg) && (ev.Aside? && act.Received? ==> Truthful(sent, act.f))
    requires TruthfulAll(sent, before.out)
    ensures TruthfulAll(sent, After(before, Do(lib, before.dec, act)).out)
  {
    StepTruthful(lib, k, reg, w, before.dec, act, ev, sent);
  }

  lemma NoneTruthful(sent: Sent)
    ensures TruthfulAll(sent, [])
  {}

  /** Over every honest run, everything handed on carries the payload sent under its number. */
  lemma {:induction false} RunTruthful(lib: Library, k: nat, reg: Registry, d: Dec, w: World, acts: seq<Act>,
                                       evs: seq<FecRuns.Event>, n: nat, sent: Sent)
    requires ErasureContract(lib) && ValidRegistry(lib, k, reg) && Tracks(lib, k, reg, w, d) && Sound(d)
    requires HonestRun(lib, reg, d.params, acts, evs) && n <= |acts|
    requires TruthfulBlocks(sent, reg)
    requires forall j :: 0 <= j < |acts| && evs[j].Aside? && acts[j].Received? ==> Truthful(sent, acts[j].f)
    ensures TruthfulAll(sent, Run(lib, d, acts, n).out)
  {
    hide TruthfulAll;
    hide TruthfulBlocks;
    hide ErasureContract;
    hide Do;
    hide FecRuns.Step;
    NoneTruthful(sent);
    if n > 0 {
      RunTruthful(lib, k, reg, d, w, acts, evs, n - 1, sent);
      var before, v := Run(lib, d, acts, n - 1), FecRuns.Run(reg, w, evs, n - 1).world;
      HonestRunFollows(lib, k, reg, d, w, acts, evs, n - 1);
      AfterTruthful(lib, k, reg, v, before, acts[n - 1], evs[n - 1], sent);
    }
  }
}
