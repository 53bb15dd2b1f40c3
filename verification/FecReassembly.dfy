/**
 Whole decoder runs over honest traffic. Every block is in one of a few phases; the decoder does exactly
 what the phases say, for any interleaving, duplication, loss and reordering of any number of blocks.
 */
module FecReassembly {
  import opened Bytes
  import opened Erasure
  import opened Frames
  import opened FecBlock
  import opened FecSizing
  import opened FecDecoder
  import opened FecAssembly

  // ---------------------------------------------------------------------
  // Completing one block.

  lemma Incomplete(lib: Library, d: Dec, key: BlockKey, b: Block, arrived: set<nat>)
    requires key in d.blocks && Holding(lib, b, arrived, d.blocks[key]) && !Complete(b, arrived)
    ensures WellFormed(d.blocks[key]) && MaybeDeliver(lib, d, key) == Outcome(d, [], [])
  {
    PartsSize(b, arrived);
  }

  /** The cache holds only codes for k data shards. */
  ghost predicate CacheFor(lib: Library, k: nat, cache: map<nat, Code>) {
    forall p :: p in cache ==> cache[p] == Code(k, p) && lib.supports(k, p)
  }

  lemma RebuildsWord(lib: Library, k: nat, cache: map<nat, Code>, b: Block, arrived: set<nat>, st: Held)
    requires ErasureContract(lib) && CacheFor(lib, k, cache) && ValidBlock(lib, k, b)
    requires Holding(lib, b, arrived, st) && Complete(b, arrived)
    ensures WellFormed(st) && b.p > 0
    ensures var (code, cached) := CodeFor(lib, cache, st.k, st.p);
            && code == Some(Code(k, b.p)) && CacheFor(lib, k, cached)
            && lib.rebuild(code.value, HeldShards(st)) == Some(DataShards(b.data) + ParityShards(lib, b))
  {
    var i :| i in ParityPart(b, arrived);
    assert i in Range(|b.data| + b.p);
    var code, data := Code(k, b.p), DataShards(b.data);
    assert EncodesTo(lib, code, data, MaxLen(b.data));
    ShardsAreFragment(lib, b, arrived, st);
    assert Recovers(lib, code, data, MaxLen(b.data), HeldShards(st));
  }

  /** The lengths of an honest header fit into the rebuilt shards, so no payload is cut short when it is filled in. */
  lemma LengthsFit(lib: Library, k: nat, b: Block, arrived: set<nat>, st: Held, i: nat)
    requires ValidBlock(lib, k, b) && Holding(lib, b, arrived, st) && Complete(b, arrived) && b.p > 0 && i < |st.lens|
    ensures i < |b.data| && st.lens[i] == |b.data[i].payload| <= |DataShards(b.data)[i]| == st.maxLen
  {
    HeaderSeen(lib, b, arrived, st);
    assert MaxLen(b.data) < 0x1_0000;
    hide *;
    LengthAt(b.data, i);
  }

  lemma HeaderSeen(lib: Library, b: Block, arrived: set<nat>, st: Held)
    requires Holding(lib, b, arrived, st) && Complete(b, arrived)
    ensures st.lens == LensOf(b.data) && st.maxLen == MaxLen(b.data)
  {}

  lemma LengthAt(data: seq<Datum>, i: nat)
    requires i < |data| && MaxLen(data) < 0x1_0000
    ensures LensOf(data)[i] == |data[i].payload| <= |DataShards(data)[i]| == MaxLen(data)
  {}

  lemma FilledHolding(lib: Library, b: Block, arrived: set<nat>, st: Held)
    requires Distinct(b) && Fits(b.data, b.p) && Holding(lib, b, arrived, st) && ParityPart(b, arrived) != {}
    ensures WellFormed(st)
    ensures var word := DataShards(b.data) + ParityShards(lib, b);
            Holding(lib, b, arrived + Range(|b.data|), st.(data := Filled(st, word, |b.data|)))
  {
    var k := |b.data|;
    var word, all := DataShards(b.data) + ParityShards(lib, b), arrived + Range(k);
    assert forall i :: 0 <= i < k ==> word[i] == DataShards(b.data)[i];
    FilledHolds(b, arrived, st, word, k);
    AllParity(b, ParityShards(lib, b), arrived, st.parity);
  }

  lemma AllParity(b: Block, shards: seq<Shard>, arrived: set<nat>, parity: map<nat, Shard>)
    requires HoldsParity(b, shards, arrived, parity)
    ensures HoldsParity(b, shards, arrived + Range(|b.data|), parity)
    ensures ParityPart(b, arrived + Range(|b.data|)) == ParityPart(b, arrived)
  {
    var all := arrived + Range(|b.data|);
    assert ParityPart(b, all) == ParityPart(b, arrived);
    forall j: nat ensures HoldsShard(b, shards, all, parity, j) {
      assert HoldsShard(b, shards, arrived, parity, j);
    }
  }

  /** Everything of the block is handed on when all of its data is held. */
  lemma FlushAllData(lib: Library, b: Block, key: BlockKey, arrived: set<nat>, st: Held)
    requires Rising(b) && b.data != [] && key.session == b.session && Holding(lib, b, arrived, st)
    requires DataPart(b, arrived) == Range(|b.data|)
    ensures FlushOut(key, st) == Content(b) && FlushLost(st) == 0
  {
    FlushHandsOn(lib, b, key, arrived, st);
    PartialFull(b, arrived);
  }

  lemma PartialFull(b: Block, arrived: set<nat>)
    requires DataPart(b, arrived) == Range(|b.data|)
    ensures Partial(b, arrived, |b.data|) == Content(b)
  {
    forall i: nat | i < |b.data| ensures i in arrived {
      assert i in DataPart(b, arrived);
    }
    PartialAll(b, arrived, |b.data|);
  }

  lemma RisingDistinct(b: Block)
    requires Rising(b)
    ensures Distinct(b)
  {}

  /** What completing a block leaves: its slot is gone, nothing is lost, and the missing frames count as recovered. */
  ghost predicate Completed(lib: Library, k: nat, d: Dec, key: BlockKey, b: Block, arrived: set<nat>, o: Outcome) {
    && o.out == Content(b) && o.done == [key]
    && o.dec.blocks == d.blocks - {key}
    && o.dec.params == d.params && o.dec.pathSeq == d.pathSeq && o.dec.stats == d.stats
    && o.dec.lastFlushed == (if key.id > Last(d, StreamOf(key)) then d.lastFlushed[StreamOf(key) := key.id]
                             else d.lastFlushed)
    && o.dec.recovered + |DataPart(b, arrived)| == d.recovered + |b.data|
    && CacheFor(lib, k, o.dec.cache)
  }

  lemma CompleteDelivers(lib: Library, k: nat, d: Dec, key: BlockKey, b: Block, arrived: set<nat>)
    requires ErasureContract(lib) && CacheFor(lib, k, d.cache) && ValidBlock(lib, k, b) && key.session == b.session
    requires key in d.blocks && Holding(lib, b, arrived, d.blocks[key]) && Complete(b, arrived)
    ensures WellFormed(d.blocks[key])
    ensures Completed(lib, k, d, key, b, arrived, MaybeDeliver(lib, d, key))
  {
    var st := d.blocks[key];
    RisingDistinct(b);
    PartsSize(b, arrived);
    AllArrived(b, arrived);
    RebuildsWord(lib, k, d.cache, b, arrived, st);
    if |st.data| == st.k {
      FlushAllData(lib, b, key, arrived, st);
    } else {
      RebuildDelivers(lib, k, d, key, b, arrived);
    }
  }

  lemma RebuildDelivers(lib: Library, k: nat, d: Dec, key: BlockKey, b: Block, arrived: set<nat>)
    requires ErasureContract(lib) && CacheFor(lib, k, d.cache) && ValidBlock(lib, k, b) && key.session == b.session
    requires key in d.blocks && Holding(lib, b, arrived, d.blocks[key]) && Complete(b, arrived)
    ensures WellFormed(d.blocks[key])
    ensures Completed(lib, k, d, key, b, arrived, Reconstruct(lib, d, key))
  {
    var st, word := d.blocks[key], DataShards(b.data) + ParityShards(lib, b);
    RisingDistinct(b);
    RebuildsWord(lib, k, d.cache, b, arrived, st);
    FilledHolding(lib, b, arrived, st);
    AllArrived(b, arrived);
    var full := st.(data := Filled(st, word, |b.data|));
    FlushAllData(lib, b, key, arrived + Range(|b.data|), full);
    var (code, cached) := CodeFor(lib, d.cache, st.k, st.p);
    ReconstructIs(lib, d, key, code.value, cached, word, full);
  }

  lemma ReconstructIs(lib: Library, d: Dec, key: BlockKey, code: Code, cached: map<nat, Code>, word: seq<Shard>,
                      full: Held)
    requires key in d.blocks && WellFormed(d.blocks[key])
    requires var st := d.blocks[key];
             && CodeFor(lib, d.cache, st.k, st.p) == (Some(code), cached)
             && lib.rebuild(code, HeldShards(st)) == Some(word)
             && full == st.(data := Filled(st, word, |st.seqs|)) && |full.data| >= |st.data| && FlushLost(full) == 0
    ensures var st, o := d.blocks[key], Reconstruct(lib, d, key);
            && o.out == FlushOut(key, full) && o.done == [key]
            && o.dec == d.(blocks := d.blocks - {key}, cache := cached,
                           recovered := d.recovered + |full.data| - |st.data|,
                           lastFlushed := if key.id > Last(d, StreamOf(key)) then d.lastFlushed[StreamOf(key) := key.id]
                                          else d.lastFlushed)
  {
    assert d.blocks[key := full] - {key} == d.blocks - {key};
  }

  // ---------------------------------------------------------------------
  // Phases.

  /** A block never seen has no phase. Open: some frames arrived, the deadline runs. Done: handed on, for good. */
  datatype Phase = Open(arrived: set<nat>, deadline: int) | Done(arrived: set<nat>)

  type World = map<BlockKey, Phase>
  type Registry = map<BlockKey, Block>

  datatype Delivery = Delivery(key: BlockKey, frames: seq<Frame>)

  datatype Advance = Advance(world: World, deliveries: seq<Delivery>)

  ghost predicate IsOpen(w: World, key: BlockKey) { key in w && w[key].Open? }

  /** A block of the same stream with this number or a later one was already handed on. */
  ghost predicate Barred(w: World, key: BlockKey) {
    exists other :: other in w && Bars(w[other], other, key)
  }

  ghost predicate Bars(phase: Phase, other: BlockKey, key: BlockKey) {
    phase.Done? && StreamOf(other) == StreamOf(key) && other.id >= key.id
  }

  /** The phase with frame i arrived; the first frame of a block starts its deadline. */
  ghost function WithArrival(w: World, key: BlockKey, i: nat, deadline: int): (phase: Phase)
    ensures phase.Open? && i in phase.arrived
  {
    Open(Before(w, key, deadline).arrived + {i}, Before(w, key, deadline).deadline)
  }

  ghost function Before(w: World, key: BlockKey, deadline: int): (phase: Phase)
    ensures phase.Open?
  {
    if IsOpen(w, key) then w[key] else Open({}, deadline)
  }

  /** A complete block is handed on whole; an incomplete one stays open. */
  ghost function Settle(reg: Registry, w: World, key: BlockKey, phase: Phase): Advance
    requires key in reg
  {
    if Complete(reg[key], phase.arrived)
    then Advance(w[key := Done(phase.arrived)], [Delivery(key, Content(reg[key]))])
    else Advance(w[key := phase], [])
  }

  /** Frame i of the block arrives: a block is opened unless barred, and handed on the moment it is complete. */
  ghost function Arrive(reg: Registry, w: World, key: BlockKey, i: nat, deadline: int): Advance
    requires key in reg
  {
    if !IsOpen(w, key) && Barred(w, key) then Advance(w, []) else Settle(reg, w, key, WithArrival(w, key, i, deadline))
  }

  /** The deadline of an open block passes: what arrived is handed on in block order. */
  ghost function ExpireOne(reg: Registry, w: World, key: BlockKey): Advance
    requires key in reg && IsOpen(w, key)
  {
    Advance(w[key := Done(w[key].arrived)],
            [Delivery(key, Partial(reg[key], w[key].arrived, |reg[key].data|))])
  }

  ghost function Expire(reg: Registry, w: World, order: seq<BlockKey>): Advance
    decreases |order|
  {
    if order == [] then Advance(w, [])
    else
      var before := Expire(reg, w, order[..|order| - 1]);
      var key := order[|order| - 1];
      if key !in reg || !IsOpen(before.world, key) then before
      else
        var a := ExpireOne(reg, before.world, key);
        Advance(a.world, before.deliveries + a.deliveries)
  }

  function Joined(deliveries: seq<Delivery>): seq<Frame> {
    if deliveries == [] then []
    else Joined(deliveries[..|deliveries| - 1]) + deliveries[|deliveries| - 1].frames
  }

  function KeysOf(deliveries: seq<Delivery>): seq<BlockKey> {
    seq(|deliveries|, i requires 0 <= i < |deliveries| => deliveries[i].key)
  }

  lemma JoinedSnoc(a: seq<Delivery>, x: Delivery)
    ensures Joined(a + [x]) == Joined(a) + x.frames
    ensures KeysOf(a + [x]) == KeysOf(a) + [x.key]
  {
    assert (a + [x])[..|a|] == a;
  }

  lemma JoinedOne(x: Delivery)
    ensures Joined([x]) == x.frames && KeysOf([x]) == [x.key]
  {
    JoinedSnoc([], x);
    assert [] + [x] == [x];
  }

  // ---------------------------------------------------------------------
  // The decoder follows the phases.

  ghost predicate ValidRegistry(lib: Library, k: nat, reg: Registry) {
    forall key :: key in reg ==> Registered(lib, k, reg[key], key)
  }

  ghost predicate Registered(lib: Library, k: nat, b: Block, key: BlockKey) {
    ValidBlock(lib, k, b) && key.id == b.id && key.session == b.session
  }

  ghost predicate Due(st: Held, deadline: int) { st.deadline.Some? && st.deadline.value == deadline }

  /** One open block: its buffer holds exactly what arrived, and it is not complete. */
  ghost predicate Follows(lib: Library, b: Block, phase: Phase, st: Held) {
    && phase.Open? && Holding(lib, b, phase.arrived, st) && Due(st, phase.deadline)
    && phase.arrived != {} && !Complete(b, phase.arrived)
  }

  /** The decoder's table holds exactly the open blocks, each buffer as ok says. */
  ghost predicate Table(ok: (BlockKey, Phase, Held) -> bool, w: World, blocks: map<BlockKey, Held>) {
    && (forall key :: key in blocks <==> IsOpen(w, key))
    && (forall key :: key in blocks ==> key in w && ok(key, w[key], blocks[key]))
  }

  ghost predicate TracksBlocks(lib: Library, reg: Registry, w: World, blocks: map<BlockKey, Held>) {
    && (forall key :: key in w ==> key in reg)
    && Table(Fit(lib, reg), w, blocks)
  }

  ghost function Fit(lib: Library, reg: Registry): (BlockKey, Phase, Held) -> bool {
    (key, phase, st) => key in reg && Follows(lib, reg[key], phase, st)
  }

  lemma TableAt(lib: Library, reg: Registry, w: World, blocks: map<BlockKey, Held>, key: BlockKey)
    requires TracksBlocks(lib, reg, w, blocks)
    ensures key in blocks <==> IsOpen(w, key)
    ensures key in blocks ==> key in reg && Follows(lib, reg[key], w[key], blocks[key])
  {
    if key in blocks { assert Fit(lib, reg)(key, w[key], blocks[key]); }
  }

  lemma TablePut(ok: (BlockKey, Phase, Held) -> bool, w: World, blocks: map<BlockKey, Held>, key: BlockKey,
                 phase: Phase, st: Held)
    requires Table(ok, w, blocks) && phase.Open? && ok(key, phase, st)
    ensures Table(ok, w[key := phase], blocks[key := st])
  {
    var v, held := w[key := phase], blocks[key := st];
    forall other ensures other in held <==> IsOpen(v, other) {
      assert other in blocks <==> IsOpen(w, other);
    }
  }

  lemma TableDrop(ok: (BlockKey, Phase, Held) -> bool, w: World, blocks: map<BlockKey, Held>, key: BlockKey,
                  arrived: set<nat>)
    requires Table(ok, w, blocks)
    ensures Table(ok, w[key := Done(arrived)], blocks - {key})
  {
    var v, held := w[key := Done(arrived)], blocks - {key};
    forall other ensures other in held <==> IsOpen(v, other) {
      assert other in blocks <==> IsOpen(w, other);
    }
  }

  ghost predicate TracksBars(w: World, d: Dec) {
    forall key: BlockKey :: key.id > 0 ==> BarOk(w, d, key)
  }

  ghost predicate Tracks(lib: Library, k: nat, reg: Registry, w: World, d: Dec) {
    && Enabled(d.params)
    && CacheFor(lib, k, d.cache)
    && TracksBlocks(lib, reg, w, d.blocks)
    && TracksBars(w, d)
  }

  /** The highest flushed number of the stream bars exactly the barred blocks. */
  ghost predicate BarOk(w: World, d: Dec, key: BlockKey) {
    Barred(w, key) <==> Last(d, StreamOf(key)) >= key.id
  }

  lemma FreshTracks(lib: Library, k: nat, reg: Registry, p: Params)
    requires p.parity > 0
    ensures Tracks(lib, k, reg, map[], FecDecoder.Fresh(p))
  {}

  /** Handing a block on bars it and everything before it, and nothing else. */
  lemma DoneBars(w: World, d: Dec, key: BlockKey, arrived: set<nat>, last: map<StreamKey, U32>, other: BlockKey)
    requires BarOk(w, d, other)
    requires last == if key.id > Last(d, StreamOf(key)) then d.lastFlushed[StreamOf(key) := key.id] else d.lastFlushed
    requires key in w ==> w[key].Open?
    ensures BarOk(w[key := Done(arrived)], d.(lastFlushed := last), other)
  {
    var v := w[key := Done(arrived)];
    if Barred(w, other) {
      var x :| x in w && Bars(w[x], x, other);
      assert x in v && Bars(v[x], x, other);
    }
    if Bars(Done(arrived), key, other) {
      assert key in v && Bars(v[key], key, other);
    }
    if Barred(v, other) {
      var x :| x in v && Bars(v[x], x, other);
      assert x == key || (x in w && Bars(w[x], x, other));
    }
  }

  /** Opening or extending an open block bars nothing. */
  lemma OpenBars(w: World, d: Dec, key: BlockKey, phase: Phase, other: BlockKey)
    requires BarOk(w, d, other) && phase.Open? && (key in w ==> w[key].Open?)
    ensures BarOk(w[key := phase], d, other)
  {
    var v := w[key := phase];
    if Barred(w, other) {
      var x :| x in w && Bars(w[x], x, other);
      assert x in v && Bars(v[x], x, other);
    }
    if Barred(v, other) {
      var x :| x in v && Bars(v[x], x, other);
      assert x in w && Bars(w[x], x, other);
    }
  }

  lemma AddedHolds(lib: Library, k: nat, b: Block, arrived: set<nat>, st: Held, i: nat, f: Frame, deadline: int)
    requires ErasureContract(lib) && ValidBlock(lib, k, b) && i < |b.data| + b.p && IsFrame(lib, b, i, f)
    requires Holding(lib, b, arrived, st)
    ensures Added(st, f, deadline).Some?
    ensures Holding(lib, b, arrived + {i}, Added(st, f, deadline).value)
  {
    if i < |b.data| {
      RisingDistinct(b);
      AddDataHolds(lib, b, arrived, st, i, f, deadline);
    } else {
      AddParityHolds(lib, b, arrived, st, i, f, deadline);
    }
  }

  /** The first frame starts the deadline; later ones leave it. */
  lemma AddedDeadline(arrived: set<nat>, st: Held, f: Frame, deadline: int)
    requires |st.data| + |st.parity| == |arrived| && (arrived == {} ==> st.k == 0)
    requires Added(st, f, deadline).Some?
    ensures if arrived == {} then Due(Added(st, f, deadline).value, deadline)
            else Added(st, f, deadline).value.deadline == st.deadline
  {}

  lemma HoldingCounts(lib: Library, b: Block, arrived: set<nat>, st: Held)
    requires Holding(lib, b, arrived, st)
    ensures |st.data| + |st.parity| == |arrived| && (arrived == {} ==> st.k == 0)
  {
    PartsSize(b, arrived);
  }

  lemma BlocksOpened(lib: Library, reg: Registry, w: World, blocks: map<BlockKey, Held>, key: BlockKey, phase: Phase,
                     st: Held)
    requires TracksBlocks(lib, reg, w, blocks) && key in reg && Follows(lib, reg[key], phase, st)
    ensures TracksBlocks(lib, reg, w[key := phase], blocks[key := st])
  {
    TablePut(Fit(lib, reg), w, blocks, key, phase, st);
  }

  lemma BlocksClosed(lib: Library, reg: Registry, w: World, blocks: map<BlockKey, Held>, key: BlockKey,
                     arrived: set<nat>)
    requires TracksBlocks(lib, reg, w, blocks) && key in reg
    ensures TracksBlocks(lib, reg, w[key := Done(arrived)], blocks - {key})
  {
    TableDrop(Fit(lib, reg), w, blocks, key, arrived);
  }

  lemma BarsOpened(w: World, d: Dec, key: BlockKey, phase: Phase, e: Dec)
    requires TracksBars(w, d) && phase.Open? && (key in w ==> w[key].Open?) && e.lastFlushed == d.lastFlushed
    ensures TracksBars(w[key := phase], e)
  {
    forall other: BlockKey | other.id > 0 ensures BarOk(w[key := phase], e, other) {
      assert BarOk(w, d, other);
      OpenBars(w, d, key, phase, other);
      assert BarOk(w[key := phase], d, other);
    }
  }

  lemma BarsClosed(w: World, d: Dec, key: BlockKey, arrived: set<nat>, e: Dec)
    requires TracksBars(w, d) && (key in w ==> w[key].Open?)
    requires e.lastFlushed == if key.id > Last(d, StreamOf(key)) then d.lastFlushed[StreamOf(key) := key.id]
             else d.lastFlushed
    ensures TracksBars(w[key := Done(arrived)], e)
  {
    forall other: BlockKey | other.id > 0 ensures BarOk(w[key := Done(arrived)], e, other) {
      assert BarOk(w, d, other);
      DoneBars(w, d, key, arrived, e.lastFlushed, other);
      assert BarOk(w[key := Done(arrived)], d.(lastFlushed := e.lastFlushed), other);
    }
  }

  /** The decoder's answer to frame i of a registered block is the one the phases give. */
  lemma ArriveTracks(lib: Library, k: nat, reg: Registry, w: World, d: Dec, key: BlockKey, i: nat, f: Frame,
                     deadline: int)
    requires ErasureContract(lib) && ValidRegistry(lib, k, reg) && Tracks(lib, k, reg, w, d) && Sound(d)
    requires key in reg && i < |reg[key].data| + reg[key].p && IsFrame(lib, reg[key], i, f)
    ensures Answers(lib, k, reg, d, PushBlock(lib, d, key, f, deadline), Arrive(reg, w, key, i, deadline))
  {
    assert Registered(lib, k, reg[key], key);
    assert BarOk(w, d, key);
    TableAt(lib, reg, w, d.blocks, key);
    DoneIsBarred(w, key);
    if IsOpen(w, key) || !Barred(w, key) {
      ArriveOpen(lib, k, reg, w, d, key, i, f, deadline);
    } else {
      assert Place(d, key, f, deadline) == Refused(d);
    }
  }

  lemma ArriveOpen(lib: Library, k: nat, reg: Registry, w: World, d: Dec, key: BlockKey, i: nat, f: Frame,
                   deadline: int)
    requires ErasureContract(lib) && Tracks(lib, k, reg, w, d) && Sound(d) && key in reg
    requires Registered(lib, k, reg[key], key)
    requires i < |reg[key].data| + reg[key].p && IsFrame(lib, reg[key], i, f)
    requires (key in w ==> w[key].Open?) && (key in d.blocks || Last(d, StreamOf(key)) < key.id)
    requires IsOpen(w, key) || !Barred(w, key)
    ensures Answers(lib, k, reg, d, PushBlock(lib, d, key, f, deadline), Arrive(reg, w, key, i, deadline))
  {
    AddedInSlot(lib, k, reg, w, d, key, i, f, deadline);
    AddedAnswers(lib, k, reg, w, d, key, f, deadline, WithArrival(w, key, i, deadline));
  }

  lemma AddedAnswers(lib: Library, k: nat, reg: Registry, w: World, d: Dec, key: BlockKey, f: Frame, deadline: int,
                     phase: Phase)
    requires ErasureContract(lib) && Tracks(lib, k, reg, w, d) && Sound(d) && key in reg
    requires Registered(lib, k, reg[key], key)
    requires (key in w ==> w[key].Open?) && (key in d.blocks || Last(d, StreamOf(key)) < key.id)
    requires phase.Open? && phase.arrived != {}
    requires !Slot(d.blocks, key).flushed && Added(Slot(d.blocks, key), f, deadline).Some?
    requires Buffer(lib, reg[key], phase)(Added(Slot(d.blocks, key), f, deadline).value)
    ensures Answers(lib, k, reg, d, PushBlock(lib, d, key, f, deadline), Settle(reg, w, key, phase))
  {
    var d1 := PlaceKept(d, key, f, deadline);
    ArrivePlaced(lib, k, reg, w, d, d1, key, phase, Added(Slot(d.blocks, key), f, deadline).value);
  }

  lemma ArrivePlaced(lib: Library, k: nat, reg: Registry, w: World, d: Dec, d1: Dec, key: BlockKey, phase: Phase,
                     added: Held)
    requires ErasureContract(lib) && Tracks(lib, k, reg, w, d) && key in reg && (key in w ==> w[key].Open?)
    requires Registered(lib, k, reg[key], key) && phase.Open? && phase.arrived != {}
    requires OnlyBlock(d, d1, key, added)
    requires Buffer(lib, reg[key], phase)(added)
    ensures key in d1.blocks && WellFormed(d1.blocks[key])
    ensures Answers(lib, k, reg, d, MaybeDeliver(lib, d1, key), Settle(reg, w, key, phase))
  {
    if Complete(reg[key], phase.arrived) {
      CompleteDelivers(lib, k, d1, key, reg[key], phase.arrived);
      ArriveCompletes(lib, k, reg, w, d, d1, key, phase.arrived, MaybeDeliver(lib, d1, key));
    } else {
      Incomplete(lib, d1, key, reg[key], phase.arrived);
      ArriveWaits(lib, k, reg, w, d, d1, key, phase);
    }
  }

  lemma DoneIsBarred(w: World, key: BlockKey)
    ensures key in w && w[key].Done? ==> Barred(w, key)
  {
    if key in w && w[key].Done? {
      assert Bars(w[key], key, key);
    }
  }

  ghost predicate Answers(lib: Library, k: nat, reg: Registry, d: Dec, o: Outcome, a: Advance) {
    && o.out == Joined(a.deliveries) && o.done == KeysOf(a.deliveries)
    && Tracks(lib, k, reg, a.world, o.dec) && o.dec.params == d.params
  }

  /** The buffers an open block in this phase may have. */
  ghost function Buffer(lib: Library, b: Block, phase: Phase): Held -> bool
    requires phase.Open?
  {
    st => Holding(lib, b, phase.arrived, st) && Due(st, phase.deadline)
  }

  /** The block's buffer with the frame added holds everything that arrived, this frame included. */
  lemma AddedInSlot(lib: Library, k: nat, reg: Registry, w: World, d: Dec, key: BlockKey, i: nat, f: Frame,
                    deadline: int)
    requires ErasureContract(lib) && TracksBlocks(lib, reg, w, d.blocks) && key in reg && ValidBlock(lib, k, reg[key])
    requires i < |reg[key].data| + reg[key].p && IsFrame(lib, reg[key], i, f)
    ensures !Slot(d.blocks, key).flushed && Added(Slot(d.blocks, key), f, deadline).Some?
    ensures Buffer(lib, reg[key], WithArrival(w, key, i, deadline))(Added(Slot(d.blocks, key), f, deadline).value)
  {
    OpenSlot(lib, reg, w, d, key, deadline);
    AddedFollows(lib, k, reg[key], Before(w, key, deadline), Slot(d.blocks, key), i, f, deadline);
  }

  lemma AddedFollows(lib: Library, k: nat, b: Block, was: Phase, st: Held, i: nat, f: Frame, deadline: int)
    requires ErasureContract(lib) && ValidBlock(lib, k, b) && i < |b.data| + b.p && IsFrame(lib, b, i, f)
    requires was.Open? && Holding(lib, b, was.arrived, st)
    requires if was.arrived == {} then was.deadline == deadline else Due(st, was.deadline)
    ensures Added(st, f, deadline).Some?
    ensures Buffer(lib, b, Open(was.arrived + {i}, was.deadline))(Added(st, f, deadline).value)
  {
    AddedHolds(lib, k, b, was.arrived, st, i, f, deadline);
    HoldingCounts(lib, b, was.arrived, st);
    AddedDeadline(was.arrived, st, f, deadline);
  }

  /** The buffer a frame is added to: the open block's, or an empty one. */
  lemma OpenSlot(lib: Library, reg: Registry, w: World, d: Dec, key: BlockKey, deadline: int)
    requires TracksBlocks(lib, reg, w, d.blocks) && key in reg
    ensures Holding(lib, reg[key], Before(w, key, deadline).arrived, Slot(d.blocks, key))
    ensures var was := Before(w, key, deadline);
            if was.arrived == {} then was.deadline == deadline else Due(Slot(d.blocks, key), was.deadline)
  {
    EmptyHolds(lib, reg[key]);
    TableAt(lib, reg, w, d.blocks, key);
  }

  /** Nothing but the block and the receive count changes. */
  ghost predicate OnlyBlock(d: Dec, d1: Dec, key: BlockKey, added: Held) {
    d1 == d.(blocks := d.blocks[key := added], stats := d1.stats)
  }

  lemma PlaceKept(d: Dec, key: BlockKey, f: Frame, deadline: int) returns (d1: Dec)
    requires key in d.blocks || Last(d, StreamOf(key)) < key.id
    requires !Slot(d.blocks, key).flushed && Added(Slot(d.blocks, key), f, deadline).Some?
    ensures Place(d, key, f, deadline) == Kept(d1)
    ensures OnlyBlock(d, d1, key, Added(Slot(d.blocks, key), f, deadline).value)
  {
    d1 := d.(blocks := d.blocks[key := Added(Slot(d.blocks, key), f, deadline).value],
             stats := Counted(d, key, f));
  }

  lemma ArriveCompletes(lib: Library, k: nat, reg: Registry, w: World, d: Dec, d1: Dec, key: BlockKey,
                        arrived: set<nat>, o: Outcome)
    requires Tracks(lib, k, reg, w, d) && key in reg && (key in w ==> w[key].Open?)
    requires key in d1.blocks && OnlyBlock(d, d1, key, d1.blocks[key])
    requires Completed(lib, k, d1, key, reg[key], arrived, o)
    ensures Answers(lib, k, reg, d, o, Advance(w[key := Done(arrived)], [Delivery(key, Content(reg[key]))]))
  {
    assert d1.blocks - {key} == d.blocks - {key};
    hide Tracks;
    hide Answers;
    hide Content;
    ClosedAnswers(lib, k, reg, w, d, key, arrived, o, Content(reg[key]));
  }

  /** A step that takes the block out of the table and raises the stream's highest flushed number. */
  lemma ClosedAnswers(lib: Library, k: nat, reg: Registry, w: World, d: Dec, key: BlockKey, arrived: set<nat>,
                      o: Outcome, frames: seq<Frame>)
    requires Tracks(lib, k, reg, w, d) && key in reg && (key in w ==> w[key].Open?)
    requires o.out == frames && o.done == [key] && o.dec.params == d.params && CacheFor(lib, k, o.dec.cache)
    requires o.dec.blocks == d.blocks - {key}
    requires o.dec.lastFlushed ==
             if key.id > Last(d, StreamOf(key)) then d.lastFlushed[StreamOf(key) := key.id] else d.lastFlushed
    ensures Answers(lib, k, reg, d, o, Advance(w[key := Done(arrived)], [Delivery(key, frames)]))
  {
    JoinedOne(Delivery(key, frames));
    BlocksClosed(lib, reg, w, d.blocks, key, arrived);
    BarsClosed(w, d, key, arrived, o.dec);
  }

  lemma ArriveWaits(lib: Library, k: nat, reg: Registry, w: World, d: Dec, d1: Dec, key: BlockKey, phase: Phase)
    requires Tracks(lib, k, reg, w, d) && key in reg && (key in w ==> w[key].Open?)
    requires key in d1.blocks && OnlyBlock(d, d1, key, d1.blocks[key])
    requires Follows(lib, reg[key], phase, d1.blocks[key])
    ensures Answers(lib, k, reg, d, Outcome(d1, [], []), Advance(w[key := phase], []))
  {
    BlocksOpened(lib, reg, w, d.blocks, key, phase, d1.blocks[key]);
    BarsOpened(w, d, key, phase, d1);
  }
}
