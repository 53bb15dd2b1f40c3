/** Concrete runs of the decoder, over the XOR code, on which promises made about it fail. */
module FecWitness {
  import opened Bytes
  import opened Erasure
  import opened Frames
  import opened FecBlock
  import opened FecSizing
  import opened FecDecoder
  import opened FecAssembly
  import opened FecReassembly
  import opened FecDecoderRuns
  import opened FecRoundTrip
  import opened FecCache
  import FecRuns

  /** The parity frame of a block with one parity shard. */
  ghost function OnlyParity(b: Block): Frame
    requires |ParityShards(XorLibrary(), b)| == 1
  {
    ParityFrame(b, ParityShards(XorLibrary(), b)[0], 0)
  }

  /** A block of short frames with one parity frame. */
  ghost predicate Small(k: nat, b: Block) {
    && b.p == 1 && |b.data| == k && 0 < k < 256 && b.id > 0 && 0 < MaxLen(b.data) < 0x1_0000
    && (forall i, j :: 0 <= i < j < |b.data| ==> b.data[i].seqNo < b.data[j].seqNo)
  }

  lemma SmallIsValid(k: nat, b: Block)
    requires Small(k, b)
    ensures ValidBlock(XorLibrary(), k, b) && |ParityShards(XorLibrary(), b)| == 1
    ensures IsFrame(XorLibrary(), b, k, OnlyParity(b))
  {
    XorMeetsContract();
    assert EncodesTo(XorLibrary(), Code(k, 1), DataShards(b.data), MaxLen(b.data));
  }

  // ---------------------------------------------------------------------
  // A later block finishes first.

  ghost function OneFrameBlock(id: U32): Block { Block(7, id, [Datum(id, [1])], 1) }

  lemma OneFrameSmall(id: U32)
    requires id > 0
    ensures Small(1, OneFrameBlock(id)) && |ParityShards(XorLibrary(), OneFrameBlock(id))| == 1
    ensures IsFrame(XorLibrary(), OneFrameBlock(id), 0, DataOf(OneFrameBlock(id)))
    ensures IsFrame(XorLibrary(), OneFrameBlock(id), 1, OnlyParity(OneFrameBlock(id)))
    ensures ValidBlock(XorLibrary(), 1, OneFrameBlock(id))
  {
    var b := OneFrameBlock(id);
    assert MaxLen(b.data) == MaxLenTo(b.data, 1);
    assert MaxLenTo(b.data, 0) == 0;
    SmallIsValid(1, b);
  }

  /** The data frame of a block of one. */
  ghost function DataOf(b: Block): Frame
    requires |b.data| > 0
  {
    Frame(0, 0, b.session, b.data[0].seqNo, b.id, b.data[0].payload)
  }

  ghost function KeyAt(id: U32): BlockKey { BlockKey(7, "wan", id) }

  ghost function TwoBlocks(): Registry { map[KeyAt(1) := OneFrameBlock(1), KeyAt(2) := OneFrameBlock(2)] }

  const ONE_FRAME := Params(1, 1, 10, None, false, 0)

  /** Block 2 is completed by its parity frame; then both frames of block 1 arrive, and the data frame of block 2. */
  ghost function LaterFirst(): seq<Act>
    requires |ParityShards(XorLibrary(), OneFrameBlock(1))| == 1 && |ParityShards(XorLibrary(), OneFrameBlock(2))| == 1
  {
    [Received("wan", OnlyParity(OneFrameBlock(2)), 0), Received("wan", DataOf(OneFrameBlock(1)), 0),
     Received("wan", OnlyParity(OneFrameBlock(1)), 0), Received("wan", DataOf(OneFrameBlock(2)), 0)]
  }

  ghost function LaterFirstMeans(): seq<FecRuns.Event> {
    [FecRuns.Arrival(KeyAt(2), 1, 10), FecRuns.Arrival(KeyAt(1), 0, 10), FecRuns.Arrival(KeyAt(1), 1, 10),
     FecRuns.Arrival(KeyAt(2), 0, 10)]
  }

  lemma TwoBlocksValid()
    ensures ValidRegistry(XorLibrary(), 1, TwoBlocks())
    ensures |ParityShards(XorLibrary(), OneFrameBlock(1))| == 1 && |ParityShards(XorLibrary(), OneFrameBlock(2))| == 1
  {
    OneFrameSmall(1);
    OneFrameSmall(2);
  }

  lemma LaterFirstFrames()
    requires |ParityShards(XorLibrary(), OneFrameBlock(1))| == 1 && |ParityShards(XorLibrary(), OneFrameBlock(2))| == 1
    ensures HonestRun(XorLibrary(), TwoBlocks(), ONE_FRAME, LaterFirst(), LaterFirstMeans())
  {
    OneFrameSmall(1);
    OneFrameSmall(2);
  }

  lemma LaterFirstHonest()
    ensures |ParityShards(XorLibrary(), OneFrameBlock(1))| == 1 && |ParityShards(XorLibrary(), OneFrameBlock(2))| == 1
    ensures Honest(XorLibrary(), 1, TwoBlocks(), map[], FecDecoder.Fresh(ONE_FRAME), LaterFirst(), LaterFirstMeans())
  {
    TwoBlocksValid();
    LaterFirstFrames();
    XorMeetsContract();
    FreshTracks(XorLibrary(), 1, TwoBlocks(), ONE_FRAME);
  }

  lemma LaterCompletes()
    ensures Completes(OneFrameBlock(2), LaterFirstMeans(), KeyAt(2), 0)
  {
    var evs, b := LaterFirstMeans(), OneFrameBlock(2);
    assert FecRuns.Arrivals(evs, KeyAt(2), 0) == {};
    assert FecRuns.Arrivals(evs, KeyAt(2), 1) == {1};
    NothingComplete(b);
    assert 1 in ParityPart(b, {1});
  }

  /**
   Nothing but the order of arrival loses a block: no frame is lost, every frame of both blocks arrives before any
   deadline, and yet block 1 is never handed on, because block 2 was complete first.
   */
  lemma EarlierBlockLost()
    ensures |ParityShards(XorLibrary(), OneFrameBlock(1))| == 1 && |ParityShards(XorLibrary(), OneFrameBlock(2))| == 1
    ensures var d := FecDecoder.Fresh(ONE_FRAME);
            && HandsOn(TwoBlocks(), KeyAt(2), Answer(XorLibrary(), d, LaterFirst(), 0))
            && KeyAt(1) !in Answer(XorLibrary(), d, LaterFirst(), 1).done
            && KeyAt(1) !in Answer(XorLibrary(), d, LaterFirst(), 2).done
            && KeyAt(1) !in Answer(XorLibrary(), d, LaterFirst(), 3).done
  {
    LaterFirstHonest();
    LaterCompletes();
    var lib, d, acts, evs := XorLibrary(), FecDecoder.Fresh(ONE_FRAME), LaterFirst(), LaterFirstMeans();
    ErasureRoundTrip(lib, 1, TwoBlocks(), map[], d, acts, evs, KeyAt(2), 0);
    NoBufferYet(lib, d, acts, evs);
    LaterBlockBars(lib, d, acts, KeyAt(2), KeyAt(1), 0);
    NeverHandedOn(lib, d, acts, KeyAt(1), 1, 1);
    NeverHandedOn(lib, d, acts, KeyAt(1), 1, 2);
    NeverHandedOn(lib, d, acts, KeyAt(1), 1, 3);
  }

  lemma NoBufferYet(lib: Library, d: Dec, acts: seq<Act>, evs: seq<FecRuns.Event>)
    requires Honest(lib, 1, TwoBlocks(), map[], d, acts, evs) && evs == LaterFirstMeans()
    ensures KeyAt(1) !in Run(lib, d, acts, 1).dec.blocks
  {
    HonestRunFollows(lib, 1, TwoBlocks(), d, map[], acts, evs, 1);
    var v := FecRuns.Run(TwoBlocks(), map[], evs, 1).world;
    TableAt(lib, TwoBlocks(), v, Run(lib, d, acts, 1).dec.blocks, KeyAt(1));
    assert FecRuns.Run(TwoBlocks(), map[], evs, 0).world == map[];
    FecRuns.ArriveOther(TwoBlocks(), map[], KeyAt(2), 1, 10, KeyAt(1));
  }

  // ---------------------------------------------------------------------
  // Two parity headers with equal p and different k.

  /** Two data frames, one parity frame, on a path of its own. */
  ghost function PairBlock(): Block { Block(7, 1, [Datum(5, [1]), Datum(6, [2])], 1) }

  const PAIR_KEY := BlockKey(7, "dsl", 1)

  lemma PairSmall()
    ensures ValidBlock(XorLibrary(), 2, PairBlock()) && |ParityShards(XorLibrary(), PairBlock())| == 1
    ensures IsFrame(XorLibrary(), PairBlock(), 0, DataOf(PairBlock()))
    ensures IsFrame(XorLibrary(), PairBlock(), 2, OnlyParity(PairBlock()))
  {
    var b := PairBlock();
    assert MaxLen(b.data) == MaxLenTo(b.data, 2);
    assert MaxLenTo(b.data, 1) == 1 by { assert MaxLenTo(b.data, 0) == 0; }
    SmallIsValid(2, b);
  }

  /** The block of one is completed by its parity frame and leaves its code, for k = 1 and p = 1, in the cache. */
  lemma OneFrameCaches(d: Dec, key: BlockKey, f: Frame, deadline: int) returns (o: Outcome)
    requires d == FecDecoder.Fresh(ONE_FRAME) && key == KeyAt(1)
    requires |ParityShards(XorLibrary(), OneFrameBlock(1))| == 1 && f == OnlyParity(OneFrameBlock(1))
    ensures o == PushBlock(XorLibrary(), d, key, f, deadline)
    ensures o.out == Content(OneFrameBlock(1)) && o.dec.params == d.params && o.dec.blocks == map[]
    ensures o.dec.cache == map[1 := Code(1, 1)] && o.dec.lastFlushed.Keys == {StreamOf(key)}
  {
    var lib, b := XorLibrary(), OneFrameBlock(1);
    hide ErasureContract;
    hide XorLibrary;
    hide Holding;
    hide ValidBlock;
    hide IsFrame;
    hide MaybeDeliver;
    OneFrameSmall(1);
    XorMeetsContract();
    EmptyHolds(lib, b);
    AddedHolds(lib, 1, b, {}, EMPTY, 1, f, deadline);
    var d1 := PlaceKept(d, key, f, deadline);
    OnlyParityHeld(lib, b, d1.blocks[key]);
    CompleteDelivers(lib, 1, d1, key, b, {} + {1});
    o := MaybeDeliver(lib, d1, key);
    CachesCode(lib, d1, key);
  }

  lemma OnlyParityHeld(lib: Library, b: Block, st: Held)
    requires ValidBlock(lib, 1, b) && b.p == 1 && Holding(lib, b, {} + {1}, st)
    ensures Complete(b, {} + {1}) && WellFormed(st) && lib.supports(1, 1)
    ensures st.k == 1 && st.p == 1 && |st.data| == 0 && |st.parity| == 1
  {
    ParityAloneCompletes(b);
  }

  lemma ParityAloneCompletes(b: Block)
    requires |b.data| == 1
    ensures Complete(b, {} + {1}) && |DataPart(b, {} + {1})| == 0 && |ParityPart(b, {} + {1})| == 1
  {
    assert ParityPart(b, {} + {1}) == {1};
    assert DataPart(b, {} + {1}) == {};
  }

  lemma CachesCode(lib: Library, d: Dec, key: BlockKey)
    requires key in d.blocks && WellFormed(d.blocks[key])
    requires var st := d.blocks[key];
             |st.data| == 0 < st.k <= |st.parity| && st.p !in d.cache && lib.supports(st.k, st.p)
    ensures MaybeDeliver(lib, d, key).dec.cache == d.cache[d.blocks[key].p := Code(d.blocks[key].k, d.blocks[key].p)]
  {
    hide FlushOut;
    hide FlushLost;
    hide Filled;
    hide HeldShards;
  }

  /** A frame that leaves its block waiting: too few have arrived, or the cached code is for another k. */
  lemma FrameWaits(lib: Library, k: nat, d: Dec, key: BlockKey, b: Block, arrived: set<nat>, i: nat, f: Frame,
                   deadline: int)
    returns (o: Outcome)
    requires ErasureContract(lib) && ValidBlock(lib, k, b) && key.session == b.session && Sound(d)
    requires CacheMade(lib, d.cache)
    requires i < |b.data| + b.p && IsFrame(lib, b, i, f) && Holding(lib, b, arrived, Slot(d.blocks, key))
    requires key in d.blocks || Last(d, StreamOf(key)) < key.id
    requires Complete(b, arrived + {i}) ==>
               |DataPart(b, arrived + {i})| < |b.data| && b.p in d.cache && d.cache[b.p].k != k
    ensures o == PushBlock(lib, d, key, f, deadline) && o.out == [] && o.done == []
    ensures key in o.dec.blocks && Holding(lib, b, arrived + {i}, o.dec.blocks[key])
    ensures o.dec == d.(blocks := o.dec.blocks, stats := o.dec.stats)
  {
    hide ErasureContract;
    hide ValidBlock;
    hide IsFrame;
    hide MaybeDeliver;
    hide Added;
    AddedHolds(lib, k, b, arrived, Slot(d.blocks, key), i, f, deadline);
    var d1 := PlaceKept(d, key, f, deadline);
    if Complete(b, arrived + {i}) {
      RebuiltIff(lib, k, d1, key, b, arrived + {i});
    } else {
      Incomplete(lib, d1, key, b, arrived + {i});
    }
    o := Outcome(d1, [], []);
  }

  /** The parity frame of the block of one, then a data frame and the parity frame of the pair. */
  ghost function MixedShapes(): seq<Act>
    requires |ParityShards(XorLibrary(), OneFrameBlock(1))| == 1 && |ParityShards(XorLibrary(), PairBlock())| == 1
  {
    [Received("wan", OnlyParity(OneFrameBlock(1)), 0), Received("dsl", DataOf(PairBlock()), 0),
     Received("dsl", OnlyParity(PairBlock()), 0)]
  }

  /** What the three acts are for the decoder. */
  lemma MixedRouted(d: Dec)
    requires |ParityShards(XorLibrary(), OneFrameBlock(1))| == 1 && |ParityShards(XorLibrary(), PairBlock())| == 1
    requires Sound(d) && d.params == Normalized(ONE_FRAME)
    ensures var lib, acts := XorLibrary(), MixedShapes();
            && Do(lib, d, acts[0]) == PushBlock(lib, d, KeyAt(1), OnlyParity(OneFrameBlock(1)), 10)
            && Do(lib, d, acts[1]) == PushBlock(lib, d, PAIR_KEY, DataOf(PairBlock()), 10)
            && Do(lib, d, acts[2]) == PushBlock(lib, d, PAIR_KEY, OnlyParity(PairBlock()), 10)
  {
    hide PushBlock;
    hide ParityShards;
  }

  lemma PairParts()
    ensures var b := PairBlock();
            !Complete(b, {} + {0}) && Complete(b, {} + {0} + {2}) && |DataPart(b, {} + {0} + {2})| == 1
  {
    var b := PairBlock();
    assert ParityPart(b, {} + {0}) == {};
    assert 2 in ParityPart(b, {} + {0} + {2});
    assert DataPart(b, {} + {0} + {2}) == {0};
  }

  /** The pair stalls: with two of its three frames it is neither rebuilt nor handed on, and stays in the table. */
  lemma PairStalls(d: Dec) returns (e: Dec)
    requires |ParityShards(XorLibrary(), PairBlock())| == 1
    requires Sound(d) && d.cache == map[1 := Code(1, 1)] && d.blocks == map[] && Last(d, StreamOf(PAIR_KEY)) == 0
    ensures PushBlock(XorLibrary(), d, PAIR_KEY, DataOf(PairBlock()), 10) == Outcome(e, [], [])
    ensures Sound(e) && e.params == d.params
    ensures var o := PushBlock(XorLibrary(), e, PAIR_KEY, OnlyParity(PairBlock()), 10);
            && o.out == [] && o.done == []
            && PAIR_KEY in o.dec.blocks && Holding(XorLibrary(), PairBlock(), {} + {0} + {2}, o.dec.blocks[PAIR_KEY])
  {
    var lib, b := XorLibrary(), PairBlock();
    hide ErasureContract;
    hide XorLibrary;
    hide ValidBlock;
    hide IsFrame;
    hide Holding;
    hide PushBlock;
    hide Complete;
    hide CacheMade;
    hide Sound;
    PairSmall();
    XorMeetsContract();
    CacheOfOne();
    PairParts();
    EmptyHolds(lib, b);
    var o := FrameWaits(lib, 2, d, PAIR_KEY, b, {}, 0, DataOf(b), 10);
    PushOrderly(lib, d, PAIR_KEY, DataOf(b), 10);
    e := o.dec;
    var o2 := FrameWaits(lib, 2, e, PAIR_KEY, b, {} + {0}, 2, OnlyParity(b), 10);
  }

  lemma CacheOfOne()
    ensures CacheMade(XorLibrary(), map[1 := Code(1, 1)])
  {}

  /**
   The promise "any k of k+p frames" broken by the cache: with equal p, the first k to be seen is the only one ever
   rebuilt.
   */
  lemma SecondShapeStalls()
    ensures |ParityShards(XorLibrary(), OneFrameBlock(1))| == 1 && |ParityShards(XorLibrary(), PairBlock())| == 1
    ensures ValidBlock(XorLibrary(), 1, OneFrameBlock(1)) && ValidBlock(XorLibrary(), 2, PairBlock())
    ensures var o := Run(XorLibrary(), FecDecoder.Fresh(ONE_FRAME), MixedShapes(), 3);
            && o.out == Content(OneFrameBlock(1)) && PAIR_KEY in o.dec.blocks
            && Holding(XorLibrary(), PairBlock(), {0, 2}, o.dec.blocks[PAIR_KEY]) && Complete(PairBlock(), {0, 2})
  {
    OneFrameSmall(1);
    PairSmall();
    PairParts();
    assert {} + {0} + {2} == {0, 2};
    hide PushBlock;
    hide ParityShards;
    hide XorLibrary;
    hide ValidBlock;
    hide Holding;
    hide Complete;
    hide Push;
    hide Do;
    var lib, d, acts := XorLibrary(), FecDecoder.Fresh(ONE_FRAME), MixedShapes();
    MixedRouted(d);
    var o := OneFrameCaches(d, KeyAt(1), OnlyParity(OneFrameBlock(1)), 10);
    assert Run(lib, d, acts, 0) == Outcome(d, [], []);
    assert Run(lib, d, acts, 1).dec == o.dec && Run(lib, d, acts, 1).out == o.out;
    MixedRouted(o.dec);
    var e := PairStalls(o.dec);
    assert Run(lib, d, acts, 2).dec == e && Run(lib, d, acts, 2).out == o.out;
    MixedRouted(e);
  }
}
