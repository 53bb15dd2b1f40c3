/** The decoder's loss books for honest blocks. */
module FecBooks {
  import opened Bytes
  import opened Erasure
  import opened Frames
  import opened FecBlock
  import opened FecSizing
  import opened FecDecoder
  import opened FecAssembly
  import opened FecReassembly
  import opened FecDecoderRuns
  import FecRuns
  import PathLedger

  /** The frame enters its block's buffer: the block is open, or not yet handed on and not barred. */
  ghost predicate Admitted(w: World, key: BlockKey) { IsOpen(w, key) || !Barred(w, key) }

  function LostOf(d: Dec, s: StreamKey): nat { StatOf(d, s).lost }

  function ReceivedOf(d: Dec, s: StreamKey): nat { StatOf(d, s).received }

  lemma AdmittedTaken(lib: Library, k: nat, reg: Registry, w: World, d: Dec, key: BlockKey)
    requires Tracks(lib, k, reg, w, d) && key.id > 0 && Admitted(w, key)
    ensures key in d.blocks || Last(d, StreamOf(key)) < key.id
  {
    assert BarOk(w, d, key);
    TableAt(lib, reg, w, d.blocks, key);
  }

  lemma Placed(d: Dec, key: BlockKey, f: Frame, deadline: int) returns (d1: Dec)
    requires key in d.blocks || Last(d, StreamOf(key)) < key.id
    requires !Slot(d.blocks, key).flushed && Added(Slot(d.blocks, key), f, deadline).Some?
    ensures Place(d, key, f, deadline) == Kept(d1) && d1.stats == Counted(d, key, f)
    ensures d1.recovered == d.recovered && d1.cache == d.cache
    ensures d1.blocks == d.blocks[key := Added(Slot(d.blocks, key), f, deadline).value]
  {
    d1 := d.(blocks := d.blocks[key := Added(Slot(d.blocks, key), f, deadline).value], stats := Counted(d, key, f));
  }

  /** The data frames of a block that did not arrive. */
  ghost function Missing(b: Block, arrived: set<nat>): int { |b.data| - |DataPart(b, arrived)| }

  /** What one more frame of the block adds to the receive count of stream s. */
  ghost function Gain(b: Block, key: BlockKey, arrived: set<nat>, i: nat, s: StreamKey): nat {
    if s == StreamOf(key) && i < |b.data| && i !in arrived then 1 else 0
  }

  lemma CountedGain(lib: Library, k: nat, d: Dec, e: Dec, key: BlockKey, b: Block, arrived: set<nat>, i: nat, f: Frame,
                    s: StreamKey)
    requires ValidBlock(lib, k, b) && i < |b.data| + b.p && IsFrame(lib, b, i, f)
    requires Holding(lib, b, arrived, Slot(d.blocks, key))
    requires e.stats == Counted(d, key, f)
    ensures ReceivedOf(e, s) == ReceivedOf(d, s) + Gain(b, key, arrived, i, s) && LostOf(e, s) == LostOf(d, s)
  {
    if i < |b.data| { assert HoldsOne(b, arrived, Slot(d.blocks, key).data, i); }
  }

  /** What the arrival of a frame leaves of the books of stream s. */
  ghost predicate ArrivalBooked(reg: Registry, w: World, d: Dec, key: BlockKey, i: nat, deadline: int, s: StreamKey,
                                e: Dec)
    requires key in reg
  {
    var b, was, phase := reg[key], Before(w, key, deadline), WithArrival(w, key, i, deadline);
    && ReceivedOf(e, s) == ReceivedOf(d, s) + Gain(b, key, was.arrived, i, s) && LostOf(e, s) == LostOf(d, s)
    && e.recovered == d.recovered + if Complete(b, phase.arrived) then Missing(b, phase.arrived) else 0
  }

  /**
   The decoder takes in frame i of a block: exactly a data frame new to the block counts as received, for the block's
   stream; the arrival that completes the block counts what it rebuilds as recovered; nothing is booked as lost.
   */
  lemma ArrivalCounts(lib: Library, k: nat, reg: Registry, w: World, d: Dec, key: BlockKey, i: nat, f: Frame,
                      deadline: int, s: StreamKey)
    requires ErasureContract(lib) && ValidRegistry(lib, k, reg) && Tracks(lib, k, reg, w, d) && Sound(d)
    requires key in reg && i < |reg[key].data| + reg[key].p && IsFrame(lib, reg[key], i, f) && Admitted(w, key)
    ensures ArrivalBooked(reg, w, d, key, i, deadline, s, PushBlock(lib, d, key, f, deadline).dec)
  {
    hide ErasureContract;
    hide Tracks;
    hide IsFrame;
    hide Holding;
    hide ValidBlock;
    hide MaybeDeliver;
    hide Place;
    hide Counted;
    hide StatOf;
    hide Complete;
    var b, arrived := reg[key], WithArrival(w, key, i, deadline).arrived;
    assert Registered(lib, k, b, key);
    var d1 := Taken(lib, k, reg, w, d, key, i, f, deadline);
    CountedGain(lib, k, d, d1, key, b, Before(w, key, deadline).arrived, i, f, s);
    if Complete(b, arrived) {
      CompleteDelivers(lib, k, d1, key, b, arrived);
      SameStats(d1, MaybeDeliver(lib, d1, key).dec, s);
    } else {
      Incomplete(lib, d1, key, b, arrived);
    }
  }

  /** An admitted frame is put into its block's buffer. */
  lemma Taken(lib: Library, k: nat, reg: Registry, w: World, d: Dec, key: BlockKey, i: nat, f: Frame, deadline: int)
    returns (d1: Dec)
    requires ErasureContract(lib) && ValidRegistry(lib, k, reg) && Tracks(lib, k, reg, w, d) && Sound(d)
    requires key in reg && i < |reg[key].data| + reg[key].p && IsFrame(lib, reg[key], i, f) && Admitted(w, key)
    ensures Place(d, key, f, deadline) == Kept(d1) && d1.stats == Counted(d, key, f) && d1.recovered == d.recovered
    ensures CacheFor(lib, k, d1.cache) && key in d1.blocks
    ensures Holding(lib, reg[key], Before(w, key, deadline).arrived, Slot(d.blocks, key))
    ensures Holding(lib, reg[key], WithArrival(w, key, i, deadline).arrived, d1.blocks[key])
  {
    hide ErasureContract;
    hide IsFrame;
    hide Holding;
    hide Place;
    hide Counted;
    hide Added;
    assert Registered(lib, k, reg[key], key);
    AdmittedTaken(lib, k, reg, w, d, key);
    OpenSlot(lib, reg, w, d, key, deadline);
    AddedInSlot(lib, k, reg, w, d, key, i, f, deadline);
    d1 := Placed(d, key, f, deadline);
  }

  lemma SameStats(d: Dec, e: Dec, s: StreamKey)
    requires e.stats == d.stats
    ensures ReceivedOf(e, s) == ReceivedOf(d, s) && LostOf(e, s) == LostOf(d, s)
  {}

  /**
   A block handed on by the arrival that completes it: the distinct data frames that arrived and the ones
   rebuilt from parity are all k of it, and none is booked as lost.
   */
  lemma CompletionBooks(lib: Library, k: nat, reg: Registry, w: World, d: Dec, key: BlockKey, i: nat, f: Frame,
                        deadline: int)
    requires ErasureContract(lib) && ValidRegistry(lib, k, reg) && Tracks(lib, k, reg, w, d) && Sound(d)
    requires key in reg && i < |reg[key].data| + reg[key].p && IsFrame(lib, reg[key], i, f) && Admitted(w, key)
    requires Complete(reg[key], WithArrival(w, key, i, deadline).arrived)
    ensures var o, s := PushBlock(lib, d, key, f, deadline), StreamOf(key);
            && |DataPart(reg[key], WithArrival(w, key, i, deadline).arrived)| + (o.dec.recovered - d.recovered) == k
            && LostOf(o.dec, s) == LostOf(d, s)
  {
    hide ErasureContract;
    hide PushBlock;
    hide IsFrame;
    assert Registered(lib, k, reg[key], key);
    ArrivalCounts(lib, k, reg, w, d, key, i, f, deadline, StreamOf(key));
    OpenSlot(lib, reg, w, d, key, deadline);
    ParityMeansFull(lib, k, reg[key], WithArrival(w, key, i, deadline).arrived);
  }

  /**
   A block handed on by the deadline: with its header seen, the distinct data frames that arrived and the ones
   booked as lost are all k of it; without, nothing is booked.
   */
  lemma ExpiryBooks(lib: Library, k: nat, reg: Registry, w: World, d: Dec, key: BlockKey)
    requires ValidRegistry(lib, k, reg) && Tracks(lib, k, reg, w, d) && IsOpen(w, key)
    ensures key in reg && key in d.blocks
    ensures var o, s, b := Flush(d, key), StreamOf(key), reg[key];
            && o.dec.recovered == d.recovered && ReceivedOf(o.dec, s) == ReceivedOf(d, s)
            && if ParityPart(b, w[key].arrived) == {} then LostOf(o.dec, s) == LostOf(d, s)
               else |DataPart(b, w[key].arrived)| + (LostOf(o.dec, s) - LostOf(d, s)) == k
  {
    TableAt(lib, reg, w, d.blocks, key);
    var b, arrived, st := reg[key], w[key].arrived, d.blocks[key];
    assert Registered(lib, k, b, key);
    FlushHandsOn(lib, b, key, arrived, st);
    FlushBooks(d, key);
    ParityMeansFull(lib, k, b, arrived);
  }

  lemma FlushBooks(d: Dec, key: BlockKey)
    requires key in d.blocks
    ensures var o, s := Flush(d, key), StreamOf(key);
            && o.dec.recovered == d.recovered && ReceivedOf(o.dec, s) == ReceivedOf(d, s)
            && LostOf(o.dec, s) == LostOf(d, s) + FlushLost(d.blocks[key])
  {}

  lemma ParityMeansFull(lib: Library, k: nat, b: Block, arrived: set<nat>)
    requires ValidBlock(lib, k, b) && arrived <= Range(|b.data| + b.p)
    ensures ParityPart(b, arrived) != {} ==> |b.data| == k
  {
    if ParityPart(b, arrived) != {} {
      var i :| i in ParityPart(b, arrived);
      assert i in Range(|b.data| + b.p);
    }
  }

  // ---------------------------------------------------------------------
  // The books over runs: totals over all blocks seen.

  ghost function Total(w: World, f: (BlockKey, Phase) -> int): int
    decreases w.Keys
  {
    if w == map[] then 0
    else
      var key :| key in w;
      Total(w - {key}, f) + f(key, w[key])
  }

  lemma {:induction false} TotalPick(w: World, f: (BlockKey, Phase) -> int, key: BlockKey)
    requires key in w
    ensures Total(w, f) == Total(w - {key}, f) + f(key, w[key])
    decreases w.Keys
  {
    var x :| x in w && Total(w, f) == Total(w - {x}, f) + f(x, w[x]);
    if x != key {
      TotalPick(w - {x}, f, key);
      TotalPick(w - {key}, f, x);
      assert w - {x} - {key} == w - {key} - {x};
    }
  }

  /** Changing one block changes the total by as much as the block's own entry. */
  lemma TotalPut(w: World, f: (BlockKey, Phase) -> int, key: BlockKey, phase: Phase)
    ensures Total(w[key := phase], f) == Total(w, f) + f(key, phase) - if key in w then f(key, w[key]) else 0
  {
    TotalPick(w[key := phase], f, key);
    assert w[key := phase] - {key} == w - {key};
    if key in w { TotalPick(w, f, key); } else { assert w - {key} == w; }
  }

  /** The distinct data frames of a block of stream s that arrived. */
  ghost function Arrived(reg: Registry, s: StreamKey): (BlockKey, Phase) -> int {
    (key: BlockKey, phase: Phase) => if key in reg && StreamOf(key) == s then |DataPart(reg[key], phase.arrived)| else 0
  }

  /** The frames a block was completed with from parity. */
  ghost function Rebuilt(reg: Registry): (BlockKey, Phase) -> int {
    (key: BlockKey, phase: Phase) =>
      if key in reg && phase.Done? && Complete(reg[key], phase.arrived) then Missing(reg[key], phase.arrived) else 0
  }

  /**
   The frames missing from a block of stream s that its deadline handed on incomplete, if a header told how many there
   are.
   */
  ghost function Lost(reg: Registry, s: StreamKey): (BlockKey, Phase) -> int {
    (key: BlockKey, phase: Phase) =>
      if key in reg && StreamOf(key) == s && phase.Done? && !Complete(reg[key], phase.arrived)
        && ParityPart(reg[key], phase.arrived) != {}
      then Missing(reg[key], phase.arrived) else 0
  }

  /** What stream s has booked now and what was taken from its books before are the totals over the blocks. */
  ghost predicate Balanced(reg: Registry, w: World, d: Dec, s: StreamKey, taken: LossStat) {
    && ReceivedOf(d, s) + taken.received == Total(w, Arrived(reg, s))
    && LostOf(d, s) + taken.lost == Total(w, Lost(reg, s))
    && d.recovered == Total(w, Rebuilt(reg))
  }

  lemma DataPartGrows(b: Block, arrived: set<nat>, i: nat)
    ensures |DataPart(b, arrived + {i})| == |DataPart(b, arrived)| + if i < |b.data| && i !in arrived then 1 else 0
  {
    if i < |b.data| {
      assert DataPart(b, arrived + {i}) == DataPart(b, arrived) + {i};
    } else {
      assert DataPart(b, arrived + {i}) == DataPart(b, arrived);
    }
    if i in arrived { assert arrived + {i} == arrived; }
  }

  /** A frame admitted to its block changes the totals like the books. */
  lemma ArriveTotals(reg: Registry, w: World, key: BlockKey, i: nat, deadline: int, s: StreamKey)
    requires key in reg && (key in w ==> w[key].Open?)
    ensures var b, was, phase := reg[key], Before(w, key, deadline), WithArrival(w, key, i, deadline);
            var v := Settle(reg, w, key, phase).world;
            && Total(v, Arrived(reg, s)) == Total(w, Arrived(reg, s)) + Gain(b, key, was.arrived, i, s)
            && Total(v, Lost(reg, s)) == Total(w, Lost(reg, s))
            && Total(v, Rebuilt(reg))
               == Total(w, Rebuilt(reg)) + if Complete(b, phase.arrived) then Missing(b, phase.arrived) else 0
  {
    hide Total;
    hide Complete;
    var b, was, phase := reg[key], Before(w, key, deadline), WithArrival(w, key, i, deadline);
    var to := if Complete(b, phase.arrived) then Done(phase.arrived) else phase;
    TotalPut(w, Arrived(reg, s), key, to);
    TotalPut(w, Lost(reg, s), key, to);
    TotalPut(w, Rebuilt(reg), key, to);
    DataPartGrows(b, was.arrived, i);
    NoData(b);
  }

  lemma NoData(b: Block)
    ensures |DataPart(b, {})| == 0
  {
    assert DataPart(b, {}) == {};
  }

  lemma ArrivalBalances(lib: Library, k: nat, reg: Registry, w: World, d: Dec, key: BlockKey, i: nat, f: Frame,
                        deadline: int, s: StreamKey, taken: LossStat)
    requires ErasureContract(lib) && ValidRegistry(lib, k, reg) && Tracks(lib, k, reg, w, d) && Sound(d)
    requires key in reg && i < |reg[key].data| + reg[key].p && IsFrame(lib, reg[key], i, f)
    requires Balanced(reg, w, d, s, taken)
    ensures Balanced(reg, Arrive(reg, w, key, i, deadline).world, PushBlock(lib, d, key, f, deadline).dec, s, taken)
  {
    hide Balanced;
    hide ErasureContract;
    hide Tracks;
    hide Sound;
    hide IsFrame;
    hide PushBlock;
    hide Barred;
    hide Settle;
    if Admitted(w, key) {
      AdmittedBalances(lib, k, reg, w, d, key, i, f, deadline, s, taken);
      AdmittedArrives(reg, w, key, i, deadline);
    } else {
      BarredRefused(lib, k, reg, w, d, key, f, deadline);
    }
  }

  lemma AdmittedBalances(lib: Library, k: nat, reg: Registry, w: World, d: Dec, key: BlockKey, i: nat, f: Frame,
                         deadline: int, s: StreamKey, taken: LossStat)
    requires ErasureContract(lib) && ValidRegistry(lib, k, reg) && Tracks(lib, k, reg, w, d) && Sound(d)
    requires key in reg && i < |reg[key].data| + reg[key].p && IsFrame(lib, reg[key], i, f) && Admitted(w, key)
    requires Balanced(reg, w, d, s, taken)
    ensures var v := Settle(reg, w, key, WithArrival(w, key, i, deadline)).world;
            Balanced(reg, v, PushBlock(lib, d, key, f, deadline).dec, s, taken)
  {
    AdmittedOpen(w, key);
    hide *;
    ArrivalCounts(lib, k, reg, w, d, key, i, f, deadline, s);
    ArriveTotals(reg, w, key, i, deadline, s);
    var v := Settle(reg, w, key, WithArrival(w, key, i, deadline)).world;
    BothGrow(reg, w, v, d, PushBlock(lib, d, key, f, deadline).dec, key, i, deadline, s, taken);
  }

  lemma AdmittedOpen(w: World, key: BlockKey)
    requires Admitted(w, key)
    ensures key in w ==> w[key].Open?
  {
    DoneIsBarred(w, key);
  }

  /** Books and totals that grow by the same stay balanced. */
  lemma BothGrow(reg: Registry, w: World, v: World, d: Dec, e: Dec, key: BlockKey, i: nat, deadline: int, s: StreamKey,
                 taken: LossStat)
    requires key in reg && Balanced(reg, w, d, s, taken) && ArrivalBooked(reg, w, d, key, i, deadline, s, e)
    requires var b, was, phase := reg[key], Before(w, key, deadline), WithArrival(w, key, i, deadline);
             && Total(v, Arrived(reg, s)) == Total(w, Arrived(reg, s)) + Gain(b, key, was.arrived, i, s)
             && Total(v, Lost(reg, s)) == Total(w, Lost(reg, s))
             && Total(v, Rebuilt(reg))
                == Total(w, Rebuilt(reg)) + if Complete(b, phase.arrived) then Missing(b, phase.arrived) else 0
    ensures Balanced(reg, v, e, s, taken)
  {
    hide Total;
    hide Gain;
    hide Missing;
    hide Complete;
    hide Arrived;
    hide Lost;
    hide Rebuilt;
    hide ReceivedOf;
    hide LostOf;
  }

  lemma AdmittedArrives(reg: Registry, w: World, key: BlockKey, i: nat, deadline: int)
    requires key in reg && Admitted(w, key)
    ensures Arrive(reg, w, key, i, deadline) == Settle(reg, w, key, WithArrival(w, key, i, deadline))
  {}

  /** A frame of a barred block leaves the decoder as it was. */
  lemma BarredRefused(lib: Library, k: nat, reg: Registry, w: World, d: Dec, key: BlockKey, f: Frame, deadline: int)
    requires ValidRegistry(lib, k, reg) && Tracks(lib, k, reg, w, d) && Sound(d) && key in reg && !Admitted(w, key)
    ensures PushBlock(lib, d, key, f, deadline).dec == d
  {
    hide Added;
    hide MaybeDeliver;
    assert Registered(lib, k, reg[key], key);
    assert BarOk(w, d, key);
    TableAt(lib, reg, w, d.blocks, key);
    assert Place(d, key, f, deadline) == Refused(d);
  }

  /** What the deadline of an incomplete block books as lost. */
  ghost function LostAt(b: Block, key: BlockKey, arrived: set<nat>, s: StreamKey): int {
    if s == StreamOf(key) && ParityPart(b, arrived) != {} then Missing(b, arrived) else 0
  }

  /** A deadline changes the totals like the books. */
  lemma ExpireTotals(reg: Registry, w: World, key: BlockKey, s: StreamKey)
    requires key in reg && IsOpen(w, key) && !Complete(reg[key], w[key].arrived)
    ensures var v := ExpireOne(reg, w, key).world;
            && Total(v, Arrived(reg, s)) == Total(w, Arrived(reg, s))
            && Total(v, Lost(reg, s)) == Total(w, Lost(reg, s)) + LostAt(reg[key], key, w[key].arrived, s)
            && Total(v, Rebuilt(reg)) == Total(w, Rebuilt(reg))
  {
    hide Total;
    hide Complete;
    var to := Done(w[key].arrived);
    TotalPut(w, Arrived(reg, s), key, to);
    TotalPut(w, Lost(reg, s), key, to);
    TotalPut(w, Rebuilt(reg), key, to);
  }

  lemma ExpiryLoses(lib: Library, k: nat, reg: Registry, w: World, d: Dec, key: BlockKey, s: StreamKey)
    requires ValidRegistry(lib, k, reg) && Tracks(lib, k, reg, w, d) && key in reg && IsOpen(w, key) && key in d.blocks
    ensures !Complete(reg[key], w[key].arrived)
    ensures var e := Flush(d, key).dec;
            && ReceivedOf(e, s) == ReceivedOf(d, s) && e.recovered == d.recovered
            && LostOf(e, s) == LostOf(d, s) + LostAt(reg[key], key, w[key].arrived, s)
  {
    hide Complete;
    hide Holding;
    hide Flush;
    hide ReceivedOf;
    hide LostOf;
    ExpiryBooks(lib, k, reg, w, d, key);
    if s != StreamOf(key) { OtherBooks(d, key, s); }
    TableAt(lib, reg, w, d.blocks, key);
    assert Registered(lib, k, reg[key], key);
    OpenParity(lib, k, reg[key], w[key], d.blocks[key]);
  }

  lemma ExpiryBalances(lib: Library, k: nat, reg: Registry, w: World, d: Dec, key: BlockKey, s: StreamKey,
                       taken: LossStat)
    requires ValidRegistry(lib, k, reg) && Tracks(lib, k, reg, w, d) && key in reg && IsOpen(w, key) && key in d.blocks
    requires Balanced(reg, w, d, s, taken)
    ensures Balanced(reg, ExpireOne(reg, w, key).world, Flush(d, key).dec, s, taken)
  {
    hide Total;
    hide Tracks;
    hide Flush;
    hide ExpireOne;
    hide ReceivedOf;
    hide LostOf;
    ExpiryLoses(lib, k, reg, w, d, key, s);
    ExpireTotals(reg, w, key, s);
  }

  lemma OpenParity(lib: Library, k: nat, b: Block, phase: Phase, st: Held)
    requires ValidBlock(lib, k, b) && Follows(lib, b, phase, st)
    ensures ParityPart(b, phase.arrived) != {} ==> |b.data| == k
  {
    ParityMeansFull(lib, k, b, phase.arrived);
  }

  /** Flushing a block of another stream leaves this one's books alone. */
  lemma OtherBooks(d: Dec, key: BlockKey, s: StreamKey)
    requires key in d.blocks && s != StreamOf(key)
    ensures ReceivedOf(Flush(d, key).dec, s) == ReceivedOf(d, s) && LostOf(Flush(d, key).dec, s) == LostOf(d, s)
  {
    hide FlushOut;
  }

  lemma {:induction false} ExpireBalances(lib: Library, k: nat, reg: Registry, w: World, d: Dec, order: seq<BlockKey>,
                                          s: StreamKey, taken: LossStat)
    requires ValidRegistry(lib, k, reg) && Tracks(lib, k, reg, w, d) && Balanced(reg, w, d, s, taken)
    ensures Balanced(reg, Expire(reg, w, order).world, FlushAll(d, order).dec, s, taken)
    decreases |order|
  {
    hide Balanced;
    hide Flush;
    hide ExpireOne;
    if order != [] {
      var init, key := order[..|order| - 1], order[|order| - 1];
      ExpireBalances(lib, k, reg, w, d, init, s, taken);
      FecRuns.ExpireTracks(lib, k, reg, w, d, init);
      var o, a := FlushAll(d, init), Expire(reg, w, init);
      TableAt(lib, reg, a.world, o.dec.blocks, key);
      if key in o.dec.blocks { ExpiryBalances(lib, k, reg, a.world, o.dec, key, s, taken); }
    }
  }

  lemma SameBooks(reg: Registry, w: World, d: Dec, e: Dec, s: StreamKey, taken: LossStat)
    requires Balanced(reg, w, d, s, taken) && e.stats == d.stats && e.recovered == d.recovered
    ensures Balanced(reg, w, e, s, taken)
  {
    hide Total;
  }

  lemma ActBalances(lib: Library, k: nat, reg: Registry, w: World, d: Dec, act: Act, ev: FecRuns.Event, s: StreamKey,
                    taken: LossStat)
    requires ErasureContract(lib) && ValidRegistry(lib, k, reg) && Tracks(lib, k, reg, w, d) && Sound(d)
    requires Corresponds(lib, reg, d.params, act, ev) && FecRuns.ValidEvent(reg, ev) && Balanced(reg, w, d, s, taken)
    ensures Balanced(reg, FecRuns.Step(reg, w, ev).world, Do(lib, d, act).dec, s, taken)
  {
    hide Balanced;
    hide ErasureContract;
    hide PushBlock;
    hide FlushAll;
    hide Arrive;
    hide Expire;
    hide TracksBlocks;
    hide TracksBars;
    hide CacheFor;
    hide ValidRegistry;
    hide Sound;
    match act
    case Received(path, f, now) =>
      if ev.Aside? {
        SameBooks(reg, w, d, Push(lib, d, path, f, now).dec, s, taken);
      } else {
        RoutedToBlock(lib, k, reg, d, path, f, now, ev.key, ev.i, ev.deadline);
        ArrivalBalances(lib, k, reg, w, d, ev.key, ev.i, f, ev.deadline, s, taken);
      }
    case Ticked(now, order) =>
      var aged := d.(pathSeq := map x | x in d.pathSeq :: PathLedger.FlushGap(d.pathSeq[x], now));
      TracksAged(lib, k, reg, w, d, aged);
      SameBooks(reg, w, d, aged, s, taken);
      ExpireBalances(lib, k, reg, w, aged, order, s, taken);
  }

  // ---------------------------------------------------------------------
  // Runs in which the counters are read and reset now and then.

  /** What happens to a decoder: an act with its meaning for the phases, or one stream's counters are taken. */
  datatype Deed = Acted(act: Act, ev: FecRuns.Event) | Took(stream: StreamKey)

  /** The decoder, the phases, and what was taken from each stream's counters so far. */
  datatype Account = Account(dec: Dec, world: World, taken: map<StreamKey, LossStat>)

  function TakenOf(a: Account, s: StreamKey): LossStat { if s in a.taken then a.taken[s] else LossStat(0, 0) }

  /** TakeStreamStats: the counters are handed out and reset. */
  function Take(a: Account, s: StreamKey): Account {
    var stat, was := StatOf(a.dec, s), TakenOf(a, s);
    Account(a.dec.(stats := a.dec.stats[s := LossStat(0, 0)]), a.world,
            a.taken[s := LossStat(was.lost + stat.lost, was.received + stat.received)])
  }

  ghost predicate HonestDeed(lib: Library, reg: Registry, p: Params, deed: Deed) {
    deed.Acted? ==> Corresponds(lib, reg, p, deed.act, deed.ev) && FecRuns.ValidEvent(reg, deed.ev)
  }

  ghost predicate HonestDeeds(lib: Library, reg: Registry, p: Params, deeds: seq<Deed>) {
    forall i :: 0 <= i < |deeds| ==> HonestDeed(lib, reg, p, deeds[i])
  }

  ghost function Enter(lib: Library, reg: Registry, a: Account, deed: Deed): (b: Account)
    requires Sound(a.dec) && (deed.Acted? ==> FecRuns.ValidEvent(reg, deed.ev))
    ensures Sound(b.dec)
  {
    match deed
    case Acted(act, ev) =>
      DoOrderly(lib, a.dec, act);
      Account(Do(lib, a.dec, act).dec, FecRuns.Step(reg, a.world, ev).world, a.taken)
    case Took(s) => Take(a, s)
  }

  ghost function Audit(lib: Library, reg: Registry, p: Params, a: Account, deeds: seq<Deed>, n: nat): (b: Account)
    requires Sound(a.dec) && HonestDeeds(lib, reg, p, deeds) && n <= |deeds|
    ensures Sound(b.dec)
  {
    if n == 0 then a else Enter(lib, reg, Audit(lib, reg, p, a, deeds, n - 1), deeds[n - 1])
  }

  /** The decoder follows the phases. */
  ghost predicate InStep(lib: Library, k: nat, reg: Registry, p: Params, a: Account) {
    Tracks(lib, k, reg, a.world, a.dec) && a.dec.params == p
  }

  ghost predicate BalancedFor(reg: Registry, a: Account, s: StreamKey) {
    Balanced(reg, a.world, a.dec, s, TakenOf(a, s))
  }

  lemma TakeKept(lib: Library, k: nat, reg: Registry, p: Params, a: Account, s: StreamKey)
    requires InStep(lib, k, reg, p, a)
    ensures InStep(lib, k, reg, p, Take(a, s))
  {
    hide TracksBlocks;
    hide CacheFor;
    forall key: BlockKey | key.id > 0 ensures BarOk(a.world, Take(a, s).dec, key) {
      assert BarOk(a.world, a.dec, key);
    }
  }

  lemma TakeBalances(reg: Registry, a: Account, other: StreamKey, s: StreamKey)
    requires BalancedFor(reg, a, s)
    ensures BalancedFor(reg, Take(a, other), s)
  {
    hide Total;
  }

  lemma EnterKept(lib: Library, k: nat, reg: Registry, p: Params, a: Account, deed: Deed)
    requires ErasureContract(lib) && ValidRegistry(lib, k, reg) && Sound(a.dec) && InStep(lib, k, reg, p, a)
    requires HonestDeed(lib, reg, p, deed)
    ensures InStep(lib, k, reg, p, Enter(lib, reg, a, deed))
  {
    hide ErasureContract;
    hide Do;
    hide FecRuns.Step;
    hide Tracks;
    hide Take;
    match deed
    case Acted(act, ev) => ActFollows(lib, k, reg, a.world, a.dec, act, ev);
    case Took(s) => TakeKept(lib, k, reg, p, a, s);
  }

  lemma EnterBalances(lib: Library, k: nat, reg: Registry, p: Params, a: Account, deed: Deed, s: StreamKey)
    requires ErasureContract(lib) && ValidRegistry(lib, k, reg) && Sound(a.dec) && InStep(lib, k, reg, p, a)
    requires HonestDeed(lib, reg, p, deed) && BalancedFor(reg, a, s)
    ensures BalancedFor(reg, Enter(lib, reg, a, deed), s)
  {
    hide ErasureContract;
    hide Balanced;
    hide Do;
    hide FecRuns.Step;
    hide Tracks;
    hide Take;
    match deed
    case Acted(act, ev) => ActBalances(lib, k, reg, a.world, a.dec, act, ev, s, TakenOf(a, s));
    case Took(other) =>
      TakeBalances(reg, a, other, s);
  }

  lemma {:induction false} AuditKept(lib: Library, k: nat, reg: Registry, p: Params, a: Account, deeds: seq<Deed>,
                                     n: nat)
    requires ErasureContract(lib) && ValidRegistry(lib, k, reg) && Sound(a.dec) && InStep(lib, k, reg, p, a)
    requires HonestDeeds(lib, reg, p, deeds) && n <= |deeds|
    ensures InStep(lib, k, reg, p, Audit(lib, reg, p, a, deeds, n))
  {
    hide ErasureContract;
    hide InStep;
    hide Enter;
    hide HonestDeed;
    if n > 0 {
      AuditKept(lib, k, reg, p, a, deeds, n - 1);
      EnterKept(lib, k, reg, p, Audit(lib, reg, p, a, deeds, n - 1), deeds[n - 1]);
    }
  }

  /**
   Over every honest run, across any resets of the counters, the books are exact: what was taken from a stream's
   received count and what it holds now are the distinct data frames its blocks took in; its lost count likewise what
   was missing from the blocks that a deadline handed on with a header seen; and the recovered count is the number
   rebuilt from parity.
   */
  lemma {:induction false} BooksBalance(lib: Library, k: nat, reg: Registry, p: Params, a: Account, deeds: seq<Deed>,
                                        n: nat, s: StreamKey)
    requires ErasureContract(lib) && ValidRegistry(lib, k, reg) && Sound(a.dec) && InStep(lib, k, reg, p, a)
    requires HonestDeeds(lib, reg, p, deeds) && n <= |deeds| && BalancedFor(reg, a, s)
    ensures BalancedFor(reg, Audit(lib, reg, p, a, deeds, n), s)
  {
    hide ErasureContract;
    hide InStep;
    hide Enter;
    hide HonestDeed;
    hide BalancedFor;
    if n > 0 {
      BooksBalance(lib, k, reg, p, a, deeds, n - 1, s);
      AuditKept(lib, k, reg, p, a, deeds, n - 1);
      EnterBalances(lib, k, reg, p, Audit(lib, reg, p, a, deeds, n - 1), deeds[n - 1], s);
    }
  }

  /** The account of a new decoder. */
  ghost function Opening(p: Params): Account { Account(FecDecoder.Fresh(p), map[], map[]) }

  lemma OpeningBalanced(lib: Library, k: nat, reg: Registry, p: Params, s: StreamKey)
    requires p.parity > 0
    ensures InStep(lib, k, reg, Normalized(p), Opening(p)) && BalancedFor(reg, Opening(p), s)
  {
    FreshTracks(lib, k, reg, p);
  }

  // ---------------------------------------------------------------------
  // Conservation.

  ghost function SumOver(streams: set<StreamKey>, f: StreamKey -> int): int {
    if streams == {} then 0
    else
      var s :| s in streams;
      SumOver(streams - {s}, f) + f(s)
  }

  lemma {:induction false} SumPick(streams: set<StreamKey>, f: StreamKey -> int, s: StreamKey)
    requires s in streams
    ensures SumOver(streams, f) == SumOver(streams - {s}, f) + f(s)
  {
    var x :| x in streams && SumOver(streams, f) == SumOver(streams - {x}, f) + f(x);
    if x != s {
      SumPick(streams - {x}, f, s);
      SumPick(streams - {s}, f, x);
      assert streams - {x} - {s} == streams - {s} - {x};
    }
  }

  /** One stream's entry is larger by v. */
  ghost predicate OneMoreAt(f: StreamKey -> int, g: StreamKey -> int, at: StreamKey, v: int, s: StreamKey) {
    f(s) == g(s) + if s == at then v else 0
  }

  lemma {:induction false} SumMore(streams: set<StreamKey>, f: StreamKey -> int, g: StreamKey -> int, at: StreamKey,
                                   v: int)
    requires forall s :: s in streams ==> OneMoreAt(f, g, at, v, s)
    ensures SumOver(streams, f) == SumOver(streams, g) + if at in streams then v else 0
  {
    hide SumOver;
    if streams == {} {
      SumNone(f);
      SumNone(g);
    } else {
      var s :| s in streams;
      SumPick(streams, f, s);
      SumPick(streams, g, s);
      assert OneMoreAt(f, g, at, v, s);
      SumMore(streams - {s}, f, g, at, v);
    }
  }

  lemma SumNone(f: StreamKey -> int)
    ensures SumOver({}, f) == 0
  {}

  lemma {:induction false} SumZero(streams: set<StreamKey>, f: StreamKey -> int)
    requires forall s :: s in streams ==> f(s) == 0
    ensures SumOver(streams, f) == 0
  {
    hide SumOver;
    if streams == {} {
      SumNone(f);
    } else {
      var s :| s in streams;
      SumPick(streams, f, s);
      SumZero(streams - {s}, f);
    }
  }

  /** All that the decoder ever booked for a stream. */
  ghost function Booked(a: Account): StreamKey -> int {
    (s: StreamKey) => ReceivedOf(a.dec, s) + TakenOf(a, s).received + LostOf(a.dec, s) + TakenOf(a, s).lost
  }

  /** The stream's share of the totals. */
  ghost function Share(reg: Registry, w: World): StreamKey -> int {
    (s: StreamKey) => Total(w, Arrived(reg, s)) + Total(w, Lost(reg, s))
  }

  /** A block that is done, with its header seen: it has k frames. */
  ghost predicate Accounted(reg: Registry, k: nat, key: BlockKey, phase: Phase) {
    key in reg && |reg[key].data| == k && phase.Done? && ParityPart(reg[key], phase.arrived) != {}
  }

  ghost predicate AllAccounted(reg: Registry, k: nat, w: World, streams: set<StreamKey>) {
    forall key :: key in w ==> Accounted(reg, k, key, w[key]) && StreamOf(key) in streams
  }

  lemma EntriesAddUp(reg: Registry, k: nat, key: BlockKey, phase: Phase)
    requires Accounted(reg, k, key, phase)
    ensures var s := StreamOf(key);
            Arrived(reg, s)(key, phase) + Rebuilt(reg)(key, phase) + Lost(reg, s)(key, phase) == k
    ensures forall s :: s != StreamOf(key) ==> Arrived(reg, s)(key, phase) == 0 && Lost(reg, s)(key, phase) == 0
  {
    var b, arrived, s := reg[key], phase.arrived, StreamOf(key);
    assert Arrived(reg, s)(key, phase) == |DataPart(b, arrived)|;
    assert Rebuilt(reg)(key, phase) == if Complete(b, arrived) then Missing(b, arrived) else 0;
    assert Lost(reg, s)(key, phase) == if Complete(b, arrived) then 0 else Missing(b, arrived);
  }

  lemma ShareWithout(reg: Registry, k: nat, w: World, key: BlockKey, s: StreamKey)
    requires key in w && Accounted(reg, k, key, w[key])
    ensures OneMoreAt(Share(reg, w), Share(reg, w - {key}), StreamOf(key), k - Rebuilt(reg)(key, w[key]), s)
  {
    hide Total;
    hide Rebuilt;
    hide Arrived;
    hide Lost;
    TotalPick(w, Arrived(reg, s), key);
    TotalPick(w, Lost(reg, s), key);
    EntriesAddUp(reg, k, key, w[key]);
  }

  lemma {:induction false} SharesAddUp(reg: Registry, k: nat, w: World, streams: set<StreamKey>)
    requires AllAccounted(reg, k, w, streams)
    ensures SumOver(streams, Share(reg, w)) + Total(w, Rebuilt(reg)) == Product(k, |w|)
    decreases w.Keys
  {
    hide SumOver;
    hide Product;
    hide Rebuilt;
    hide Share;
    hide Total;
    hide Accounted;
    hide OneMoreAt;
    if w == map[] {
      NoShares(reg, k, w, streams);
    } else {
      var key :| key in w;
      var v := k - Rebuilt(reg)(key, w[key]);
      forall s | s in streams ensures OneMoreAt(Share(reg, w), Share(reg, w - {key}), StreamOf(key), v, s) {
        ShareWithout(reg, k, w, key, s);
      }
      SumMore(streams, Share(reg, w), Share(reg, w - {key}), StreamOf(key), v);
      TotalPick(w, Rebuilt(reg), key);
      SharesAddUp(reg, k, w - {key}, streams);
      assert (w - {key}).Keys == w.Keys - {key};
      OneMore(k, |w| - 1);
    }
  }

  function Product(c: int, n: nat): int { c * n }

  lemma OneMore(c: int, n: nat)
    ensures Product(c, n + 1) == Product(c, n) + c
  {}

  lemma NoShares(reg: Registry, k: nat, w: World, streams: set<StreamKey>)
    requires w == map[]
    ensures SumOver(streams, Share(reg, w)) == 0 && Total(w, Rebuilt(reg)) == 0 && Product(k, |w|) == 0
  {
    assert |w| == 0;
    assert forall s :: Share(reg, w)(s) == 0;
    SumZero(streams, Share(reg, w));
  }

  lemma {:induction false} SameSum(streams: set<StreamKey>, f: StreamKey -> int, g: StreamKey -> int)
    requires forall s :: s in streams ==> f(s) == g(s)
    ensures SumOver(streams, f) == SumOver(streams, g)
  {
    hide SumOver;
    if streams == {} {
      SumNone(f);
      SumNone(g);
    } else {
      var s :| s in streams;
      SumPick(streams, f, s);
      SumPick(streams, g, s);
      SameSum(streams - {s}, f, g);
    }
  }

  /**
   Nothing is unaccounted for. At a point of an honest run of a new decoder at which every block it has seen is done,
   with its header seen: what was ever booked received or lost, over all streams and across any resets, and what was
   recovered add up to k frames for each block.
   */
  lemma NothingUnaccounted(lib: Library, k: nat, reg: Registry, p: Params, deeds: seq<Deed>, n: nat,
                           streams: set<StreamKey>)
    requires ErasureContract(lib) && ValidRegistry(lib, k, reg) && p.parity > 0 && n <= |deeds|
    requires HonestDeeds(lib, reg, Normalized(p), deeds)
    requires AllAccounted(reg, k, Audit(lib, reg, Normalized(p), Opening(p), deeds, n).world, streams)
    ensures var a := Audit(lib, reg, Normalized(p), Opening(p), deeds, n);
            SumOver(streams, Booked(a)) + a.dec.recovered == k * |a.world|
  {
    hide ErasureContract;
    hide Audit;
    hide HonestDeeds;
    hide InStep;
    hide BalancedFor;
    hide Booked;
    hide Share;
    hide SumOver;
    hide Total;
    hide AllAccounted;
    var a := Audit(lib, reg, Normalized(p), Opening(p), deeds, n);
    forall s ensures Booked(a)(s) == Share(reg, a.world)(s) && a.dec.recovered == Total(a.world, Rebuilt(reg)) {
      OpeningBalanced(lib, k, reg, p, s);
      BooksBalance(lib, k, reg, Normalized(p), Opening(p), deeds, n, s);
      BookedIsShare(reg, a, s);
    }
    var some := StreamKey(0, "");
    assert Booked(a)(some) == Share(reg, a.world)(some);
    SharesAddUp(reg, k, a.world, streams);
    SameSum(streams, Booked(a), Share(reg, a.world));
  }

  lemma BookedIsShare(reg: Registry, a: Account, s: StreamKey)
    requires BalancedFor(reg, a, s)
    ensures Booked(a)(s) == Share(reg, a.world)(s) && a.dec.recovered == Total(a.world, Rebuilt(reg))
  {
    hide Total;
    hide Arrived;
    hide Lost;
    hide ReceivedOf;
    hide LostOf;
    hide TakenOf;
  }
}
