/** A data frame that reached its block stays with the decoder until it is handed on. */
module FecHolding {
  import opened Bytes
  import opened Erasure
  import opened Frames
  import opened FecBlock
  import opened FecSizing
  import opened FecDecoder
  import opened FecAssembly
  import opened FecReassembly
  import opened FecDecoderRuns
  import FecRuns
  import PathLedger

  // ---------------------------------------------------------------------
  // Phases.

  /** Frame i of the open block has arrived. */
  ghost predicate InPhase(w: World, key: BlockKey, i: nat) { IsOpen(w, key) && i in w[key].arrived }

  /** Some frame handed on has number q. */
  ghost predicate Hands(out: seq<Frame>, q: nat) { exists m :: 0 <= m < |out| && out[m].seqNo == q }

  ghost function NumberOf(b: Block, i: nat): U32
    requires i < |b.data|
  {
    b.data[i].seqNo
  }

  lemma HandsLeft(a: seq<Frame>, b: seq<Frame>, q: nat)
    requires Hands(a, q)
    ensures Hands(a + b, q)
  {
    var m :| 0 <= m < |a| && a[m].seqNo == q;
    assert (a + b)[m].seqNo == q;
  }

  lemma HandsRight(a: seq<Frame>, b: seq<Frame>, q: nat)
    requires Hands(b, q)
    ensures Hands(a + b, q)
  {
    var m :| 0 <= m < |b| && b[m].seqNo == q;
    assert (a + b)[|a| + m].seqNo == q;
  }

  lemma {:induction false} PartialHands(b: Block, arrived: set<nat>, n: nat, i: nat)
    requires i < n <= |b.data| && i in arrived
    ensures Hands(Partial(b, arrived, n), NumberOf(b, i))
  {
    var last := if n - 1 in arrived then [Delivered(b.session, b.data[n - 1].seqNo, b.data[n - 1].payload)] else [];
    if i < n - 1 {
      PartialHands(b, arrived, n - 1, i);
      HandsLeft(Partial(b, arrived, n - 1), last, NumberOf(b, i));
    } else {
      assert last[0].seqNo == NumberOf(b, i);
      HandsRight(Partial(b, arrived, n - 1), last, NumberOf(b, i));
    }
  }

  lemma ContentHands(b: Block, i: nat)
    requires i < |b.data|
    ensures Hands(Content(b), NumberOf(b, i))
  {
    assert Content(b)[i].seqNo == NumberOf(b, i);
  }

  /** Frame i of the block is handed on whichever way the block goes, or still there. */
  ghost predicate Kept(reg: Registry, a: Advance, key: BlockKey, i: nat)
    requires key in reg && i < |reg[key].data|
  {
    InPhase(a.world, key, i) || Hands(Joined(a.deliveries), NumberOf(reg[key], i))
  }

  lemma SettleKeeps(reg: Registry, w: World, key: BlockKey, phase: Phase, i: nat)
    requires key in reg && i < |reg[key].data| && phase.Open? && i in phase.arrived
    ensures Kept(reg, Settle(reg, w, key, phase), key, i)
  {
    hide Complete;
    hide Hands;
    hide Content;
    hide Joined;
    ContentHands(reg[key], i);
    JoinedOne(Delivery(key, Content(reg[key])));
  }

  /** A data frame that finds its block open or not barred is kept or handed on. */
  lemma ArrivalKept(reg: Registry, w: World, key: BlockKey, i: nat, deadline: int)
    requires key in reg && i < |reg[key].data| && (IsOpen(w, key) || !Barred(w, key))
    ensures Kept(reg, Arrive(reg, w, key, i, deadline), key, i)
  {
    hide Barred;
    SettleKeeps(reg, w, key, WithArrival(w, key, i, deadline), i);
  }

  /** An open block that closes is handed on: whole by an arrival, its arrived part by a tick. */
  ghost predicate ClosesWell(reg: Registry, w: World, ev: FecRuns.Event, a: Advance, key: BlockKey, i: nat)
    requires key in reg && i < |reg[key].data|
  {
    && (InPhase(w, key, i) ==> Kept(reg, a, key, i))
    && (IsOpen(w, key) && !IsOpen(a.world, key) && !InPhase(w, key, i) && !ev.Expiry? ==> Kept(reg, a, key, i))
  }

  lemma ArriveCloses(reg: Registry, w: World, at: BlockKey, j: nat, deadline: int, key: BlockKey, i: nat)
    requires key in reg && i < |reg[key].data| && at in reg && j < |reg[at].data| + reg[at].p
    ensures ClosesWell(reg, w, FecRuns.Arrival(at, j, deadline), Arrive(reg, w, at, j, deadline), key, i)
  {
    hide Barred;
    hide Complete;
    hide Hands;
    hide Content;
    hide Joined;
    if at == key && IsOpen(w, key) {
      ContentHands(reg[key], i);
      JoinedOne(Delivery(key, Content(reg[key])));
    }
  }

  lemma {:induction false} ExpireKeeps(reg: Registry, w: World, order: seq<BlockKey>, key: BlockKey, i: nat)
    requires key in reg && i < |reg[key].data| && InPhase(w, key, i)
    ensures Kept(reg, Expire(reg, w, order), key, i)
    decreases |order|
  {
    if order != [] {
      var init, at := order[..|order| - 1], order[|order| - 1];
      ExpireKeeps(reg, w, init, key, i);
      if at in reg && IsOpen(Expire(reg, w, init).world, at) {
        ExpireKeepsOne(reg, Expire(reg, w, init), at, key, i);
      }
    }
  }

  lemma ExpireKeepsOne(reg: Registry, before: Advance, at: BlockKey, key: BlockKey, i: nat)
    requires key in reg && i < |reg[key].data| && Kept(reg, before, key, i)
    requires at in reg && IsOpen(before.world, at)
    ensures var a := ExpireOne(reg, before.world, at);
            Kept(reg, Advance(a.world, before.deliveries + a.deliveries), key, i)
  {
    hide Partial;
    var q := NumberOf(reg[key], i);
    var x := Delivery(at, Partial(reg[at], before.world[at].arrived, |reg[at].data|));
    JoinedSnoc(before.deliveries, x);
    if InPhase(before.world, key, i) {
      if at == key {
        PartialHands(reg[key], before.world[key].arrived, |reg[key].data|, i);
        HandsRight(Joined(before.deliveries), x.frames, q);
      }
    } else {
      HandsLeft(Joined(before.deliveries), x.frames, q);
    }
  }

  lemma StepCloses(reg: Registry, w: World, ev: FecRuns.Event, key: BlockKey, i: nat)
    requires key in reg && i < |reg[key].data| && FecRuns.ValidEvent(reg, ev)
    ensures ClosesWell(reg, w, ev, FecRuns.Step(reg, w, ev), key, i)
  {
    match ev
    case Arrival(at, j, deadline) => ArriveCloses(reg, w, at, j, deadline, key, i);
    case Expiry(now, order) => if InPhase(w, key, i) { ExpireKeeps(reg, w, order, key, i); }
    case Aside =>
  }

  // ---------------------------------------------------------------------
  // The decoder.

  /** The decoder holds a data frame of number q for the block. */
  ghost predicate HeldFor(d: Dec, key: BlockKey, q: U32) { key in d.blocks && q in d.blocks[key].data }

  lemma HoldsIsPhase(lib: Library, k: nat, reg: Registry, w: World, d: Dec, key: BlockKey, i: nat)
    requires Tracks(lib, k, reg, w, d) && key in reg && i < |reg[key].data|
    ensures HeldFor(d, key, NumberOf(reg[key], i)) <==> InPhase(w, key, i)
    ensures key in d.blocks <==> IsOpen(w, key)
  {
    TableAt(lib, reg, w, d.blocks, key);
    if key in d.blocks { assert HoldsOne(reg[key], w[key].arrived, d.blocks[key].data, i); }
  }

  /** What an honest act does to a frame the decoder holds, and to a block that leaves the table. */
  ghost predicate ActKeeps(d: Dec, act: Act, o: Outcome, key: BlockKey, q: U32) {
    && (HeldFor(d, key, q) ==> HeldFor(o.dec, key, q) || Hands(o.out, q))
    && (key in d.blocks && key !in o.dec.blocks ==> Hands(o.out, q) || (act.Ticked? && !HeldFor(d, key, q)))
  }

  /** A decoder step that follows the phases keeps what it holds or hands it on. */
  lemma ActHolds(lib: Library, k: nat, reg: Registry, w: World, d: Dec, act: Act, ev: FecRuns.Event, key: BlockKey,
                 i: nat)
    requires ErasureContract(lib) && ValidRegistry(lib, k, reg) && Tracks(lib, k, reg, w, d) && Sound(d)
    requires Corresponds(lib, reg, d.params, act, ev) && FecRuns.ValidEvent(reg, ev)
    requires key in reg && i < |reg[key].data|
    ensures ActKeeps(d, act, Do(lib, d, act), key, NumberOf(reg[key], i))
  {
    hide ErasureContract;
    hide Do;
    hide Tracks;
    hide FecRuns.Step;
    var a := FecRuns.Step(reg, w, ev);
    ActFollows(lib, k, reg, w, d, act, ev);
    StepCloses(reg, w, ev, key, i);
    HoldsIsPhase(lib, k, reg, w, d, key, i);
    HoldsIsPhase(lib, k, reg, a.world, Do(lib, d, act).dec, key, i);
    if ev.Aside? { AsideIdle(reg, w, ev); }
  }

  lemma AsideIdle(reg: Registry, w: World, ev: FecRuns.Event)
    requires FecRuns.ValidEvent(reg, ev) && ev.Aside?
    ensures FecRuns.Step(reg, w, ev).world == w
  {}

  /** A data frame of a block that is in the table, or above the stream's flush mark, is held or handed on. */
  lemma LandsHeld(lib: Library, k: nat, reg: Registry, w: World, d: Dec, path: string, f: Frame, now: int,
                  key: BlockKey, i: nat)
    requires ErasureContract(lib) && ValidRegistry(lib, k, reg) && Tracks(lib, k, reg, w, d) && Sound(d)
    requires OfBlock(lib, reg, key, i, f) && i < |reg[key].data| && key == KeyOf(d.params, path, f)
    requires key in d.blocks || Last(d, StreamOf(key)) < key.id
    ensures var o := Push(lib, d, path, f, now);
            HeldFor(o.dec, key, f.seqNo) || Hands(o.out, f.seqNo)
  {
    hide ErasureContract;
    hide Push;
    hide Arrive;
    var deadline := now + d.params.timeout;
    var a := Arrive(reg, w, key, i, deadline);
    ArrivalFollows(lib, k, reg, w, d, path, f, now, key, i, deadline);
    HoldsIsPhase(lib, k, reg, w, d, key, i);
    NotBarred(lib, k, reg, w, d, key);
    ArrivalKept(reg, w, key, i, deadline);
    hide Tracks;
    HoldsIsPhase(lib, k, reg, a.world, Push(lib, d, path, f, now).dec, key, i);
  }

  /** Any frame of such a block opens it or finds it open, or hands the whole block on. */
  lemma LandsOpen(lib: Library, k: nat, reg: Registry, w: World, d: Dec, path: string, f: Frame, now: int,
                  key: BlockKey, a: nat, i: nat)
    requires ErasureContract(lib) && ValidRegistry(lib, k, reg) && Tracks(lib, k, reg, w, d) && Sound(d)
    requires OfBlock(lib, reg, key, a, f) && i < |reg[key].data| && key == KeyOf(d.params, path, f)
    requires key in d.blocks || Last(d, StreamOf(key)) < key.id
    ensures var o := Push(lib, d, path, f, now);
            key in o.dec.blocks || Hands(o.out, NumberOf(reg[key], i))
  {
    hide ErasureContract;
    hide Push;
    hide Arrive;
    var deadline := now + d.params.timeout;
    var v := Arrive(reg, w, key, a, deadline);
    ArrivalFollows(lib, k, reg, w, d, path, f, now, key, a, deadline);
    HoldsIsPhase(lib, k, reg, w, d, key, i);
    NotBarred(lib, k, reg, w, d, key);
    ArrivalOpens(reg, w, key, a, deadline, i);
    hide Tracks;
    HoldsIsPhase(lib, k, reg, v.world, Push(lib, d, path, f, now).dec, key, i);
  }

  lemma ArrivalOpens(reg: Registry, w: World, key: BlockKey, a: nat, deadline: int, i: nat)
    requires key in reg && i < |reg[key].data| && (IsOpen(w, key) || !Barred(w, key))
    ensures var v := Arrive(reg, w, key, a, deadline);
            IsOpen(v.world, key) || Hands(Joined(v.deliveries), NumberOf(reg[key], i))
  {
    hide Barred;
    hide Complete;
    hide Hands;
    hide Content;
    hide Joined;
    ContentHands(reg[key], i);
    JoinedOne(Delivery(key, Content(reg[key])));
  }

  lemma NotBarred(lib: Library, k: nat, reg: Registry, w: World, d: Dec, key: BlockKey)
    requires ValidRegistry(lib, k, reg) && Tracks(lib, k, reg, w, d) && key in reg
    ensures Barred(w, key) <==> Last(d, StreamOf(key)) >= key.id
  {
    assert Registered(lib, k, reg[key], key);
    assert BarOk(w, d, key);
  }

  lemma DeliverKeepsParams(lib: Library, d: Dec, key: BlockKey)
    requires key in d.blocks && WellFormed(d.blocks[key])
    ensures MaybeDeliver(lib, d, key).dec.params == d.params
  {
    hide Filled;
    hide FlushOut;
    hide HeldShards;
  }

  lemma BlockKeepsParams(lib: Library, d: Dec, key: BlockKey, f: Frame, deadline: int)
    requires Sound(d)
    ensures PushBlock(lib, d, key, f, deadline).dec.params == d.params
  {
    hide MaybeDeliver;
    PlaceSound(d, key, f, deadline);
    match Place(d, key, f, deadline)
    case Refused(e) =>
    case Kept(e) => DeliverKeepsParams(lib, e, key);
  }

  lemma {:induction false} FlushesKeepParams(d: Dec, order: seq<BlockKey>)
    ensures FlushAll(d, order).dec.params == d.params
    decreases |order|
  {
    if order != [] { FlushesKeepParams(d, order[..|order| - 1]); }
  }

  /** No act changes the parameters. */
  lemma DoKeepsParams(lib: Library, d: Dec, act: Act)
    requires Sound(d)
    ensures Do(lib, d, act).dec.params == d.params
  {
    hide PushBlock;
    hide FlushAll;
    match act
    case Received(path, f, now) => BlockKeepsParams(lib, d, KeyOf(d.params, path, f), f, now + d.params.timeout);
    case Ticked(now, order) =>
      FlushesKeepParams(d.(pathSeq := map s | s in d.pathSeq :: PathLedger.FlushGap(d.pathSeq[s], now)), order);
  }
}
