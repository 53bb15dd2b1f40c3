/**
 The decoder's cache of codes. It is keyed by the parity count alone, so it is an optimisation only as long as all
 blocks have the same number of data shards.
 */
module FecCache {
  import opened Bytes
  import opened Erasure
  import opened Frames
  import opened FecBlock
  import opened FecDecoder
  import opened FecAssembly
  import opened FecReassembly
  import opened FecDecoderRuns
  import PathLedger

  /** The decoder with its cache emptied. */
  function Forget(d: Dec): Dec { d.(cache := map[]) }

  /** Two steps that differ in nothing but the cache. */
  ghost predicate Same(o: Outcome, x: Outcome) { Forget(o.dec) == Forget(x.dec) && o.out == x.out && o.done == x.done }

  // ---------------------------------------------------------------------
  // One block.

  /** Cached codes were made by the library. */
  ghost predicate CacheMade(lib: Library, cache: map<nat, Code>) {
    forall p :: p in cache ==> cache[p].p == p && lib.supports(cache[p].k, p)
  }

  /** Flushing reads and writes no code. */
  lemma FlushSame(d: Dec, cache: map<nat, Code>, key: BlockKey)
    requires key in d.blocks
    ensures var o := Flush(d, key); Flush(d.(cache := cache), key) == o.(dec := o.dec.(cache := cache))
  {
    hide FlushOut;
    hide FlushLost;
  }

  lemma RefilledSame(d: Dec, cache: map<nat, Code>, key: BlockKey, made: map<nat, Code>, also: map<nat, Code>,
                     word: seq<Shard>)
    requires key in d.blocks && WellFormed(d.blocks[key])
    ensures Same(Flush(Refilled(d, key, made, word), key), Flush(Refilled(d.(cache := cache), key, also, word), key))
  {
    hide Flush;
    hide Filled;
    FlushSame(Refilled(d, key, made, word), also, key);
  }

  lemma ReconstructSame(lib: Library, d: Dec, cache: map<nat, Code>, key: BlockKey)
    requires key in d.blocks && WellFormed(d.blocks[key])
    requires var st := d.blocks[key]; CodeFor(lib, d.cache, st.k, st.p).0 == CodeFor(lib, cache, st.k, st.p).0
    ensures Same(Reconstruct(lib, d, key), Reconstruct(lib, d.(cache := cache), key))
  {
    hide Flush;
    hide Refilled;
    hide CodeFor;
    hide HeldShards;
    var st := d.blocks[key];
    var (code, made) := CodeFor(lib, d.cache, st.k, st.p);
    if code.Some? && lib.rebuild(code.value, HeldShards(st)).Some? {
      RefilledSame(d, cache, key, made, CodeFor(lib, cache, st.k, st.p).1,
                   lib.rebuild(code.value, HeldShards(st)).value);
    }
  }

  lemma Stalls(lib: Library, d: Dec, key: BlockKey)
    requires ErasureContract(lib) && CacheMade(lib, d.cache) && key in d.blocks && WellFormed(d.blocks[key])
    requires var st := d.blocks[key]; st.p in d.cache && d.cache[st.p].k != st.k
    ensures Reconstruct(lib, d, key) == Outcome(d, [], [])
  {
    var st := d.blocks[key];
    assert Recovers(lib, d.cache[st.p], [], 0, HeldShards(st));
  }

  /**
   A block with enough frames whose data did not all arrive is rebuilt, and handed on whole, iff the code cached for its
   parity count was made for its number of data shards. Otherwise nothing happens at all.
   */
  lemma RebuiltIff(lib: Library, k: nat, d: Dec, key: BlockKey, b: Block, arrived: set<nat>)
    requires ErasureContract(lib) && CacheMade(lib, d.cache) && ValidBlock(lib, k, b) && key.session == b.session
    requires key in d.blocks && Holding(lib, b, arrived, d.blocks[key]) && Complete(b, arrived)
    requires |DataPart(b, arrived)| < |b.data|
    ensures WellFormed(d.blocks[key])
    ensures var o, agrees := MaybeDeliver(lib, d, key), b.p in d.cache ==> d.cache[b.p].k == k;
            && (o.done == [key] <==> agrees)
            && (if agrees then o.out == Content(b) else o == Outcome(d, [], []))
  {
    hide ErasureContract;
    hide Reconstruct;
    PartsSize(b, arrived);
    HasParity(lib, k, b, arrived);
    if b.p in d.cache ==> d.cache[b.p].k == k {
      Rebuilt(lib, k, d, key, b, arrived);
    } else {
      Stalls(lib, d, key);
    }
  }

  lemma Rebuilt(lib: Library, k: nat, d: Dec, key: BlockKey, b: Block, arrived: set<nat>)
    requires ErasureContract(lib) && CacheMade(lib, d.cache) && ValidBlock(lib, k, b) && key.session == b.session
    requires key in d.blocks && Holding(lib, b, arrived, d.blocks[key]) && Complete(b, arrived)
    requires b.p in d.cache ==> d.cache[b.p].k == k
    ensures WellFormed(d.blocks[key])
    ensures Reconstruct(lib, d, key).done == [key] && Reconstruct(lib, d, key).out == Content(b)
  {
    hide ErasureContract;
    hide Reconstruct;
    hide Holding;
    var only := if b.p in d.cache then map[b.p := d.cache[b.p]] else map[];
    RebuildDelivers(lib, k, d.(cache := only), key, b, arrived);
    HeaderHeld(lib, k, b, arrived, d.blocks[key]);
    ReconstructSame(lib, d, only, key);
  }

  lemma HeaderHeld(lib: Library, k: nat, b: Block, arrived: set<nat>, st: Held)
    requires ValidBlock(lib, k, b) && Holding(lib, b, arrived, st) && Complete(b, arrived)
    ensures st.k == k && st.p == b.p
  {
    HasParity(lib, k, b, arrived);
  }

  lemma HasParity(lib: Library, k: nat, b: Block, arrived: set<nat>)
    requires ValidBlock(lib, k, b) && Complete(b, arrived) && arrived <= Range(|b.data| + b.p)
    ensures b.p > 0 && |b.data| == k
  {
    var i :| i in ParityPart(b, arrived);
    assert i in Range(|b.data| + b.p);
  }

  // ---------------------------------------------------------------------
  // Runs over any frames whose parity headers all carry one k.

  /** A frame whose header, if it has one, says k. */
  ghost predicate Says(k: nat, f: Frame) {
    IsParity(f) && Parse(f.payload).Some? ==> Parse(f.payload).value.0.k == k
  }

  ghost predicate AllSay(k: nat, acts: seq<Act>) {
    forall j :: 0 <= j < |acts| && acts[j].Received? ==> Says(k, acts[j].f)
  }

  /** Every buffer that has seen a header has seen this k. */
  ghost predicate OneShape(k: nat, blocks: map<BlockKey, Held>) {
    forall key :: key in blocks ==> blocks[key].k == 0 || blocks[key].k == k
  }

  ghost predicate Uniformly(lib: Library, k: nat, d: Dec) {
    Sound(d) && CacheFor(lib, k, d.cache) && OneShape(k, d.blocks)
  }

  /** A step that keeps to one k, and does what it would do with an empty cache. */
  ghost predicate Cacheless(lib: Library, k: nat, o: Outcome, x: Outcome) { Uniformly(lib, k, o.dec) && Same(o, x) }

  lemma FlushUniform(lib: Library, k: nat, d: Dec, key: BlockKey)
    requires Uniformly(lib, k, d) && key in d.blocks
    ensures Uniformly(lib, k, Flush(d, key).dec)
  {
    hide FlushOut;
    hide FlushLost;
  }

  lemma FlushCacheless(lib: Library, k: nat, d: Dec, e: Dec, key: BlockKey)
    requires Uniformly(lib, k, d) && e == d.(cache := e.cache) && key in d.blocks
    ensures Cacheless(lib, k, Flush(d, key), Flush(e, key))
  {
    hide Flush;
    FlushUniform(lib, k, d, key);
    FlushSame(d, e.cache, key);
  }

  lemma RefilledCacheless(lib: Library, k: nat, d: Dec, key: BlockKey, cache: map<nat, Code>, word: seq<Shard>)
    requires Uniformly(lib, k, d) && key in d.blocks && CacheFor(lib, k, cache)
    ensures Uniformly(lib, k, Flush(Refilled(d, key, cache, word), key).dec)
  {
    hide FlushOut;
    hide Filled;
  }

  lemma CodeUniform(lib: Library, k: nat, cache: map<nat, Code>, p: nat)
    requires CacheFor(lib, k, cache)
    ensures CodeFor(lib, cache, k, p).0 == CodeFor(lib, map[], k, p).0 && CacheFor(lib, k, CodeFor(lib, cache, k, p).1)
  {}

  lemma ReconstructCacheless(lib: Library, k: nat, d: Dec, key: BlockKey)
    requires Uniformly(lib, k, d) && key in d.blocks && d.blocks[key].k == k
    ensures Cacheless(lib, k, Reconstruct(lib, d, key), Reconstruct(lib, Forget(d), key))
  {
    var st := d.blocks[key];
    hide Flush;
    hide Refilled;
    hide HeldShards;
    hide CodeFor;
    hide CacheFor;
    CodeUniform(lib, k, d.cache, st.p);
    ReconstructSame(lib, d, map[], key);
    var (code, cache) := CodeFor(lib, d.cache, st.k, st.p);
    if code.Some? && lib.rebuild(code.value, HeldShards(st)).Some? {
      RefilledCacheless(lib, k, d, key, cache, lib.rebuild(code.value, HeldShards(st)).value);
    }
  }

  lemma DeliverCacheless(lib: Library, k: nat, d: Dec, key: BlockKey)
    requires Uniformly(lib, k, d) && key in d.blocks
    ensures Cacheless(lib, k, MaybeDeliver(lib, d, key), MaybeDeliver(lib, Forget(d), key))
  {
    var st := d.blocks[key];
    if st.k != 0 && |st.data| + |st.parity| >= st.k {
      if |st.data| == st.k {
        FlushCacheless(lib, k, d, Forget(d), key);
      } else {
        ReconstructCacheless(lib, k, d, key);
      }
    }
  }

  lemma AddedSays(k: nat, st: Held, f: Frame, deadline: int)
    requires Says(k, f) && (st.k == 0 || st.k == k)
    ensures var added := Added(st, f, deadline); added.Some? ==> added.value.k == 0 || added.value.k == k
  {}

  lemma PlaceSame(d: Dec, key: BlockKey, f: Frame, deadline: int)
    ensures var a, b := Place(d, key, f, deadline), Place(Forget(d), key, f, deadline);
            a.dec.cache == d.cache && a.Kept? == b.Kept? && b.dec == Forget(a.dec)
  {
    hide Added;
  }

  lemma PlaceUniform(lib: Library, k: nat, d: Dec, key: BlockKey, f: Frame, deadline: int)
    requires Uniformly(lib, k, d) && Says(k, f)
    ensures OneShape(k, Place(d, key, f, deadline).dec.blocks)
  {
    hide Added;
    hide Counted;
    AddedSays(k, Slot(d.blocks, key), f, deadline);
  }

  lemma PushCacheless(lib: Library, k: nat, d: Dec, key: BlockKey, f: Frame, deadline: int)
    requires Uniformly(lib, k, d) && Says(k, f)
    ensures Sound(Forget(d))
    ensures Cacheless(lib, k, PushBlock(lib, d, key, f, deadline), PushBlock(lib, Forget(d), key, f, deadline))
  {
    hide Place;
    hide MaybeDeliver;
    PlaceSame(d, key, f, deadline);
    PlaceUniform(lib, k, d, key, f, deadline);
    PlaceSound(d, key, f, deadline);
    var a := Place(d, key, f, deadline);
    if a.Kept? { DeliverCacheless(lib, k, a.dec, key); }
  }

  lemma ReceiveCacheless(lib: Library, k: nat, d: Dec, path: string, f: Frame, now: int)
    requires Uniformly(lib, k, d) && Says(k, f)
    ensures Sound(Forget(d)) && Cacheless(lib, k, Push(lib, d, path, f, now), Push(lib, Forget(d), path, f, now))
  {
    hide PushBlock;
    PushCacheless(lib, k, d, KeyOf(d.params, path, f), f, now + d.params.timeout);
  }

  lemma {:induction false} FlushAllCacheless(lib: Library, k: nat, d: Dec, order: seq<BlockKey>)
    requires Uniformly(lib, k, d)
    ensures Cacheless(lib, k, FlushAll(d, order), FlushAll(Forget(d), order))
    decreases |order|
  {
    hide Flush;
    if order != [] {
      FlushAllCacheless(lib, k, d, order[..|order| - 1]);
      var a, b, key := FlushAll(d, order[..|order| - 1]), FlushAll(Forget(d), order[..|order| - 1]), order[|order| - 1];
      SameBut(a.dec, b.dec);
      if key in a.dec.blocks { FlushCacheless(lib, k, a.dec, b.dec, key); }
    }
  }

  lemma SameBut(d: Dec, e: Dec)
    requires Forget(d) == Forget(e)
    ensures e == d.(cache := e.cache)
  {
    assert e == Forget(e).(cache := e.cache);
    assert d.(cache := e.cache) == Forget(d).(cache := e.cache);
  }

  lemma TickCacheless(lib: Library, k: nat, d: Dec, now: int, order: seq<BlockKey>)
    requires Uniformly(lib, k, d)
    ensures Cacheless(lib, k, Tick(d, now, order), Tick(Forget(d), now, order))
  {
    hide FlushAll;
    var aged := d.(pathSeq := map s | s in d.pathSeq :: PathLedger.FlushGap(d.pathSeq[s], now));
    FlushAllCacheless(lib, k, aged, order);
  }

  lemma DoCacheless(lib: Library, k: nat, d: Dec, act: Act)
    requires Uniformly(lib, k, d) && (act.Received? ==> Says(k, act.f))
    ensures Sound(Forget(d)) && Cacheless(lib, k, Do(lib, d, act), Do(lib, Forget(d), act))
  {
    hide Push;
    hide Tick;
    match act
    case Received(path, f, now) => ReceiveCacheless(lib, k, d, path, f, now);
    case Ticked(now, order) => TickCacheless(lib, k, d, now, order);
  }

  /** A run of a decoder without a cache: it makes every code afresh. */
  ghost function RunBare(lib: Library, d: Dec, acts: seq<Act>, n: nat): (o: Outcome)
    requires Sound(d) && n <= |acts|
    ensures Sound(o.dec)
  {
    if n == 0 then Outcome(Forget(d), [], [])
    else
      var before := RunBare(lib, d, acts, n - 1);
      DoOrderly(lib, before.dec, acts[n - 1]);
      var o := After(before, Do(lib, before.dec, acts[n - 1]));
      o.(dec := Forget(o.dec))
  }

  /** Whatever arrives, as long as all parity headers carry one k: the decoder does what it would do without a cache. */
  lemma {:induction false} CacheIsInvisible(lib: Library, k: nat, d: Dec, acts: seq<Act>, n: nat)
    requires Uniformly(lib, k, d) && AllSay(k, acts) && n <= |acts|
    ensures Uniformly(lib, k, Run(lib, d, acts, n).dec)
    ensures var o := Run(lib, d, acts, n); RunBare(lib, d, acts, n) == o.(dec := Forget(o.dec))
  {
    hide Do;
    if n > 0 {
      CacheIsInvisible(lib, k, d, acts, n - 1);
      DoCacheless(lib, k, Run(lib, d, acts, n - 1).dec, acts[n - 1]);
    }
  }

  // ---------------------------------------------------------------------
  // Any frames: what is cached for p is a code the library made, with p parity shards.

  lemma DeliverKeepsMade(lib: Library, d: Dec, key: BlockKey)
    requires CacheMade(lib, d.cache) && key in d.blocks && WellFormed(d.blocks[key])
    ensures CacheMade(lib, MaybeDeliver(lib, d, key).dec.cache)
  {
    hide Flush;
    hide Filled;
    hide HeldShards;
    hide CodeFor;
    hide CacheMade;
    var st := d.blocks[key];
    FlushKeepsCache(d, key);
    var (code, cache) := CodeFor(lib, d.cache, st.k, st.p);
    CodeMade(lib, d.cache, st.k, st.p);
    if code.Some? && lib.rebuild(code.value, HeldShards(st)).Some? {
      FlushKeepsCache(Refilled(d, key, cache, lib.rebuild(code.value, HeldShards(st)).value), key);
    }
  }

  lemma CodeMade(lib: Library, cache: map<nat, Code>, k: nat, p: nat)
    requires CacheMade(lib, cache)
    ensures CacheMade(lib, CodeFor(lib, cache, k, p).1)
  {}

  lemma FlushKeepsCache(d: Dec, key: BlockKey)
    requires key in d.blocks
    ensures Flush(d, key).dec.cache == d.cache
  {
    hide FlushOut;
    hide FlushLost;
  }

  lemma {:induction false} FlushAllKeepsCache(d: Dec, order: seq<BlockKey>)
    ensures FlushAll(d, order).dec.cache == d.cache
    decreases |order|
  {
    hide FlushOut;
    hide FlushLost;
    if order != [] { FlushAllKeepsCache(d, order[..|order| - 1]); }
  }

  lemma DoKeepsMade(lib: Library, d: Dec, act: Act)
    requires Sound(d) && CacheMade(lib, d.cache)
    ensures CacheMade(lib, Do(lib, d, act).dec.cache)
  {
    hide Place;
    hide MaybeDeliver;
    hide FlushAll;
    match act
    case Received(path, f, now) =>
      var key, deadline := KeyOf(d.params, path, f), now + d.params.timeout;
      PlaceSame(d, key, f, deadline);
      PlaceSound(d, key, f, deadline);
      if Place(d, key, f, deadline).Kept? { DeliverKeepsMade(lib, Place(d, key, f, deadline).dec, key); }
    case Ticked(now, order) =>
      FlushAllKeepsCache(d.(pathSeq := map s | s in d.pathSeq :: PathLedger.FlushGap(d.pathSeq[s], now)), order);
  }

  lemma {:induction false} AlwaysMade(lib: Library, d: Dec, acts: seq<Act>, n: nat)
    requires Sound(d) && CacheMade(lib, d.cache) && n <= |acts|
    ensures CacheMade(lib, Run(lib, d, acts, n).dec.cache)
  {
    hide Do;
    if n > 0 {
      AlwaysMade(lib, d, acts, n - 1);
      DoKeepsMade(lib, Run(lib, d, acts, n - 1).dec, acts[n - 1]);
    }
  }
}
