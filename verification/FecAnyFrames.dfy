/** What a decoder keeps on any frames at all, honest or not. */
module FecAnyFrames {
  import opened Bytes
  import opened Erasure
  import opened Frames
  import opened FecBlock
  import opened FecSizing
  import opened FecDecoder
  import opened FecDecoderRuns
  import PathLedger

  /** The header of a block, once seen. */
  ghost predicate SameHeader(a: Held, b: Held) {
    a.k == b.k && a.p == b.p && a.maxLen == b.maxLen && a.seqs == b.seqs && a.lens == b.lens
  }

  /** From one buffer of a block to a later one: the header stays once seen, payloads and the deadline stay. */
  ghost predicate Grows(a: Held, b: Held) {
    && (a.k != 0 ==> SameHeader(a, b))
    && (forall q :: q in a.data ==> q in b.data && b.data[q] == a.data[q])
    && (a.deadline.Some? && (a.data != map[] || a.parity != map[]) ==> b.deadline == a.deadline)
  }

  lemma AddedGrows(st: Held, f: Frame, deadline: int)
    requires Added(st, f, deadline).Some?
    ensures Grows(st, Added(st, f, deadline).value)
  {
    if st.data != map[] { assert |st.data| > 0; }
    if st.parity != map[] { assert |st.parity| > 0; }
  }

  /** What a step does to a block that is in the table before and after it. */
  ghost predicate TableGrows(d: Dec, e: Dec, key: BlockKey) {
    key in d.blocks && key in e.blocks ==> Grows(d.blocks[key], e.blocks[key])
  }

  lemma GrowsSelf(a: Held)
    ensures Grows(a, a)
  {}

  lemma DeliverKeeps(lib: Library, d: Dec, key: BlockKey, other: BlockKey)
    requires key in d.blocks && WellFormed(d.blocks[key])
    ensures var e := MaybeDeliver(lib, d, key).dec;
            other in e.blocks ==> other in d.blocks && e.blocks[other] == d.blocks[other]
  {
    hide Filled;
    hide FlushOut;
    hide HeldShards;
  }

  lemma PushGrows(lib: Library, d: Dec, at: BlockKey, f: Frame, deadline: int, key: BlockKey)
    requires Sound(d)
    ensures TableGrows(d, PushBlock(lib, d, at, f, deadline).dec, key)
  {
    hide MaybeDeliver;
    hide Grows;
    hide Added;
    PlaceSound(d, at, f, deadline);
    if key in d.blocks { GrowsSelf(d.blocks[key]); }
    if Added(Slot(d.blocks, at), f, deadline).Some? { AddedGrows(Slot(d.blocks, at), f, deadline); }
    match Place(d, at, f, deadline)
    case Refused(e) =>
    case Kept(e) => DeliverKeeps(lib, e, at, key);
  }

  lemma {:induction false} FlushesLeave(d: Dec, order: seq<BlockKey>, key: BlockKey)
    ensures var e := FlushAll(d, order).dec; key in e.blocks ==> key in d.blocks && e.blocks[key] == d.blocks[key]
    decreases |order|
  {
    if order != [] { FlushesLeave(d, order[..|order| - 1], key); }
  }

  lemma DoGrows(lib: Library, d: Dec, act: Act, key: BlockKey)
    requires Sound(d)
    ensures TableGrows(d, Do(lib, d, act).dec, key)
  {
    hide PushBlock;
    hide FlushAll;
    hide Grows;
    if key in d.blocks { GrowsSelf(d.blocks[key]); }
    match act
    case Received(path, f, now) => PushGrows(lib, d, KeyOf(d.params, path, f), f, now + d.params.timeout, key);
    case Ticked(now, order) =>
      FlushesLeave(d.(pathSeq := map s | s in d.pathSeq :: PathLedger.FlushGap(d.pathSeq[s], now)), order, key);
  }

  /**
   In every run over any frames, as long as a block stays in the table its header stays as first seen, and each number
   keeps the payload that first came under it.
   */
  lemma FirstSeenStays(lib: Library, d: Dec, acts: seq<Act>, n: nat, key: BlockKey)
    requires Sound(d) && n < |acts|
    ensures TableGrows(Run(lib, d, acts, n).dec, Run(lib, d, acts, n + 1).dec, key)
  {
    hide Do;
    hide TableGrows;
    DoGrows(lib, Run(lib, d, acts, n).dec, acts[n], key);
  }

  /** A parity payload that the block does not take: unreadable, or of another k or shard size than the header seen. */
  ghost predicate Disagrees(st: Held, payload: seq<Byte>) {
    match Parse(payload)
    case None => true
    case Some((h, _)) => st.k != 0 && (h.k != st.k || h.maxLen != st.maxLen)
  }

  /** Such a frame hands nothing on and leaves the block's buffer as it was. */
  lemma DisagreeingIgnored(lib: Library, d: Dec, path: string, f: Frame, now: int)
    requires Sound(d) && Enabled(d.params) && IsParity(f)
    requires Disagrees(Slot(d.blocks, KeyOf(d.params, path, f)), f.payload)
    ensures var o, key := Push(lib, d, path, f, now), KeyOf(d.params, path, f);
            o.out == [] && o.done == [] && Slot(o.dec.blocks, key) == Slot(d.blocks, key) && o.dec.stats == d.stats
  {
    hide MaybeDeliver;
    hide Parse;
  }

  // ---------------------------------------------------------------------
  // Without coding.

  /** The data frames among those received, in order. */
  ghost function DataReceived(acts: seq<Act>, n: nat): seq<Frame>
    requires n <= |acts|
  {
    if n == 0 then []
    else DataReceived(acts, n - 1)
         + if acts[n - 1].Received? && !IsParity(acts[n - 1].f) then [acts[n - 1].f] else []
  }

  lemma IdleDo(lib: Library, d: Dec, act: Act)
    requires Sound(d) && !Enabled(d.params)
    ensures var o := Do(lib, d, act);
            && o.out == (if act.Received? && !IsParity(act.f) then [act.f] else []) && o.dec.params == d.params
            && o.dec.blocks == d.blocks
  {}

  /** In every run a decoder without coding hands on exactly the data frames it received, as they came. */
  lemma {:induction false} DisabledPasses(lib: Library, d: Dec, acts: seq<Act>, n: nat)
    requires Sound(d) && !Enabled(d.params) && n <= |acts|
    ensures var o := Run(lib, d, acts, n);
            o.out == DataReceived(acts, n) && o.dec.params == d.params && o.dec.blocks == d.blocks
  {
    hide Do;
    if n > 0 {
      DisabledPasses(lib, d, acts, n - 1);
      IdleDo(lib, Run(lib, d, acts, n - 1).dec, acts[n - 1]);
    }
  }
}
