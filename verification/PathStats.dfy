/** The raw loss counters of a decoder are the path ledger of the pass-through frames it was given. */
module PathStats {
  import opened Bytes
  import opened Erasure
  import opened Frames
  import opened FecDecoder
  import opened FecDecoderRuns
  import PathLedger
  import Sender

  /** What the ledger of a stream is told by an act: the counter of a frame passing by on its path, or a tick. */
  ghost function Told(act: Act, s: StreamKey): seq<PathLedger.Event> {
    match act
    case Received(path, f, now) =>
      if IsPass(f) && !IsParity(f) && s == StreamKey(f.session, path) then [PathLedger.Saw(f.blockSeq, now)] else []
    case Ticked(now, _) => [PathLedger.Ticked(now)]
  }

  ghost function Heard(acts: seq<Act>, n: nat, s: StreamKey): seq<PathLedger.Event>
    requires n <= |acts|
  {
    if n == 0 then [] else Heard(acts, n - 1, s) + Told(acts[n - 1], s)
  }

  /**
   The counter a path stamps on a frame passing by is the one the ledger of that path is told; blocks tell it nothing.
   */
  lemma CounterReachesLedger(f: Frame, counter: U32, own: U32, path: string, now: int)
    requires !IsParity(f)
    ensures Told(Received(path, Sender.OnWire(f, counter, own), now), StreamKey(f.session, path))
         == if IsPass(f) then [PathLedger.Saw(counter, now)] else []
  {}

  /** What one more event makes of a stream's counters. */
  ghost function Next(s: PathLedger.Stat, evs: seq<PathLedger.Event>): PathLedger.Stat
    requires |evs| <= 1
  {
    if evs == [] then s
    else match evs[0]
      case Saw(c, now) => PathLedger.Observe(s, c, now)
      case Ticked(now) => PathLedger.FlushGap(s, now)
      case Taken => PathLedger.Take(s).0
  }

  lemma RunMore(evs: seq<PathLedger.Event>, more: seq<PathLedger.Event>)
    requires |more| <= 1
    ensures PathLedger.Run(evs + more).stat == Next(PathLedger.Run(evs).stat, more)
  {
    if more == [] {
      assert evs + more == evs;
    } else {
      assert (evs + more)[..|evs|] == evs && (evs + more)[|evs|] == more[0];
    }
  }

  lemma DeliverKeepsRaw(lib: Library, d: Dec, key: BlockKey)
    requires key in d.blocks && WellFormed(d.blocks[key])
    ensures MaybeDeliver(lib, d, key).dec.pathSeq == d.pathSeq
  {
    hide Filled;
    hide FlushOut;
    hide HeldShards;
  }

  lemma BlockKeepsRaw(lib: Library, d: Dec, key: BlockKey, f: Frame, deadline: int)
    requires Sound(d)
    ensures PushBlock(lib, d, key, f, deadline).dec.pathSeq == d.pathSeq
  {
    hide MaybeDeliver;
    PlaceSound(d, key, f, deadline);
    match Place(d, key, f, deadline)
    case Refused(e) =>
    case Kept(e) => DeliverKeepsRaw(lib, e, key);
  }

  lemma {:induction false} FlushesKeepRaw(d: Dec, order: seq<BlockKey>)
    ensures FlushAll(d, order).dec.pathSeq == d.pathSeq
    decreases |order|
  {
    if order != [] { FlushesKeepRaw(d, order[..|order| - 1]); }
  }

  lemma ActTells(lib: Library, d: Dec, act: Act, s: StreamKey)
    requires Sound(d)
    ensures RawOf(Do(lib, d, act).dec, s) == Next(RawOf(d, s), Told(act, s))
  {
    hide PushBlock;
    hide FlushAll;
    match act
    case Received(path, f, now) => BlockKeepsRaw(lib, d, KeyOf(d.params, path, f), f, now + d.params.timeout);
    case Ticked(now, order) =>
      FlushesKeepRaw(d.(pathSeq := map s | s in d.pathSeq :: PathLedger.FlushGap(d.pathSeq[s], now)), order);
  }

  /**
   In every run of a decoder, on any frames, the raw counters of each stream are those of the ledger run over the
   counters of the frames that passed by on its path, and the ticks.
   */
  lemma {:induction false} RawIsLedger(lib: Library, d: Dec, acts: seq<Act>, n: nat, s: StreamKey)
    requires Sound(d) && s !in d.pathSeq && n <= |acts|
    ensures RawOf(Run(lib, d, acts, n).dec, s) == PathLedger.Run(Heard(acts, n, s)).stat
  {
    hide Do;
    if n > 0 {
      RawIsLedger(lib, d, acts, n - 1, s);
      ActTells(lib, Run(lib, d, acts, n - 1).dec, acts[n - 1], s);
      RunMore(Heard(acts, n - 1, s), Told(acts[n - 1], s));
    }
  }
}
