/** What one encoder puts on the wire is honest traffic for the decoder of the same stream. */
module Sender {
  import opened Bytes
  import opened Erasure
  import opened Frames
  import opened FecBlock
  import opened FecSizing
  import opened FecEncoder
  import opened FecReassembly
  import FecDecoder
  import FecDecoderRuns

  /** A frame as it leaves: pass-through frames carry the path's counter, parity frames a number of their own. */
  function OnWire(f: Frame, counter: U32, own: U32): Frame {
    var numbered := if IsParity(f) then f.(seqNo := own) else f;
    if IsPass(f) then numbered.(blockSeq := counter) else numbered
  }

  /** The sealed blocks by key: the n-th has number n. */
  function RegistryOf(blocks: seq<Block>, session: U64, path: string, n: nat): (reg: Registry)
    requires n <= |blocks| && n < TWO32
    ensures forall key :: key in reg <==> key.session == session && key.path == path && 1 <= key.id <= n
    ensures forall key :: key in reg ==> reg[key] == blocks[key.id - 1]
  {
    if n == 0 then map[]
    else RegistryOf(blocks, session, path, n - 1)[FecDecoder.BlockKey(session, path, n) := blocks[n - 1]]
  }

  ghost predicate TruthfulBlock(sent: FecDecoderRuns.Sent, b: Block) {
    forall i :: 0 <= i < |b.data| ==>
      (b.session, b.data[i].seqNo) in sent && sent[(b.session, b.data[i].seqNo)] == b.data[i].payload
  }

  lemma BlockContent(sent: FecDecoderRuns.Sent, b: Block)
    requires TruthfulBlock(sent, b)
    ensures FecDecoderRuns.TruthfulAll(sent, Content(b))
  {}

  /** A sealed block holds exactly the frames that were waiting. */
  lemma SealingHolds(lib: Library, e: Enc, ev: Event)
    requires Invariant(lib, e) && Sealing(lib, e, ev).Some?
    ensures e.pending + Input(ev) != []
    ensures var b := Sealing(lib, e, ev).value;
            b.data == Datums(e.pending + Input(ev)) && b.session == (e.pending + Input(ev))[0].session
  {
    RefreshKeeps(lib, e, ev.now);
    if ev.Ticked? { assert e.pending + Input(ev) == e.pending; }
  }

  lemma DatumsTruthful(sent: FecDecoderRuns.Sent, frames: seq<Frame>, b: Block, session: U64)
    requires Pure(frames, session) && frames != [] && FecDecoderRuns.TruthfulAll(sent, frames)
    requires b.data == Datums(frames) && b.session == frames[0].session
    ensures TruthfulBlock(sent, b)
  {
    forall i | 0 <= i < |b.data|
      ensures (b.session, b.data[i].seqNo) in sent && sent[(b.session, b.data[i].seqNo)] == b.data[i].payload
    {
      assert frames[i] in frames;
    }
  }

  lemma {:induction false} BlocksTruthful(lib: Library, e0: Enc, evs: seq<Event>, session: U64,
                                          sent: FecDecoderRuns.Sent)
    requires ErasureContract(lib) && Invariant(lib, e0) && e0.pending == [] && e0.blocksCoded == 0
    requires Pure(Run(lib, e0, evs).pushed, session) && FecDecoderRuns.TruthfulAll(sent, Run(lib, e0, evs).pushed)
    ensures AllTruthful(sent, Run(lib, e0, evs).blocks)
  {
    if evs != [] {
      var init, ev := evs[..|evs| - 1], evs[|evs| - 1];
      var t := Run(lib, e0, init);
      assert Run(lib, e0, evs).pushed == t.pushed + Input(ev);
      PrefixPure(t.pushed, Input(ev), session);
      BlocksTruthful(lib, e0, init, session, sent);
      EmissionHonest(lib, e0, init, session);
      ExtendTruthful(lib, t, ev, session, sent);
    }
  }

  ghost predicate AllTruthful(sent: FecDecoderRuns.Sent, blocks: seq<Block>) {
    forall n :: 0 <= n < |blocks| ==> TruthfulBlock(sent, blocks[n])
  }

  lemma ExtendTruthful(lib: Library, t: Trace, ev: Event, session: U64, sent: FecDecoderRuns.Sent)
    requires Invariant(lib, t.enc) && HonestTrace(lib, t, session) && AllTruthful(sent, t.blocks)
    requires Pure(t.pushed + Input(ev), session) && FecDecoderRuns.TruthfulAll(sent, t.pushed + Input(ev))
    ensures AllTruthful(sent, Extend(lib, t, ev).blocks)
  {
    if Sealing(lib, t.enc, ev).Some? {
      SealedTruthful(lib, t, ev, session, sent);
    }
  }

  lemma PrefixPure(a: seq<Frame>, b: seq<Frame>, session: U64)
    requires Pure(a + b, session)
    ensures Pure(a, session)
  {
    assert forall i :: 0 <= i < |a| ==> (a + b)[i] == a[i];
  }

  lemma SealedTruthful(lib: Library, t: Trace, ev: Event, session: U64, sent: FecDecoderRuns.Sent)
    requires Invariant(lib, t.enc) && HonestTrace(lib, t, session) && Sealing(lib, t.enc, ev).Some?
    requires Pure(t.pushed + Input(ev), session) && FecDecoderRuns.TruthfulAll(sent, t.pushed + Input(ev))
    ensures TruthfulBlock(sent, Sealing(lib, t.enc, ev).value)
  {
    SealingHolds(lib, t.enc, ev);
    var all, waiting := t.pushed + Input(ev), t.enc.pending + Input(ev);
    assert waiting == all[|all| - |waiting|..];
    SuffixPure(all, |all| - |waiting|, session, sent);
    DatumsTruthful(sent, waiting, Sealing(lib, t.enc, ev).value, session);
  }

  lemma SuffixPure(all: seq<Frame>, from: nat, session: U64, sent: FecDecoderRuns.Sent)
    requires from <= |all| && Pure(all, session) && FecDecoderRuns.TruthfulAll(sent, all)
    ensures Pure(all[from..], session) && FecDecoderRuns.TruthfulAll(sent, all[from..])
  {
    forall f | f in all[from..] ensures FecDecoderRuns.Truthful(sent, f) {
      assert f in all;
    }
  }

  // ---------------------------------------------------------------------
  // What the decoder of the stream makes of it.

  /** The frame stands outside any block and is true. */
  ghost predicate TrueAside(sent: FecDecoderRuns.Sent, f: Frame) {
    !IsParity(f) && (IsPass(f) || f.blockSeq == 0) && FecDecoderRuns.Truthful(sent, f)
  }

  /** What the decoder may meet on a path: a true frame outside any block, or a frame of a registered block. */
  ghost predicate Honest(lib: Library, sent: FecDecoderRuns.Sent, reg: Registry, p: Params, path: string, f: Frame) {
    TrueAside(sent, f) || exists i: nat :: FecDecoderRuns.OfBlock(lib, reg, FecDecoder.KeyOf(p, path, f), i, f)
  }

  function Slot(p: Params, path: string): string { if p.crossPath then "" else path }

  lemma UncodedOnWire(sent: FecDecoderRuns.Sent, pushed: seq<Frame>, f: Frame, counter: U32, own: U32)
    requires IsUncoded(pushed, f) && FecDecoderRuns.TruthfulAll(sent, pushed)
    ensures TrueAside(sent, OnWire(f, counter, own))
  {
    var j :| 0 <= j < |pushed| && IdOf(pushed[j]) == IdOf(f);
    assert pushed[j] in pushed;
  }

  lemma WireIsFrame(lib: Library, b: Block, f: Frame, i: nat, counter: U32, own: U32)
    requires i < |b.data| + b.p && IsFrame(lib, b, i, f)
    ensures var g := OnWire(f, counter, own); IsFrame(lib, b, i, g) && g.session == b.session && g.blockSeq == b.id
  {
    hide ParityShards;
  }

  lemma CodedOnWire(lib: Library, blocks: seq<Block>, session: U64, p: Params, path: string, f: Frame, n: nat, i: nat,
                    counter: U32, own: U32)
    requires |blocks| < TWO32 && IsCoded(lib, blocks, f, n, i) && blocks[n].id == n + 1 && blocks[n].session == session
    ensures var reg, g := RegistryOf(blocks, session, Slot(p, path), |blocks|), OnWire(f, counter, own);
            FecDecoderRuns.OfBlock(lib, reg, FecDecoder.KeyOf(p, path, g), i, g)
  {
    WireIsFrame(lib, blocks[n], f, i, counter, own);
    hide RegistryOf;
    hide IsFrame;
    hide OnWire;
    var reg := RegistryOf(blocks, session, Slot(p, path), |blocks|);
    assert FecDecoder.BlockKey(session, Slot(p, path), n + 1) in reg;
  }

  lemma CodedIndex(lib: Library, t: Trace, session: U64, f: Frame) returns (n: nat, i: nat)
    requires HonestTrace(lib, t, session) && |t.blocks| < TWO32 && f in t.emitted && !IsUncoded(t.pushed, f)
    ensures IsCoded(lib, t.blocks, f, n, i) && t.blocks[n].id == n + 1 && t.blocks[n].session == session
  {
    assert Accounted(lib, t, f);
    n, i :| IsCoded(lib, t.blocks, f, n, i);
    assert t.blocks[n].id == (n + 1) % TWO32;
  }

  lemma EmittedHonest(lib: Library, t: Trace, session: U64, sent: FecDecoderRuns.Sent, p: Params, path: string,
                      f: Frame, counter: U32, own: U32)
    requires HonestTrace(lib, t, session) && FecDecoderRuns.TruthfulAll(sent, t.pushed) && |t.blocks| < TWO32
    requires f in t.emitted
    ensures Honest(lib, sent, RegistryOf(t.blocks, session, Slot(p, path), |t.blocks|), p, path,
                   OnWire(f, counter, own))
  {
    if IsUncoded(t.pushed, f) {
      UncodedOnWire(sent, t.pushed, f, counter, own);
    } else {
      var n, i := CodedIndex(lib, t, session, f);
      CodedOnWire(lib, t.blocks, session, p, path, f, n, i, counter, own);
    }
  }

  /**
   Every frame an encoder run emits arrives as an honest frame: a true frame outside any block, or a frame of
   a block that the stream's registry holds under the key the decoder uses.
   */
  lemma SenderHonest(lib: Library, e0: Enc, evs: seq<Event>, session: U64, sent: FecDecoderRuns.Sent, p: Params,
                     path: string, f: Frame, counter: U32, own: U32)
    requires ErasureContract(lib) && Invariant(lib, e0) && e0.pending == [] && e0.blocksCoded == 0
    requires Pure(Run(lib, e0, evs).pushed, session) && FecDecoderRuns.TruthfulAll(sent, Run(lib, e0, evs).pushed)
    requires |Run(lib, e0, evs).blocks| < TWO32 && f in Run(lib, e0, evs).emitted
    ensures var blocks := Run(lib, e0, evs).blocks;
            Honest(lib, sent, RegistryOf(blocks, session, Slot(p, path), |blocks|), p, path, OnWire(f, counter, own))
  {
    EmissionHonest(lib, e0, evs, session);
    EmittedHonest(lib, Run(lib, e0, evs), session, sent, p, path, f, counter, own);
  }

  /** The registry of an encoder run holds valid and true blocks. */
  lemma RegistryHonest(lib: Library, e0: Enc, evs: seq<Event>, session: U64, sent: FecDecoderRuns.Sent, path: string)
    requires ErasureContract(lib) && Invariant(lib, e0) && e0.pending == [] && e0.blocksCoded == 0
    requires Pure(Run(lib, e0, evs).pushed, session) && FecDecoderRuns.TruthfulAll(sent, Run(lib, e0, evs).pushed)
    requires |Run(lib, e0, evs).blocks| < TWO32
    ensures var t := Run(lib, e0, evs);
            var reg := RegistryOf(t.blocks, session, path, |t.blocks|);
            ValidRegistry(lib, t.enc.params.k, reg) && FecDecoderRuns.TruthfulBlocks(sent, reg)
  {
    EmissionHonest(lib, e0, evs, session);
    BlocksTruthful(lib, e0, evs, session, sent);
    TraceRegistry(lib, Run(lib, e0, evs), session, sent, path);
  }

  lemma TraceRegistry(lib: Library, t: Trace, session: U64, sent: FecDecoderRuns.Sent, path: string)
    requires HonestTrace(lib, t, session) && AllTruthful(sent, t.blocks) && |t.blocks| < TWO32 && t.enc.params.k > 0
    ensures var reg := RegistryOf(t.blocks, session, path, |t.blocks|);
            ValidRegistry(lib, t.enc.params.k, reg) && FecDecoderRuns.TruthfulBlocks(sent, reg)
  {
    hide HonestTrace;
    hide AllTruthful;
    hide RegistryOf;
    hide Registered;
    hide FecDecoderRuns.TruthfulAll;
    var reg := RegistryOf(t.blocks, session, path, |t.blocks|);
    forall key | key in reg
      ensures Registered(lib, t.enc.params.k, reg[key], key) && FecDecoderRuns.TruthfulAll(sent, Content(reg[key]))
    {
      RegisteredBlock(lib, t, session, sent, path, key);
    }
  }

  lemma RegisteredBlock(lib: Library, t: Trace, session: U64, sent: FecDecoderRuns.Sent, path: string,
                        key: FecDecoder.BlockKey)
    requires HonestTrace(lib, t, session) && AllTruthful(sent, t.blocks) && |t.blocks| < TWO32 && t.enc.params.k > 0
    requires key in RegistryOf(t.blocks, session, path, |t.blocks|)
    ensures var b := RegistryOf(t.blocks, session, path, |t.blocks|)[key];
            Registered(lib, t.enc.params.k, b, key) && FecDecoderRuns.TruthfulAll(sent, Content(b))
  {
    hide RegistryOf;
    hide TruthfulBlock;
    hide ValidBlock;
    hide Accounted;
    hide Pure;
    var n: nat := key.id - 1;
    assert t.blocks[n].id == n + 1 && t.blocks[n].session == session && ValidBlock(lib, t.enc.params.k, t.blocks[n]);
    assert TruthfulBlock(sent, t.blocks[n]);
    BlockContent(sent, t.blocks[n]);
  }
}
