/** A decoder tick flushes a block only when the timeout has passed since the frame that opened it. */
module Timeliness {
  import opened Bytes
  import opened Erasure
  import opened FecDecoder
  import opened FecReassembly
  import opened Pipeline
  import opened Progress
  import FecAssembly
  import FecDecoderRuns
  import FecRuns
  import FecSizing
  import PathLedger

  // ---------------------------------------------------------------------
  // Deadlines of the phases.

  /** Between two worlds an open block keeps its deadline, and one that opens gets that of the event. */
  ghost predicate DeadlineKept(w: World, ev: FecRuns.Event, v: World, key: BlockKey) {
    IsOpen(v, key) ==>
      if IsOpen(w, key) then v[key].deadline == w[key].deadline
      else ev.Arrival? && ev.key == key && v[key].deadline == ev.deadline
  }

  lemma {:induction false} ExpireOpensNone(reg: Registry, w: World, order: seq<BlockKey>, key: BlockKey)
    ensures var v := Expire(reg, w, order).world; IsOpen(v, key) ==> IsOpen(w, key) && v[key] == w[key]
    decreases |order|
  {
    if order != [] { ExpireOpensNone(reg, w, order[..|order| - 1], key); }
  }

  lemma StepDeadline(reg: Registry, w: World, ev: FecRuns.Event, key: BlockKey)
    requires FecRuns.ValidEvent(reg, ev)
    ensures DeadlineKept(w, ev, FecRuns.Step(reg, w, ev).world, key)
  {
    hide FecAssembly.Complete;
    hide Barred;
    match ev
    case Arrival(at, i, deadline) =>
    case Expiry(now, order) => ExpireOpensNone(reg, w, order, key);
    case Aside =>
  }

  lemma DeadlineIs(lib: Library, k: nat, reg: Registry, w: World, d: Dec, key: BlockKey)
    requires Tracks(lib, k, reg, w, d)
    ensures key in d.blocks <==> IsOpen(w, key)
    ensures key in d.blocks ==> key in reg && d.blocks[key].deadline == Some(w[key].deadline)
  {
    TableAt(lib, reg, w, d.blocks, key);
  }

  /** The same for a decoder's table. */
  ghost predicate TableDeadline(d: Dec, ev: FecRuns.Event, e: Dec, key: BlockKey) {
    key in e.blocks ==>
      if key in d.blocks then e.blocks[key].deadline == d.blocks[key].deadline
      else ev.Arrival? && ev.key == key && e.blocks[key].deadline == Some(ev.deadline)
  }

  lemma ActDeadline(lib: Library, k: nat, reg: Registry, w: World, d: Dec, act: FecDecoderRuns.Act, ev: FecRuns.Event,
                    key: BlockKey)
    requires ErasureContract(lib) && ValidRegistry(lib, k, reg) && Tracks(lib, k, reg, w, d) && Sound(d)
    requires FecDecoderRuns.Corresponds(lib, reg, d.params, act, ev) && FecRuns.ValidEvent(reg, ev)
    ensures TableDeadline(d, ev, FecDecoderRuns.Do(lib, d, act).dec, key)
  {
    hide ErasureContract;
    hide FecDecoderRuns.Do;
    hide FecRuns.Step;
    hide Tracks;
    FecDecoderRuns.ActFollows(lib, k, reg, w, d, act, ev);
    StepDeadline(reg, w, ev, key);
    DeadlineIs(lib, k, reg, w, d, key);
    DeadlineIs(lib, k, reg, FecRuns.Step(reg, w, ev).world, FecDecoderRuns.Do(lib, d, act).dec, key);
  }

  // ---------------------------------------------------------------------
  // Runs of the receive path.

  /** The frame of input j opened the block, which has been in the table since; its deadline is the timeout after. */
  ghost predicate OpenSince(s: Scene, j: nat, a: nat, n: nat, slot: string, key: BlockKey)
    requires Genuine(s) && n <= |s.inputs| && HasSlot(s, slot)
  {
    && j < n && Comes(s, j, slot, key, a) && key !in DecAt(s, j, slot).blocks
    && (forall m: nat :: j < m <= n ==> key in DecAt(s, m, slot).blocks)
    && key in DecAt(s, n, slot).blocks
    && DecAt(s, n, slot).blocks[key].deadline == Some(s.inputs[j].now + s.start.decs[slot].params.timeout)
  }

  /** What one input does to the deadline of a block. */
  lemma InputDeadline(s: Scene, n: nat, slot: string, key: BlockKey) returns (a: nat)
    requires Genuine(s) && n < |s.inputs| && HasSlot(s, slot) && FecSizing.Enabled(s.start.decs[slot].params)
    requires key in DecAt(s, n + 1, slot).blocks
    ensures var d, e := DecAt(s, n, slot), DecAt(s, n + 1, slot);
            if key in d.blocks then e.blocks[key].deadline == d.blocks[key].deadline
            else Comes(s, n, slot, key, a)
                 && e.blocks[key].deadline == Some(s.inputs[n].now + s.start.decs[slot].params.timeout)
  {
    hide Run;
    hide HonestInput;
    hide ErasureContract;
    hide FecDecoderRuns.Do;
    hide FecDecoderRuns.Corresponds;
    hide FecRuns.ValidEvent;
    hide Handed;
    hide Comes;
    hide Concerns;
    hide DecAt;
    a := 0;
    DecoderSteps(s, n, slot);
    if Concerns(s, n, slot) {
      ParamsStay(s, n, slot);
      var w := Tracked(s, n, slot);
      var ev := Meant(s, n, slot);
      hide Tracks;
      hide ValidRegistry;
      ActDeadline(s.lib, s.streams[slot].k, s.streams[slot].reg, w, DecAt(s, n, slot), ActOf(s.inputs[n]), ev, key);
      if key !in DecAt(s, n, slot).blocks {
        a := ev.i;
        SameKey(s, n, slot, ev);
      }
    }
  }

  lemma SameKey(s: Scene, n: nat, slot: string, ev: FecRuns.Event)
    requires Genuine(s) && n < |s.inputs| && HasSlot(s, slot) && Concerns(s, n, slot) && ev.Arrival?
    requires FecDecoderRuns.Corresponds(s.lib, s.streams[slot].reg, DecAt(s, n, slot).params, ActOf(s.inputs[n]), ev)
    ensures s.inputs[n].Came? && Comes(s, n, slot, ev.key, ev.i)
    ensures ev.deadline == s.inputs[n].now + DecAt(s, n, slot).params.timeout
  {
    hide GoodHistory;
    hide Run;
    hide HonestInput;
    hide FecDecoderRuns.OfBlock;
    GoodAt(s, n);
    hide Followed;
    assert DecAt(s, n, slot).params.crossPath == s.c.crossPath;
    assert KeyOf(Routing(s.c), s.inputs[n].path, s.inputs[n].f)
        == KeyOf(DecAt(s, n, slot).params, s.inputs[n].path, s.inputs[n].f);
  }

  /** Every block in the table was opened by a frame of it, and its deadline is the timeout after that frame. */
  lemma {:induction false} Opener(s: Scene, n: nat, slot: string, key: BlockKey) returns (j: nat, a: nat)
    requires Genuine(s) && n <= |s.inputs| && HasSlot(s, slot) && FecSizing.Enabled(s.start.decs[slot].params)
    requires key in DecAt(s, n, slot).blocks
    ensures OpenSince(s, j, a, n, slot, key)
  {
    hide Run;
    hide HonestInput;
    hide DecAt;
    hide Comes;
    TableEmptyAtFirst(s, slot);
    j := n - 1;
    a := InputDeadline(s, n - 1, slot, key);
    if key in DecAt(s, n - 1, slot).blocks { j, a := Opener(s, n - 1, slot, key); }
  }

  lemma TableEmptyAtFirst(s: Scene, slot: string)
    requires Genuine(s) && HasSlot(s, slot)
    ensures DecAt(s, 0, slot).blocks == map[]
  {
    hide DecAt;
    FirstDec(s, slot);
  }

  /** Decoder ticks visit the overdue blocks. */
  ghost predicate Punctual(s: Scene)
    requires AllSound(s.start.decs)
  {
    OnTime(s.lib, s.c, s.start, s.inputs, |s.inputs|)
  }

  lemma VisitsThen(s: Scene, m: nat, slot: string)
    requires Genuine(s) && Punctual(s) && m < |s.inputs| && HasSlot(s, slot)
    requires s.inputs[m].DecoderTicked? && s.inputs[m].slot == slot
    requires FecSizing.Enabled(s.start.decs[slot].params)
    ensures VisitsOverdue(DecAt(s, m, slot), s.inputs[m].now, s.inputs[m].order)
  {
    hide HonestInput;
    hide Run;
    hide VisitsOverdue;
    GoodAt(s, m);
    ParamsStay(s, m, slot);
    assert VisitsDue(At(s, m), s.inputs[m]);
  }

  lemma TickFlushesOverdue(d: Dec, now: int, order: seq<BlockKey>, key: BlockKey)
    requires VisitsOverdue(d, now, order) && key in d.blocks && key !in Tick(d, now, order).dec.blocks
    ensures Overdue(d, key, now)
  {
    hide FlushAll;
    var aged := d.(pathSeq := map s | s in d.pathSeq :: PathLedger.FlushGap(d.pathSeq[s], now));
    FecDecoderRuns.FlushAllRemoves(aged, order);
  }

  lemma TicksThen(s: Scene, m: nat, slot: string)
    requires Genuine(s) && m < |s.inputs| && HasSlot(s, slot)
    requires s.inputs[m].DecoderTicked? && s.inputs[m].slot == slot
    ensures DecAt(s, m + 1, slot) == Tick(DecAt(s, m, slot), s.inputs[m].now, s.inputs[m].order).dec
  {
    hide Run;
    hide DecAt;
    hide Handed;
    hide HonestInput;
    hide Tick;
    DecoderSteps(s, m, slot);
  }

  /** The block was opened by the frame of input j, and the tick at input m comes at least the timeout later. */
  ghost predicate Expired(s: Scene, j: nat, a: nat, m: nat, slot: string, key: BlockKey)
    requires Genuine(s) && HasSlot(s, slot)
  {
    && j < m < |s.inputs| && OpenSince(s, j, a, m, slot, key)
    && s.inputs[m].DecoderTicked? && s.inputs[m].slot == slot
    && s.inputs[m].now >= s.inputs[j].now + s.start.decs[slot].params.timeout
  }

  /** A decoder tick flushes a block only when the timeout has passed since the frame that opened it. */
  lemma FlushedWhenExpired(s: Scene, m: nat, slot: string, key: BlockKey, i: nat) returns (j: nat, a: nat)
    requires Genuine(s) && Punctual(s) && m < |s.inputs| && DataOf(s, slot, key, i)
    requires TimesOut(s, m, slot, key, Number(s, slot, key, i))
    ensures Expired(s, j, a, m, slot, key)
  {
    hide Run;
    hide HonestInput;
    hide DecAt;
    hide Tick;
    hide VisitsOverdue;
    j, a := Opener(s, m, slot, key);
    TicksThen(s, m, slot);
    VisitsThen(s, m, slot);
    TickFlushesOverdue(DecAt(s, m, slot), s.inputs[m].now, s.inputs[m].order, key);
  }

  /** No decoder tick comes the timeout or more after the frame that opened the block and before input n. */
  ghost predicate InTime(s: Scene, n: nat, slot: string, key: BlockKey)
    requires Genuine(s) && HasSlot(s, slot)
  {
    forall j: nat, a: nat, m: nat :: m < n ==> !Expired(s, j, a, m, slot, key)
  }

  /** A frame that comes in time is too late only if its block was closed before its first frame came. */
  lemma InTimeNotFlushed(s: Scene, j: nat, slot: string, key: BlockKey, i: nat)
    requires Genuine(s) && Punctual(s) && j < |s.inputs| && DataOf(s, slot, key, i)
    requires InTime(s, j, slot, key) && TooLate(s, j, slot, key, i)
    ensures Shut(s, j, slot, key)
  {
    hide Run;
    hide HonestInput;
    hide DecAt;
    hide Shut;
    hide Expired;
    hide Punctual;
    hide TimesOut;
    if m: nat :| m < j && TimesOut(s, m, slot, key, Number(s, slot, key, i)) {
      var b, a := FlushedWhenExpired(s, m, slot, key, i);
    }
  }
}
