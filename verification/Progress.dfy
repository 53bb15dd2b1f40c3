/**
 What becomes of every data frame that reaches the receive path: it is taken into the delivery buffer, given up by a
 delivery tick, or still held by a decoder; and exactly when a decoder refuses it.
 */
module Progress {
  import opened Bytes
  import opened Erasure
  import opened Frames
  import FecSizing
  import opened FecDecoder
  import opened Pipeline
  import opened FecHolding
  import Admission
  import Delivery
  import DeliveryObject
  import FecBlock
  import FecDecoderRuns
  import FecReassembly
  import FecRuns
  import HeadOfLine
  import ReplayWindow
  import Sender

  /** One session: its configuration, what the peer sent, the receive path at the start, and everything that came. */
  datatype Scene = Scene(lib: Library, c: Config, sent: FecDecoderRuns.Sent, streams: map<string, Stream>, start: Pipe,
                         inputs: seq<Input>, size: nat)

  /** Numbers start at one, and fewer than 2^31 are in use. */
  ghost predicate Numbers(sent: FecDecoderRuns.Sent) { Short(sent) && forall id :: id in sent ==> id.1 > 0 }

  /** Honest traffic from the start on. */
  ghost predicate Genuine(s: Scene) {
    && ErasureContract(s.lib) && TrueStreams(s.lib, s.sent, s.streams) && Starts(s.c, s.streams, s.start)
    && AllSound(s.start.decs) && s.size > 0 && s.start.filter == ReplayWindow.Fresh(s.size) && Numbers(s.sent)
    && forall i :: 0 <= i < |s.inputs| ==> HonestInput(s.lib, s.c, s.sent, s.streams, s.inputs[i])
  }

  ghost function At(s: Scene, n: nat): (p: Pipe)
    requires AllSound(s.start.decs) && n <= |s.inputs|
    ensures AllSound(p.decs)
  {
    Run(s.lib, s.c, s.start, s.inputs, n)
  }

  lemma GoodAt(s: Scene, n: nat)
    requires Genuine(s) && n <= |s.inputs|
    ensures Good(s.lib, s.c, s.sent, s.streams, At(s, n)) && At(s, n).decs.Keys == s.start.decs.Keys
  {
    AlwaysGood(s.lib, s.c, s.sent, s.streams, s.start, s.inputs, n);
    Admission.SlotsStay(s.lib, s.c, s.start, s.inputs, n);
  }

  lemma OneStep(s: Scene, n: nat)
    requires AllSound(s.start.decs) && n < |s.inputs|
    ensures At(s, n + 1) == Step(s.lib, s.c, At(s, n), s.inputs[n])
  {}

  // ---------------------------------------------------------------------
  // The delivery buffer: every number below next was taken in or given up by a tick.

  /** The tick at input j moved next past number q, which had not been taken in. */
  ghost predicate GivesUp(s: Scene, j: nat, q: nat)
    requires AllSound(s.start.decs) && j < |s.inputs|
  {
    && s.inputs[j].DeliveryTicked? && !Delivery.TakenIn(At(s, j).history, q)
    && At(s, j).history.buffer.next <= q < At(s, j + 1).history.buffer.next
  }

  ghost predicate GivenUp(s: Scene, n: nat, q: nat)
    requires AllSound(s.start.decs) && n <= |s.inputs|
  {
    exists j: nat :: j < n && GivesUp(s, j, q)
  }

  /** Number q was taken in, or given up by a delivery tick before it came. */
  ghost predicate Settled(s: Scene, n: nat, q: nat)
    requires AllSound(s.start.decs) && n <= |s.inputs|
  {
    Delivery.TakenIn(At(s, n).history, q) || GivenUp(s, n, q)
  }

  /** From history h to history g: nothing taken in is forgotten, and next passed only numbers taken in. */
  ghost predicate Passes(h: Delivery.History, g: Delivery.History, q: nat) {
    && (Delivery.TakenIn(h, q) ==> Delivery.TakenIn(g, q))
    && h.buffer.next <= g.buffer.next
    && (h.buffer.next <= q < g.buffer.next ==> Delivery.TakenIn(g, q))
  }

  lemma ArrivalPassing(c: Config, h: Delivery.History, x: Delivery.Item, now: int, q: nat)
    requires Delivery.Balanced(h) && Delivery.Sane(h.buffer)
    ensures Passes(h, Delivery.Step(h, Delivery.Arrived(x, now), c.maxPending, c.gapTimeout), q)
  {
    hide Delivery.Arrive;
    hide Delivery.Balanced;
    var b, g := h.buffer, Delivery.Step(h, Delivery.Arrived(x, now), c.maxPending, c.gapTimeout);
    NextRises(b, x, now, c.maxPending);
    if Delivery.TakenIn(h, q) {
      var y :| y in h.taken && y.t == q;
      assert y in g.taken;
    }
    if b.next <= q < g.buffer.next {
      Delivery.ArrivalPasses(b, x, now, c.maxPending, q);
      if q in b.pending {
        Delivery.WaitingWasTaken(h, q);
        assert Delivery.Item(q, b.pending[q]) in g.taken;
      } else {
        assert x in g.taken;
      }
    }
  }

  lemma NextRises(b: Delivery.Buffer, x: Delivery.Item, now: int, max: nat)
    requires Delivery.Sane(b)
    ensures b.next <= Delivery.Arrive(b, x, now, max).buffer.next
  {
    if x.t == b.next { Delivery.DrainReleases(b.(next := b.next + 1)); }
  }

  lemma PassesBoth(h: Delivery.History, g: Delivery.History, k: Delivery.History, q: nat)
    requires Passes(h, g, q) && Passes(g, k, q)
    ensures Passes(h, k, q)
  {}

  lemma {:induction false} OfferPassing(c: Config, sent: FecDecoderRuns.Sent, h: Delivery.History, frames: seq<Frame>,
                                        n: nat, now: int, q: nat)
    requires GoodHistory(sent, h) && FecDecoderRuns.TruthfulAll(sent, frames) && n <= |frames|
    ensures Passes(h, Offer(c, h, frames, n, now), q)
  {
    hide Delivery.Step;
    hide Passes;
    hide DeliveryObject.ReadAt;
    hide FecDecoderRuns.Truthful;
    hide Delivery.Balanced;
    hide AllTrue;
    if n > 0 {
      var g := Offer(c, h, frames, n - 1, now);
      OfferPassing(c, sent, h, frames, n - 1, now, q);
      OfferGood(c, sent, h, frames, n - 1, now);
      ArrivalPassing(c, g, DeliveryObject.ReadAt(g.buffer, frames[n - 1]), now, q);
      PassesBoth(h, g, Offer(c, h, frames, n, now), q);
    } else {
      assert Passes(h, h, q) by { PassesSelf(h, q); }
    }
  }

  lemma PassesSelf(h: Delivery.History, q: nat)
    ensures Passes(h, h, q)
  {}

  /** A true frame whose turn comes is taken in, unless next has passed its number. */
  lemma TurnTakes(c: Config, sent: FecDecoderRuns.Sent, h: Delivery.History, f: Frame, now: int)
    requires GoodHistory(sent, h) && FecDecoderRuns.Truthful(sent, f) && Short(sent)
    ensures var g := Delivery.Step(h, Delivery.Arrived(DeliveryObject.ReadAt(h.buffer, f), now), c.maxPending,
                                   c.gapTimeout);
            Delivery.TakenIn(g, f.seqNo) || f.seqNo < g.buffer.next
  {
    hide Delivery.Arrive;
    hide DeliveryObject.Nearest;
    hide Delivery.Balanced;
    var x := DeliveryObject.ReadAt(h.buffer, f);
    var g := Delivery.Step(h, Delivery.Arrived(x, now), c.maxPending, c.gapTimeout);
    ReadTruly(sent, h, f);
    assert x.t == f.seqNo;
    NextRises(h.buffer, x, now, c.maxPending);
    if x.t >= h.buffer.next {
      if x.t in h.buffer.pending {
        Delivery.WaitingWasTaken(h, x.t);
        assert Delivery.Item(x.t, h.buffer.pending[x.t]) in g.taken;
      } else {
        assert x in g.taken;
      }
    }
  }

  lemma {:induction false} OfferTakes(c: Config, sent: FecDecoderRuns.Sent, h: Delivery.History, frames: seq<Frame>,
                                      n: nat, now: int, m: nat)
    requires GoodHistory(sent, h) && FecDecoderRuns.TruthfulAll(sent, frames) && Short(sent) && m < n <= |frames|
    ensures var g := Offer(c, h, frames, n, now);
            Delivery.TakenIn(g, frames[m].seqNo) || frames[m].seqNo < g.buffer.next
  {
    hide Delivery.Step;
    hide DeliveryObject.ReadAt;
    hide FecDecoderRuns.Truthful;
    hide Delivery.Balanced;
    hide Delivery.TakenIn;
    hide AllTrue;
    assert frames[n - 1] in frames;
    var g := Offer(c, h, frames, n - 1, now);
    OfferGood(c, sent, h, frames, n - 1, now);
    if m == n - 1 {
      TurnTakes(c, sent, g, frames[m], now);
    } else {
      OfferTakes(c, sent, h, frames, n - 1, now, m);
      ArrivalPassing(c, g, DeliveryObject.ReadAt(g.buffer, frames[n - 1]), now, frames[m].seqNo);
    }
  }

  // ---------------------------------------------------------------------
  // Runs of the receive path.

  lemma InputPassing(s: Scene, n: nat, q: nat)
    requires Genuine(s) && n < |s.inputs| && !s.inputs[n].DeliveryTicked?
    ensures Passes(At(s, n).history, At(s, n + 1).history, q)
    ensures Hands(Handed(s.lib, s.c, At(s, n), s.inputs[n]), q) ==>
              Delivery.TakenIn(At(s, n + 1).history, q) || q < At(s, n + 1).history.buffer.next
  {
    hide GoodHistory;
    hide Offer;
    hide Step;
    hide Handed;
    hide HonestInput;
    hide ErasureContract;
    hide TrueStreams;
    hide Starts;
    hide Run;
    hide Passes;
    GoodAt(s, n);
    OneStep(s, n);
    var p, frames := At(s, n), Handed(s.lib, s.c, At(s, n), s.inputs[n]);
    HeadOfLine.HandedTruly(s.lib, s.c, s.sent, s.streams, p, s.inputs[n]);
    StepOffers(s.lib, s.c, p, s.inputs[n]);
    OfferPassing(s.c, s.sent, p.history, frames, |frames|, s.inputs[n].now, q);
    if Hands(frames, q) {
      var m :| 0 <= m < |frames| && frames[m].seqNo == q;
      OfferTakes(s.c, s.sent, p.history, frames, |frames|, s.inputs[n].now, m);
    }
  }

  lemma TickPassing(s: Scene, n: nat, q: nat)
    requires Genuine(s) && n < |s.inputs| && s.inputs[n].DeliveryTicked?
    ensures At(s, n + 1).history.taken == At(s, n).history.taken
  {
    OneStep(s, n);
  }

  lemma SettledStays(s: Scene, n: nat, q: nat)
    requires Genuine(s) && n < |s.inputs| && Settled(s, n, q)
    ensures Settled(s, n + 1, q)
  {
    hide Run;
    hide GivesUp;
    if Delivery.TakenIn(At(s, n).history, q) {
      if s.inputs[n].DeliveryTicked? { TickPassing(s, n, q); } else { InputPassing(s, n, q); }
    } else {
      var j: nat :| j < n && GivesUp(s, j, q);
      assert j < n + 1;
    }
  }

  /** In every run each number below next was taken in, or given up by a delivery tick. */
  lemma {:induction false} BelowNextSettled(s: Scene, n: nat, q: nat)
    requires Genuine(s) && n <= |s.inputs| && 0 < q < At(s, n).history.buffer.next
    ensures Settled(s, n, q)
  {
    StartsAtOne(s);
    hide Run;
    if n > 0 {
      var m := n - 1;
      if q < At(s, m).history.buffer.next {
        BelowNextSettled(s, m, q);
        SettledStays(s, m, q);
      } else {
        PassedNow(s, m, q);
      }
    }
  }

  lemma StartsAtOne(s: Scene)
    requires Genuine(s)
    ensures At(s, 0).history.buffer.next == 1
  {}

  lemma PassedNow(s: Scene, n: nat, q: nat)
    requires Genuine(s) && n < |s.inputs|
    requires At(s, n).history.buffer.next <= q < At(s, n + 1).history.buffer.next
    ensures Settled(s, n + 1, q)
  {
    hide Run;
    if s.inputs[n].DeliveryTicked? {
      TickPassing(s, n, q);
      if !Delivery.TakenIn(At(s, n).history, q) { assert GivesUp(s, n, q); }
    } else {
      InputPassing(s, n, q);
    }
  }

  /** Whatever an input hands to the delivery buffer is settled afterwards. */
  lemma HandedSettled(s: Scene, n: nat, q: nat)
    requires Genuine(s) && n < |s.inputs| && q > 0 && Hands(Handed(s.lib, s.c, At(s, n), s.inputs[n]), q)
    ensures Settled(s, n + 1, q)
  {
    hide Run;
    hide GivenUp;
    hide Delivery.TakenIn;
    if !s.inputs[n].DeliveryTicked? {
      InputPassing(s, n, q);
      if q < At(s, n + 1).history.buffer.next { BelowNextSettled(s, n + 1, q); }
    }
  }

  lemma {:induction false} SettledLater(s: Scene, m: nat, n: nat, q: nat)
    requires Genuine(s) && m <= n <= |s.inputs| && Settled(s, m, q)
    ensures Settled(s, n, q)
    decreases n - m
  {
    hide Settled;
    if m < n {
      SettledLater(s, m, n - 1, q);
      SettledStays(s, n - 1, q);
    }
  }

  // ---------------------------------------------------------------------
  // The decoders.

  ghost predicate HasSlot(s: Scene, slot: string) { slot in s.start.decs && slot in s.streams }

  /** The decoder of the slot before input n. */
  ghost function DecAt(s: Scene, n: nat, slot: string): (d: Dec)
    requires Genuine(s) && n <= |s.inputs| && HasSlot(s, slot)
  {
    GoodAt(s, n);
    At(s, n).decs[slot]
  }

  /** The input is an act of this decoder: an admitted frame of its slot, or its tick. */
  ghost predicate Concerns(s: Scene, n: nat, slot: string): (b: bool)
    requires n < |s.inputs|
    ensures b ==> !s.inputs[n].DeliveryTicked?
  {
    match s.inputs[n]
    case Came(path, f, now) => SlotOf(s.c, path) == slot && Admission.Admitted(s.c, s.start, s.inputs, n, s.size)
    case DecoderTicked(at, now, order) => at == slot
    case DeliveryTicked(_) => false
  }

  ghost function ActOf(input: Input): FecDecoderRuns.Act
    requires !input.DeliveryTicked?
  {
    match input
    case Came(path, f, now) => FecDecoderRuns.Received(path, f, now)
    case DecoderTicked(_, now, order) => FecDecoderRuns.Ticked(now, order)
  }

  /** What concerns a decoder it does, and its answer goes to the delivery buffer; nothing else changes it. */
  lemma DecoderSteps(s: Scene, n: nat, slot: string)
    requires Genuine(s) && n < |s.inputs| && HasSlot(s, slot)
    ensures Sound(DecAt(s, n, slot))
    ensures if Concerns(s, n, slot) then
              var o := FecDecoderRuns.Do(s.lib, DecAt(s, n, slot), ActOf(s.inputs[n]));
              DecAt(s, n + 1, slot) == o.dec && Handed(s.lib, s.c, At(s, n), s.inputs[n]) == o.out
            else DecAt(s, n + 1, slot) == DecAt(s, n, slot)
  {
    hide Push;
    hide Tick;
    hide ReplayWindow.Check;
    hide GoodHistory;
    hide Admission.NewAt;
    hide TrueStreams;
    hide ErasureContract;
    hide HonestInput;
    GoodAt(s, n);
    OneStep(s, n);
    if s.inputs[n].Came? {
      Admission.PassesIffNew(s.lib, s.c, s.start, s.inputs, n, s.size, s.inputs[n].f.seqNo);
    }
  }

  lemma FirstDec(s: Scene, slot: string)
    requires Genuine(s) && HasSlot(s, slot)
    ensures DecAt(s, 0, slot) == s.start.decs[slot]
  {}

  lemma ParamsStep(s: Scene, n: nat, slot: string)
    requires Genuine(s) && n < |s.inputs| && HasSlot(s, slot)
    ensures DecAt(s, n + 1, slot).params == DecAt(s, n, slot).params
  {
    hide DecAt;
    hide Run;
    hide Concerns;
    hide HonestInput;
    hide FecDecoderRuns.Do;
    DecoderSteps(s, n, slot);
    if Concerns(s, n, slot) { DoKeepsParams(s.lib, DecAt(s, n, slot), ActOf(s.inputs[n])); }
  }

  lemma {:induction false} ParamsStay(s: Scene, n: nat, slot: string)
    requires Genuine(s) && n <= |s.inputs| && HasSlot(s, slot)
    ensures DecAt(s, n, slot).params == s.start.decs[slot].params
  {
    hide DecAt;
    hide Run;
    hide HonestInput;
    if n == 0 {
      FirstDec(s, slot);
    } else {
      ParamsStay(s, n - 1, slot);
      ParamsStep(s, n - 1, slot);
    }
  }

  /** Frame i of a registered block of the slot, whose decoder is enabled. */
  ghost predicate DataOf(s: Scene, slot: string, key: BlockKey, i: nat) {
    && HasSlot(s, slot) && FecSizing.Enabled(s.start.decs[slot].params)
    && key in s.streams[slot].reg && i < |s.streams[slot].reg[key].data|
  }

  ghost function Number(s: Scene, slot: string, key: BlockKey, i: nat): U32
    requires DataOf(s, slot, key, i)
  {
    NumberOf(s.streams[slot].reg[key], i)
  }

  /** The phases that an enabled decoder follows at this point of the run. */
  lemma Tracked(s: Scene, n: nat, slot: string) returns (w: FecReassembly.World)
    requires Genuine(s) && n <= |s.inputs| && HasSlot(s, slot) && FecSizing.Enabled(s.start.decs[slot].params)
    ensures Sound(DecAt(s, n, slot))
    ensures FecReassembly.Tracks(s.lib, s.streams[slot].k, s.streams[slot].reg, w, DecAt(s, n, slot))
    ensures FecReassembly.ValidRegistry(s.lib, s.streams[slot].k, s.streams[slot].reg)
  {
    hide GoodHistory;
    hide FecReassembly.Tracks;
    hide Run;
    GoodAt(s, n);
    ParamsStay(s, n, slot);
    var d, stream := DecAt(s, n, slot), s.streams[slot];
    assert Followed(s.lib, stream, d);
    assert TrueStream(s.lib, s.sent, stream);
    w :| FecReassembly.Tracks(s.lib, stream.k, stream.reg, w, d);
  }

  /** Which event of the phases an input means for the decoder it concerns. */
  lemma Meant(s: Scene, n: nat, slot: string) returns (ev: FecRuns.Event)
    requires Genuine(s) && n < |s.inputs| && HasSlot(s, slot) && Concerns(s, n, slot)
    ensures FecDecoderRuns.Corresponds(s.lib, s.streams[slot].reg, DecAt(s, n, slot).params, ActOf(s.inputs[n]), ev)
    ensures FecRuns.ValidEvent(s.streams[slot].reg, ev)
  {
    hide GoodHistory;
    hide Run;
    hide Sender.Honest;
    hide Admission.NewAt;
    GoodAt(s, n);
    var d, stream := DecAt(s, n, slot), s.streams[slot];
    match s.inputs[n]
    case Came(path, f, now) =>
      assert HonestInput(s.lib, s.c, s.sent, s.streams, s.inputs[n]);
      SameRoute(s, d.params, path, f, slot);
      ev := Meaning(s.lib, stream, d.params, path, f, now, s.sent);
    case DecoderTicked(_, now, order) => ev := FecRuns.Expiry(now, order);
  }

  lemma SameRoute(s: Scene, p: FecSizing.Params, path: string, f: Frame, slot: string)
    requires slot in s.streams && p.crossPath == s.c.crossPath
    requires Sender.Honest(s.lib, s.sent, s.streams[slot].reg, Routing(s.c), path, f)
    ensures Sender.Honest(s.lib, s.sent, s.streams[slot].reg, p, path, f)
  {
    assert KeyOf(Routing(s.c), path, f) == KeyOf(p, path, f);
  }

  /** A decoder tick flushes the block, and frame q of it is not among what had arrived. */
  ghost predicate TimesOut(s: Scene, n: nat, slot: string, key: BlockKey, q: U32)
    requires Genuine(s) && n < |s.inputs| && HasSlot(s, slot)
  {
    && s.inputs[n].DecoderTicked? && s.inputs[n].slot == slot
    && key in DecAt(s, n, slot).blocks && key !in DecAt(s, n + 1, slot).blocks && !HeldFor(DecAt(s, n, slot), key, q)
  }

  lemma InputKeeps(s: Scene, n: nat, slot: string, key: BlockKey, i: nat)
    requires Genuine(s) && n < |s.inputs| && DataOf(s, slot, key, i)
    ensures var d, e, q := DecAt(s, n, slot), DecAt(s, n + 1, slot), Number(s, slot, key, i);
            var handed := Handed(s.lib, s.c, At(s, n), s.inputs[n]);
            && (HeldFor(d, key, q) ==> HeldFor(e, key, q) || Hands(handed, q))
            && (key in d.blocks && key !in e.blocks ==> Hands(handed, q) || TimesOut(s, n, slot, key, q))
  {
    hide DecAt;
    hide Run;
    hide HonestInput;
    hide ErasureContract;
    hide FecDecoderRuns.Do;
    hide Handed;
    hide FecDecoderRuns.Corresponds;
    DecoderSteps(s, n, slot);
    if Concerns(s, n, slot) {
      var w := Tracked(s, n, slot);
      var ev := Meant(s, n, slot);
      hide FecReassembly.Tracks;
      hide FecReassembly.ValidRegistry;
      ActHolds(s.lib, s.streams[slot].k, s.streams[slot].reg, w, DecAt(s, n, slot), ActOf(s.inputs[n]), ev, key, i);
    }
  }

  lemma NumberPositive(s: Scene, slot: string, key: BlockKey, i: nat)
    requires Genuine(s) && DataOf(s, slot, key, i)
    ensures Number(s, slot, key, i) > 0
  {
    var b := s.streams[slot].reg[key];
    assert TrueStream(s.lib, s.sent, s.streams[slot]);
    assert FecDecoderRuns.TruthfulAll(s.sent, FecBlock.Content(b));
    assert FecBlock.Content(b)[i] in FecBlock.Content(b);
  }

  /** A frame the decoder holds is held or settled afterwards; a block that leaves the table settles it or times out. */
  lemma InputSettles(s: Scene, n: nat, slot: string, key: BlockKey, i: nat)
    requires Genuine(s) && n < |s.inputs| && DataOf(s, slot, key, i)
    ensures var d, e, q := DecAt(s, n, slot), DecAt(s, n + 1, slot), Number(s, slot, key, i);
            && (HeldFor(d, key, q) ==> HeldFor(e, key, q) || Settled(s, n + 1, q))
            && (key in d.blocks && key !in e.blocks ==> Settled(s, n + 1, q) || TimesOut(s, n, slot, key, q))
  {
    hide DecAt;
    hide Run;
    hide HonestInput;
    hide ErasureContract;
    hide Handed;
    hide Settled;
    hide HeldFor;
    hide Hands;
    var q := Number(s, slot, key, i);
    InputKeeps(s, n, slot, key, i);
    NumberPositive(s, slot, key, i);
    if Hands(Handed(s.lib, s.c, At(s, n), s.inputs[n]), q) { HandedSettled(s, n, q); }
  }

  /** Held or settled. */
  ghost predicate Safe(s: Scene, n: nat, slot: string, key: BlockKey, i: nat)
    requires Genuine(s) && n <= |s.inputs| && DataOf(s, slot, key, i)
  {
    Settled(s, n, Number(s, slot, key, i)) || HeldFor(DecAt(s, n, slot), key, Number(s, slot, key, i))
  }

  lemma {:induction false} SafeLater(s: Scene, m: nat, n: nat, slot: string, key: BlockKey, i: nat)
    requires Genuine(s) && m <= n <= |s.inputs| && DataOf(s, slot, key, i) && Safe(s, m, slot, key, i)
    ensures Safe(s, n, slot, key, i)
    decreases n - m
  {
    hide DecAt;
    hide HonestInput;
    hide Settled;
    hide HeldFor;
    hide DataOf;
    hide TimesOut;
    if m < n {
      SafeLater(s, m, n - 1, slot, key, i);
      if Settled(s, n - 1, Number(s, slot, key, i)) {
        SettledStays(s, n - 1, Number(s, slot, key, i));
      } else {
        InputSettles(s, n - 1, slot, key, i);
      }
    }
  }

  /** Before input n a decoder tick flushed the block without frame i. */
  ghost predicate TimedOut(s: Scene, n: nat, slot: string, key: BlockKey, i: nat)
    requires Genuine(s) && n <= |s.inputs| && DataOf(s, slot, key, i)
  {
    exists m: nat :: m < n && TimesOut(s, m, slot, key, Number(s, slot, key, i))
  }

  /** Input j is frame a of a block, data or parity, admitted and routed to its decoder. */
  ghost predicate Comes(s: Scene, j: nat, slot: string, key: BlockKey, a: nat) {
    && j < |s.inputs| && s.inputs[j].Came? && HasSlot(s, slot)
    && SlotOf(s.c, s.inputs[j].path) == slot && Admission.Admitted(s.c, s.start, s.inputs, j, s.size)
    && key == KeyOf(Routing(s.c), s.inputs[j].path, s.inputs[j].f)
    && FecDecoderRuns.OfBlock(s.lib, s.streams[slot].reg, key, a, s.inputs[j].f)
  }

  /** The decoder no longer takes frames of the block: it is not in the table, nor above the stream's flush mark. */
  ghost predicate Closed(d: Dec, key: BlockKey) { key !in d.blocks && Last(d, StreamOf(key)) >= key.id }

  /** Every frame of the block that came before input n, from the first on, found it closed. */
  ghost predicate Shut(s: Scene, n: nat, slot: string, key: BlockKey)
    requires Genuine(s) && n <= |s.inputs| && HasSlot(s, slot)
  {
    forall m: nat, a: nat :: m < n && Comes(s, m, slot, key, a) ==> Closed(DecAt(s, m, slot), key)
  }

  /** The story of a block: shut so far, open, handed on with frame i, or flushed by a tick without it. */
  ghost predicate Story(s: Scene, n: nat, slot: string, key: BlockKey, i: nat)
    requires Genuine(s) && n <= |s.inputs| && DataOf(s, slot, key, i)
  {
    || Shut(s, n, slot, key) || key in DecAt(s, n, slot).blocks
    || Settled(s, n, Number(s, slot, key, i)) || TimedOut(s, n, slot, key, i)
  }

  /** A frame that finds its block not closed leaves it open, or settles all of it. */
  lemma OpensOrSettles(s: Scene, j: nat, slot: string, key: BlockKey, a: nat, i: nat)
    requires Genuine(s) && Comes(s, j, slot, key, a) && DataOf(s, slot, key, i) && !Closed(DecAt(s, j, slot), key)
    ensures key in DecAt(s, j + 1, slot).blocks || Settled(s, j + 1, Number(s, slot, key, i))
  {
    hide Run;
    hide HonestInput;
    hide ErasureContract;
    hide Settled;
    hide Push;
    hide Handed;
    hide Admission.Admitted;
    var d, f, q := DecAt(s, j, slot), s.inputs[j].f, Number(s, slot, key, i);
    NumberPositive(s, slot, key, i);
    GoodAt(s, j);
    assert key == KeyOf(d.params, s.inputs[j].path, f);
    hide Good;
    DecoderSteps(s, j, slot);
    hide DecAt;
    var w := Tracked(s, j, slot);
    LandsOpen(s.lib, s.streams[slot].k, s.streams[slot].reg, w, d, s.inputs[j].path, f, s.inputs[j].now, key, a, i);
    if Hands(Handed(s.lib, s.c, At(s, j), s.inputs[j]), q) { HandedSettled(s, j, q); }
  }

  lemma StoryGoesOn(s: Scene, n: nat, slot: string, key: BlockKey, i: nat)
    requires Genuine(s) && n < |s.inputs| && DataOf(s, slot, key, i) && Story(s, n, slot, key, i)
    ensures Story(s, n + 1, slot, key, i)
  {
    hide DecAt;
    hide HonestInput;
    hide Settled;
    hide TimesOut;
    hide Comes;
    hide Closed;
    if Settled(s, n, Number(s, slot, key, i)) {
      SettledStays(s, n, Number(s, slot, key, i));
    } else if TimedOut(s, n, slot, key, i) {
      var m: nat :| m < n && TimesOut(s, m, slot, key, Number(s, slot, key, i));
      assert m < n + 1;
    } else if key in DecAt(s, n, slot).blocks {
      InputSettles(s, n, slot, key, i);
      if TimesOut(s, n, slot, key, Number(s, slot, key, i)) { assert n < n + 1; }
    } else {
      ShutGoesOn(s, n, slot, key, i);
    }
  }

  lemma ShutGoesOn(s: Scene, n: nat, slot: string, key: BlockKey, i: nat)
    requires Genuine(s) && n < |s.inputs| && DataOf(s, slot, key, i) && Shut(s, n, slot, key)
    ensures || Shut(s, n + 1, slot, key) || key in DecAt(s, n + 1, slot).blocks
            || Settled(s, n + 1, Number(s, slot, key, i))
  {
    hide DecAt;
    hide HonestInput;
    hide Settled;
    hide Comes;
    hide Closed;
    if a: nat :| Comes(s, n, slot, key, a) && !Closed(DecAt(s, n, slot), key) {
      OpensOrSettles(s, n, slot, key, a, i);
    }
  }

  lemma {:induction false} BlockStory(s: Scene, n: nat, slot: string, key: BlockKey, i: nat)
    requires Genuine(s) && n <= |s.inputs| && DataOf(s, slot, key, i)
    ensures Story(s, n, slot, key, i)
  {
    hide DecAt;
    hide HonestInput;
    if n == 0 {
      assert Shut(s, 0, slot, key);
    } else {
      BlockStory(s, n - 1, slot, key, i);
      hide Story;
      StoryGoesOn(s, n - 1, slot, key, i);
    }
  }

  // ---------------------------------------------------------------------
  // The fate of a data frame.

  lemma ComesNumbered(s: Scene, j: nat, slot: string, key: BlockKey, i: nat)
    requires Comes(s, j, slot, key, i) && DataOf(s, slot, key, i)
    ensures s.inputs[j].f.seqNo == Number(s, slot, key, i)
  {}

  /** A frame of a block that is not closed is held or settled once it has come. */
  lemma LandsSafe(s: Scene, j: nat, slot: string, key: BlockKey, i: nat)
    requires Genuine(s) && Comes(s, j, slot, key, i) && DataOf(s, slot, key, i) && !Closed(DecAt(s, j, slot), key)
    ensures Safe(s, j + 1, slot, key, i)
  {
    hide Run;
    hide HonestInput;
    hide ErasureContract;
    hide Settled;
    hide Push;
    hide Handed;
    hide Admission.Admitted;
    var d, f := DecAt(s, j, slot), s.inputs[j].f;
    ComesNumbered(s, j, slot, key, i);
    NumberPositive(s, slot, key, i);
    GoodAt(s, j);
    assert key == KeyOf(d.params, s.inputs[j].path, f);
    hide Good;
    DecoderSteps(s, j, slot);
    hide DecAt;
    var w := Tracked(s, j, slot);
    LandsHeld(s.lib, s.streams[slot].k, s.streams[slot].reg, w, d, s.inputs[j].path, f, s.inputs[j].now, key, i);
    if Hands(Handed(s.lib, s.c, At(s, j), s.inputs[j]), f.seqNo) { HandedSettled(s, j, f.seqNo); }
  }

  /**
   When it came, its block was closed, because a decoder tick had flushed it without the frame, or because it was
   closed before its first frame came.
   */
  ghost predicate TooLate(s: Scene, j: nat, slot: string, key: BlockKey, i: nat)
    requires Genuine(s) && j < |s.inputs| && DataOf(s, slot, key, i)
  {
    Closed(DecAt(s, j, slot), key) && (TimedOut(s, j, slot, key, i) || Shut(s, j, slot, key))
  }

  /**
   The fate of every data frame that comes: from then on it is held by its decoder, taken into the delivery buffer, or
   given up by a delivery tick, unless it came too late for its block.
   */
  lemma FrameFate(s: Scene, j: nat, n: nat, slot: string, key: BlockKey, i: nat)
    requires Genuine(s) && Comes(s, j, slot, key, i) && DataOf(s, slot, key, i) && j < n <= |s.inputs|
    ensures Safe(s, n, slot, key, i) || TooLate(s, j, slot, key, i)
  {
    hide Run;
    hide DecAt;
    hide HonestInput;
    hide Settled;
    hide TimesOut;
    if !Closed(DecAt(s, j, slot), key) {
      LandsSafe(s, j, slot, key, i);
      SafeLater(s, j + 1, n, slot, key, i);
    } else {
      BlockStory(s, j, slot, key, i);
      if Settled(s, j, Number(s, slot, key, i)) { SettledLater(s, j, n, Number(s, slot, key, i)); }
    }
  }

  /** A frame whose block is closed is refused: it changes neither its decoder nor the delivery buffer. */
  lemma ClosedRefuses(s: Scene, j: nat, slot: string, key: BlockKey, a: nat)
    requires Genuine(s) && Comes(s, j, slot, key, a) && FecSizing.Enabled(s.start.decs[slot].params)
    requires Closed(DecAt(s, j, slot), key)
    ensures DecAt(s, j + 1, slot) == DecAt(s, j, slot) && At(s, j + 1).history == At(s, j).history
  {
    hide Run;
    hide HonestInput;
    hide ErasureContract;
    hide Handed;
    hide Offer;
    hide MaybeDeliver;
    hide Admission.Admitted;
    var d, f := DecAt(s, j, slot), s.inputs[j].f;
    ParamsStay(s, j, slot);
    GoodAt(s, j);
    assert key == KeyOf(d.params, s.inputs[j].path, f);
    hide Good;
    DecoderSteps(s, j, slot);
    hide DecAt;
    var w := Tracked(s, j, slot);
    FecDecoderRuns.RoutedToBlock(s.lib, s.streams[slot].k, s.streams[slot].reg, d, s.inputs[j].path, f, s.inputs[j].now,
                                 key, a, s.inputs[j].now + d.params.timeout);
    OneStep(s, j);
    StepOffers(s.lib, s.c, At(s, j), s.inputs[j]);
    assert Offer(s.c, At(s, j).history, [], 0, s.inputs[j].now) == At(s, j).history by { NothingOffered(s, j); }
  }

  lemma NothingOffered(s: Scene, j: nat)
    requires AllSound(s.start.decs) && j < |s.inputs|
    ensures Offer(s.c, At(s, j).history, [], 0, s.inputs[j].now) == At(s, j).history
  {}

  /** A frame outside any block, or one that meets a decoder without coding, is settled once it has come. */
  lemma PassingFate(s: Scene, j: nat, n: nat, slot: string)
    requires Genuine(s) && j < n <= |s.inputs| && HasSlot(s, slot) && Concerns(s, j, slot) && s.inputs[j].Came?
    requires || Admission.Aside(s.inputs[j].f)
             || (!FecSizing.Enabled(s.start.decs[slot].params) && !IsParity(s.inputs[j].f))
    ensures Settled(s, n, s.inputs[j].f.seqNo)
  {
    hide Run;
    hide HonestInput;
    hide ErasureContract;
    hide Settled;
    hide Handed;
    hide PushBlock;
    hide Admission.Admitted;
    var f := s.inputs[j].f;
    ParamsStay(s, j, slot);
    DecoderSteps(s, j, slot);
    hide DecAt;
    var out := Handed(s.lib, s.c, At(s, j), s.inputs[j]);
    assert out == [f];
    assert out[0].seqNo == f.seqNo;
    HandedPositive(s, j, f);
    HandedSettled(s, j, f.seqNo);
    SettledLater(s, j + 1, n, f.seqNo);
  }

  lemma HandedPositive(s: Scene, j: nat, f: Frame)
    requires Genuine(s) && j < |s.inputs| && f in Handed(s.lib, s.c, At(s, j), s.inputs[j])
    ensures f.seqNo > 0
  {
    hide Run;
    hide Handed;
    hide HonestInput;
    GoodAt(s, j);
    assert HonestInput(s.lib, s.c, s.sent, s.streams, s.inputs[j]);
    HeadOfLine.HandedTruly(s.lib, s.c, s.sent, s.streams, At(s, j), s.inputs[j]);
    assert (f.session, f.seqNo) in s.sent;
  }
}
