/**
 The whole receive path of one session: replay window, one decoder per WAN or one for all, and the delivery
 buffer behind them. Frames arrive on any WAN, lost, duplicated and reordered at will.
 */
module Pipeline {
  import opened Bytes
  import opened Erasure
  import opened Frames
  import opened FecSizing
  import opened FecDecoder
  import FecBlock
  import FecReassembly
  import FecRuns
  import FecDecoderRuns
  import Delivery
  import DeliveryObject
  import ReplayWindow
  import Sender
  import FecEncoder

  datatype Config = Config(session: U64, crossPath: bool, maxPending: nat, gapTimeout: int)

  /** decs: the decoders by WAN, or under "" the one that all WANs share. */
  datatype Pipe = Pipe(filter: ReplayWindow.Filter, decs: map<string, Dec>, history: Delivery.History)

  datatype Input =
    | Came(path: string, f: Frame, now: int)
    | DecoderTicked(slot: string, now: int, order: seq<BlockKey>)
    | DeliveryTicked(now: int)

  /** Frames that end before the decoder: key exchange, replies to probes, control, keepalives and empty frames. */
  predicate Inner(f: Frame) {
    f.flags / 32 % 2 == 0 && f.flags / 16 % 2 == 0 && f.flags / 4 % 2 == 0 && f.flags / 2 % 2 == 0 && f.payload != []
  }

  function SlotOf(c: Config, path: string): string { if c.crossPath then "" else path }

  ghost predicate AllSound(decs: map<string, Dec>) { forall slot :: slot in decs ==> Sound(decs[slot]) }

  /** Decoded frames handed to the delivery buffer one after the other, each read as closest to next. */
  ghost function Offer(c: Config, h: Delivery.History, frames: seq<Frame>, n: nat, now: int): Delivery.History
    requires n <= |frames|
  {
    if n == 0 then h
    else
      var g := Offer(c, h, frames, n - 1, now);
      Delivery.Step(g, Delivery.Arrived(DeliveryObject.ReadAt(g.buffer, frames[n - 1]), now), c.maxPending,
                    c.gapTimeout)
  }

  ghost function Decoded(c: Config, p: Pipe, slot: string, o: Outcome, now: int): Pipe {
    p.(decs := p.decs[slot := o.dec], history := Offer(c, p.history, o.out, |o.out|, now))
  }

  ghost function Receive(lib: Library, c: Config, p: Pipe, path: string, f: Frame, now: int): Pipe
    requires AllSound(p.decs)
  {
    if f.session != c.session || f.flags / 32 % 2 == 1 then p
    else
      var (filter, isNew) := ReplayWindow.Check(p.filter, f.seqNo);
      var q := p.(filter := filter);
      if !isNew || !Inner(f) || SlotOf(c, path) !in p.decs then q
      else Decoded(c, q, SlotOf(c, path), Push(lib, p.decs[SlotOf(c, path)], path, f, now), now)
  }

  ghost function Step(lib: Library, c: Config, p: Pipe, input: Input): Pipe
    requires AllSound(p.decs)
  {
    match input
    case Came(path, f, now) => Receive(lib, c, p, path, f, now)
    case DecoderTicked(slot, now, order) =>
      if slot !in p.decs then p else Decoded(c, p, slot, Tick(p.decs[slot], now, order), now)
    case DeliveryTicked(now) =>
      p.(history := Delivery.Step(p.history, Delivery.Ticked(now), c.maxPending, c.gapTimeout))
  }

  // ---------------------------------------------------------------------
  // Honest traffic.

  /** The blocks the peer's encoder for a slot makes, all of k data shards. */
  datatype Stream = Stream(k: nat, reg: FecReassembly.Registry)

  ghost predicate TrueStream(lib: Library, sent: FecDecoderRuns.Sent, s: Stream) {
    FecReassembly.ValidRegistry(lib, s.k, s.reg) && FecDecoderRuns.TruthfulBlocks(sent, s.reg)
  }

  /** Parameters that route a frame to its block as the configuration says. */
  function Routing(c: Config): Params { Params(0, 0, 0, None, c.crossPath, 0) }

  /** What reaches a decoder comes from the encoder of its slot. */
  ghost predicate HonestInput(lib: Library, c: Config, sent: FecDecoderRuns.Sent, streams: map<string, Stream>,
                              input: Input) {
    input.Came? && input.f.session == c.session && Inner(input.f) && SlotOf(c, input.path) in streams ==>
      Sender.Honest(lib, sent, streams[SlotOf(c, input.path)].reg, Routing(c), input.path, input.f)
  }

  /** An enabled decoder follows the phases of its stream. */
  ghost predicate Followed(lib: Library, s: Stream, d: Dec) {
    Sound(d) && (Enabled(d.params) ==> exists w: FecReassembly.World :: FecReassembly.Tracks(lib, s.k, s.reg, w, d))
  }

  lemma PushFollowed(lib: Library, s: Stream, d: Dec, path: string, f: Frame, now: int, sent: FecDecoderRuns.Sent)
    requires ErasureContract(lib) && TrueStream(lib, sent, s) && Followed(lib, s, d)
    requires Sender.Honest(lib, sent, s.reg, d.params, path, f)
    ensures var o := Push(lib, d, path, f, now);
            Followed(lib, s, o.dec) && o.dec.params == d.params && FecDecoderRuns.TruthfulAll(sent, o.out)
  {
    if Enabled(d.params) {
      var w: FecReassembly.World :| FecReassembly.Tracks(lib, s.k, s.reg, w, d);
      ActFollowed(lib, s, w, d, FecDecoderRuns.Received(path, f, now), Meaning(lib, s, d.params, path, f, now, sent),
                  sent);
    } else {
      IdlePush(lib, s, d, path, f, now, sent);
    }
  }

  /** Which event of the phases an honest frame is. */
  ghost function Meaning(lib: Library, s: Stream, p: Params, path: string, f: Frame, now: int,
                         sent: FecDecoderRuns.Sent): (ev: FecRuns.Event)
    requires Sender.Honest(lib, sent, s.reg, p, path, f)
    ensures FecDecoderRuns.Corresponds(lib, s.reg, p, FecDecoderRuns.Received(path, f, now), ev)
    ensures ev.Aside? ==> FecDecoderRuns.Truthful(sent, f)
  {
    if Sender.TrueAside(sent, f) then FecRuns.Aside
    else
      var i: nat :| FecDecoderRuns.OfBlock(lib, s.reg, KeyOf(p, path, f), i, f);
      FecRuns.Arrival(KeyOf(p, path, f), i, now + p.timeout)
  }

  lemma ActFollowed(lib: Library, s: Stream, w: FecReassembly.World, d: Dec, act: FecDecoderRuns.Act, ev: FecRuns.Event,
                    sent: FecDecoderRuns.Sent)
    requires ErasureContract(lib) && TrueStream(lib, sent, s) && Sound(d) && FecReassembly.Tracks(lib, s.k, s.reg, w, d)
    requires FecDecoderRuns.Corresponds(lib, s.reg, d.params, act, ev)
    requires ev.Aside? && act.Received? ==> FecDecoderRuns.Truthful(sent, act.f)
    ensures var o := FecDecoderRuns.Do(lib, d, act);
            Followed(lib, s, o.dec) && o.dec.params == d.params && FecDecoderRuns.TruthfulAll(sent, o.out)
  {
    var k, reg := s.k, s.reg;
    FecDecoderRuns.ActFollows(lib, k, reg, w, d, act, ev);
    FecDecoderRuns.StepTruthful(lib, k, reg, w, d, act, ev, sent);
    FecDecoderRuns.DoOrderly(lib, d, act);
    var o, a := FecDecoderRuns.Do(lib, d, act), FecRuns.Step(reg, w, ev);
    assert FecReassembly.Tracks(lib, s.k, s.reg, a.world, o.dec);
  }

  /** A decoder without coding hands data frames on as they are and drops parity. */
  lemma IdlePush(lib: Library, s: Stream, d: Dec, path: string, f: Frame, now: int, sent: FecDecoderRuns.Sent)
    requires TrueStream(lib, sent, s) && Sound(d) && !Enabled(d.params)
    requires Sender.Honest(lib, sent, s.reg, d.params, path, f)
    ensures var o := Push(lib, d, path, f, now);
            Sound(o.dec) && o.dec.params == d.params && FecDecoderRuns.TruthfulAll(sent, o.out)
  {
    if !IsParity(f) && !Sender.TrueAside(sent, f) {
      var i: nat :| FecDecoderRuns.OfBlock(lib, s.reg, KeyOf(d.params, path, f), i, f);
      DataTruthful(lib, s, KeyOf(d.params, path, f), i, f, sent);
    }
  }

  lemma DataTruthful(lib: Library, s: Stream, key: BlockKey, i: nat, f: Frame, sent: FecDecoderRuns.Sent)
    requires TrueStream(lib, sent, s) && FecDecoderRuns.OfBlock(lib, s.reg, key, i, f) && !IsParity(f)
    ensures FecDecoderRuns.Truthful(sent, f)
  {
    var b := s.reg[key];
    assert FecDecoderRuns.TruthfulAll(sent, FecBlock.Content(b));
    assert FecBlock.Content(b)[i] in FecBlock.Content(b);
  }

  lemma TickFollowed(lib: Library, s: Stream, d: Dec, now: int, order: seq<BlockKey>, sent: FecDecoderRuns.Sent)
    requires ErasureContract(lib) && TrueStream(lib, sent, s) && Followed(lib, s, d)
    ensures var o := Tick(d, now, order);
            Followed(lib, s, o.dec) && o.dec.params == d.params && FecDecoderRuns.TruthfulAll(sent, o.out)
  {
    if Enabled(d.params) {
      var w: FecReassembly.World :| FecReassembly.Tracks(lib, s.k, s.reg, w, d);
      ActFollowed(lib, s, w, d, FecDecoderRuns.Ticked(now, order), FecRuns.Expiry(now, order), sent);
    }
  }

  // ---------------------------------------------------------------------
  // The delivery buffer behind the decoders.

  /** The sender has not yet used half of the numbers. */
  ghost predicate Short(sent: FecDecoderRuns.Sent) { forall id :: id in sent ==> id.1 < DeliveryObject.HALF }

  /** A frame sent under the number it is read as. */
  ghost predicate TrueItem(sent: FecDecoderRuns.Sent, x: Delivery.Item) {
    && FecDecoderRuns.Truthful(sent, x.f) && DeliveryObject.Wire(x.t) == x.f.seqNo
    && (Short(sent) ==> x.t == x.f.seqNo)
  }

  ghost predicate AllTrue(sent: FecDecoderRuns.Sent, taken: multiset<Delivery.Item>) {
    forall x :: x in taken ==> TrueItem(sent, x)
  }

  /** Order and conservation hold, and everything taken in is true. */
  ghost predicate GoodHistory(sent: FecDecoderRuns.Sent, h: Delivery.History) {
    && Delivery.Ordered(h.buffer, h.out) && Delivery.Reached(h.buffer, h.out)
    && Delivery.Balanced(h) && AllTrue(sent, h.taken)
  }

  lemma OutIsTrue(sent: FecDecoderRuns.Sent, h: Delivery.History, i: nat)
    requires Delivery.Balanced(h) && AllTrue(sent, h.taken) && i < |h.out|
    ensures TrueItem(sent, h.out[i])
  {
    hide TrueItem;
    hide Delivery.Stock;
    assert h.out[i] in multiset(h.out);
    assert h.out[i] in h.taken;
  }

  /** What the buffer takes a true frame for is its number. */
  lemma ReadTruly(sent: FecDecoderRuns.Sent, h: Delivery.History, f: Frame)
    requires GoodHistory(sent, h) && FecDecoderRuns.Truthful(sent, f)
    ensures TrueItem(sent, DeliveryObject.ReadAt(h.buffer, f))
  {
    hide DeliveryObject.Nearest;
    hide DeliveryObject.Wire;
    DeliveryObject.NearestReads(h.buffer.next, f.seqNo);
    if Short(sent) {
      if h.out != [] { OutIsTrue(sent, h, |h.out| - 1); }
      assert (f.session, f.seqNo) in sent;
      LowNumber(h.buffer.next, f.seqNo);
    }
  }

  lemma LowNumber(next: nat, n: U32)
    requires next <= DeliveryObject.HALF && n < DeliveryObject.HALF
    ensures DeliveryObject.Nearest(next, n) == n
  {
    DeliveryObject.NearestIs(next, n);
  }

  lemma DeliveryStepGood(c: Config, sent: FecDecoderRuns.Sent, h: Delivery.History, ev: Delivery.Event)
    requires GoodHistory(sent, h) && (ev.Arrived? ==> TrueItem(sent, ev.x))
    ensures GoodHistory(sent, Delivery.Step(h, ev, c.maxPending, c.gapTimeout))
  {
    hide Delivery.Step;
    hide Delivery.Balanced;
    hide Delivery.Reached;
    hide AllTrue;
    hide TrueItem;
    Delivery.StepBalances(h, ev, c.maxPending, c.gapTimeout);
    Delivery.StepReached(h, ev, c.maxPending, c.gapTimeout);
    DeliveryStepOrdered(c, h, ev);
    TakenTrue(c, sent, h, ev);
  }

  lemma DeliveryStepOrdered(c: Config, h: Delivery.History, ev: Delivery.Event)
    requires Delivery.Ordered(h.buffer, h.out)
    ensures var g := Delivery.Step(h, ev, c.maxPending, c.gapTimeout); Delivery.Ordered(g.buffer, g.out)
  {
    match ev
    case Arrived(x, now) => Delivery.ArriveKeepsOrder(h.buffer, h.out, x, now, c.maxPending);
    case Ticked(now) => Delivery.TickKeepsOrder(h.buffer, h.out, now, c.gapTimeout);
  }

  lemma TakenTrue(c: Config, sent: FecDecoderRuns.Sent, h: Delivery.History, ev: Delivery.Event)
    requires AllTrue(sent, h.taken) && (ev.Arrived? ==> TrueItem(sent, ev.x))
    ensures AllTrue(sent, Delivery.Step(h, ev, c.maxPending, c.gapTimeout).taken)
  {
    hide TrueItem;
  }

  lemma {:induction false} OfferGood(c: Config, sent: FecDecoderRuns.Sent, h: Delivery.History, frames: seq<Frame>,
                                     n: nat, now: int)
    requires GoodHistory(sent, h) && FecDecoderRuns.TruthfulAll(sent, frames) && n <= |frames|
    ensures GoodHistory(sent, Offer(c, h, frames, n, now))
  {
    hide GoodHistory;
    hide Delivery.Step;
    hide DeliveryObject.ReadAt;
    hide FecDecoderRuns.Truthful;
    if n > 0 {
      assert frames[n - 1] in frames;
      OfferGood(c, sent, h, frames, n - 1, now);
      ArrivalGood(c, sent, Offer(c, h, frames, n - 1, now), frames[n - 1], now);
    }
  }

  lemma ArrivalGood(c: Config, sent: FecDecoderRuns.Sent, h: Delivery.History, f: Frame, now: int)
    requires GoodHistory(sent, h) && FecDecoderRuns.Truthful(sent, f)
    ensures GoodHistory(sent,
                        Delivery.Step(h, Delivery.Arrived(DeliveryObject.ReadAt(h.buffer, f), now), c.maxPending,
                                      c.gapTimeout))
  {
    hide Delivery.Step;
    hide Delivery.Balanced;
    hide TrueItem;
    ReadTruly(sent, h, f);
    DeliveryStepGood(c, sent, h, Delivery.Arrived(DeliveryObject.ReadAt(h.buffer, f), now));
  }

  // ---------------------------------------------------------------------
  // Runs.

  ghost predicate AllFollowed(lib: Library, c: Config, streams: map<string, Stream>, decs: map<string, Dec>) {
    forall slot :: slot in decs ==>
      slot in streams && decs[slot].params.crossPath == c.crossPath && Followed(lib, streams[slot], decs[slot])
  }

  ghost predicate Good(lib: Library, c: Config, sent: FecDecoderRuns.Sent, streams: map<string, Stream>, p: Pipe) {
    AllFollowed(lib, c, streams, p.decs) && GoodHistory(sent, p.history)
  }

  lemma DecodedGood(lib: Library, c: Config, sent: FecDecoderRuns.Sent, streams: map<string, Stream>, p: Pipe,
                    slot: string, o: Outcome, now: int)
    requires Good(lib, c, sent, streams, p) && slot in streams && o.dec.params.crossPath == c.crossPath
    requires Followed(lib, streams[slot], o.dec) && FecDecoderRuns.TruthfulAll(sent, o.out)
    ensures Good(lib, c, sent, streams, Decoded(c, p, slot, o, now))
  {
    OneFollowed(lib, c, streams, p.decs, slot, o.dec);
    OfferGood(c, sent, p.history, o.out, |o.out|, now);
  }

  lemma OneFollowed(lib: Library, c: Config, streams: map<string, Stream>, decs: map<string, Dec>, slot: string, d: Dec)
    requires AllFollowed(lib, c, streams, decs) && slot in streams && d.params.crossPath == c.crossPath
    requires Followed(lib, streams[slot], d)
    ensures AllFollowed(lib, c, streams, decs[slot := d])
  {}

  ghost predicate TrueStreams(lib: Library, sent: FecDecoderRuns.Sent, streams: map<string, Stream>) {
    forall slot :: slot in streams ==> TrueStream(lib, sent, streams[slot])
  }

  lemma StepGood(lib: Library, c: Config, sent: FecDecoderRuns.Sent, streams: map<string, Stream>, p: Pipe,
                 input: Input)
    requires ErasureContract(lib) && TrueStreams(lib, sent, streams) && Good(lib, c, sent, streams, p)
    requires HonestInput(lib, c, sent, streams, input) && AllSound(p.decs)
    ensures Good(lib, c, sent, streams, Step(lib, c, p, input))
  {
    match input
    case Came(path, f, now) => ReceiveGood(lib, c, sent, streams, p, path, f, now);
    case DecoderTicked(slot, now, order) =>
      if slot in p.decs {
        TickFollowed(lib, streams[slot], p.decs[slot], now, order, sent);
        DecodedGood(lib, c, sent, streams, p, slot, Tick(p.decs[slot], now, order), now);
      }
    case DeliveryTicked(now) => DeliveryStepGood(c, sent, p.history, Delivery.Ticked(now));
  }

  lemma ReceiveGood(lib: Library, c: Config, sent: FecDecoderRuns.Sent, streams: map<string, Stream>, p: Pipe,
                    path: string, f: Frame, now: int)
    requires ErasureContract(lib) && TrueStreams(lib, sent, streams) && Good(lib, c, sent, streams, p)
    requires HonestInput(lib, c, sent, streams, Came(path, f, now)) && AllSound(p.decs)
    ensures Good(lib, c, sent, streams, Receive(lib, c, p, path, f, now))
  {
    hide Push;
    hide ReplayWindow.Check;
    hide GoodHistory;
    hide Followed;
    hide ErasureContract;
    hide Decoded;
    hide FecDecoderRuns.TruthfulAll;
    var slot := SlotOf(c, path);
    if f.session == c.session && Inner(f) && slot in p.decs {
      var d := p.decs[slot];
      assert KeyOf(Routing(c), path, f) == KeyOf(d.params, path, f);
      PushFollowed(lib, streams[slot], d, path, f, now, sent);
      var r := p.(filter := ReplayWindow.Check(p.filter, f.seqNo).0);
      DecodedGood(lib, c, sent, streams, r, slot, Push(lib, d, path, f, now), now);
    }
  }

  lemma OneSound(decs: map<string, Dec>, slot: string, d: Dec)
    requires AllSound(decs) && Sound(d)
    ensures AllSound(decs[slot := d])
  {}

  /** Whatever arrives, the decoders' tables stay well formed. */
  lemma StepSound(lib: Library, c: Config, p: Pipe, input: Input)
    requires AllSound(p.decs)
    ensures AllSound(Step(lib, c, p, input).decs)
  {
    match input
    case Came(path, f, now) =>
      var slot := SlotOf(c, path);
      if slot in p.decs {
        FecDecoderRuns.ReceiveOrderly(lib, p.decs[slot], path, f, now);
        OneSound(p.decs, slot, Push(lib, p.decs[slot], path, f, now).dec);
      }
    case DecoderTicked(slot, now, order) =>
      if slot in p.decs {
        FecDecoderRuns.TickOrderly(p.decs[slot], now, order);
        OneSound(p.decs, slot, Tick(p.decs[slot], now, order).dec);
      }
    case DeliveryTicked(now) =>
  }

  ghost function Run(lib: Library, c: Config, p: Pipe, inputs: seq<Input>, n: nat): (r: Pipe)
    requires AllSound(p.decs) && n <= |inputs|
    ensures AllSound(r.decs)
  {
    if n == 0 then p
    else
      var before := Run(lib, c, p, inputs, n - 1);
      StepSound(lib, c, before, inputs[n - 1]);
      Step(lib, c, before, inputs[n - 1])
  }

  /** A decoder's tick visits the blocks whose deadline has passed. */
  ghost predicate VisitsDue(p: Pipe, input: Input) {
    input.DecoderTicked? && input.slot in p.decs && Enabled(p.decs[input.slot].params) ==>
      VisitsOverdue(p.decs[input.slot], input.now, input.order)
  }

  /** In the first n steps of the run every decoder tick does. */
  ghost predicate OnTime(lib: Library, c: Config, p: Pipe, inputs: seq<Input>, n: nat)
    requires AllSound(p.decs) && n <= |inputs|
  {
    forall m: nat :: m < n ==> VisitsDue(Run(lib, c, p, inputs, m), inputs[m])
  }

  // ---------------------------------------------------------------------
  // What each input hands to the delivery buffer.

  /** The decoded frames an input leads to. */
  ghost function Handed(lib: Library, c: Config, p: Pipe, input: Input): seq<Frame>
    requires AllSound(p.decs)
  {
    match input
    case Came(path, f, now) =>
      if f.session != c.session || f.flags / 32 % 2 == 1 || !ReplayWindow.Check(p.filter, f.seqNo).1 || !Inner(f)
         || SlotOf(c, path) !in p.decs
      then [] else Push(lib, p.decs[SlotOf(c, path)], path, f, now).out
    case DecoderTicked(slot, now, order) => if slot !in p.decs then [] else Tick(p.decs[slot], now, order).out
    case DeliveryTicked(_) => []
  }

  lemma StepOffers(lib: Library, c: Config, p: Pipe, input: Input)
    requires AllSound(p.decs) && !input.DeliveryTicked?
    ensures var frames := Handed(lib, c, p, input);
            Step(lib, c, p, input).history == Offer(c, p.history, frames, |frames|, input.now)
  {
    hide Push;
    hide Tick;
    hide ReplayWindow.Check;
  }

  /** The frame lies within 2^31 of next. */
  ghost predicate Near(b: Delivery.Buffer, f: Frame) { -DeliveryObject.HALF <= f.seqNo - b.next < DeliveryObject.HALF }

  /** Each of the frames lies within 2^31 of next when its turn comes. */
  ghost predicate NearAll(c: Config, h: Delivery.History, frames: seq<Frame>, now: int) {
    forall i :: 0 <= i < |frames| ==> Near(Offer(c, h, frames, i, now).buffer, frames[i])
  }

  ghost predicate NearStep(lib: Library, c: Config, p: Pipe, input: Input)
    requires AllSound(p.decs)
  {
    NearAll(c, p.history, Handed(lib, c, p, input), input.now)
  }

  /** In the first n steps of the run every frame handed to the buffer lies within 2^31 of next when its turn comes. */
  ghost predicate NearRun(lib: Library, c: Config, p: Pipe, inputs: seq<Input>, n: nat)
    requires AllSound(p.decs) && n <= |inputs|
  {
    forall i :: 0 <= i < n ==> NearStep(lib, c, Run(lib, c, p, inputs, i), inputs[i])
  }

  /** Everything taken in is numbered as it was sent. */
  ghost predicate Numbered(taken: multiset<Delivery.Item>) { forall x :: x in taken ==> x.t == x.f.seqNo }

  lemma ArrivalNumbered(c: Config, h: Delivery.History, f: Frame, now: int)
    requires Numbered(h.taken) && Near(h.buffer, f)
    ensures Numbered(Delivery.Step(h, Delivery.Arrived(DeliveryObject.ReadAt(h.buffer, f), now), c.maxPending,
                                   c.gapTimeout).taken)
  {
    hide DeliveryObject.Nearest;
    hide Delivery.Arrive;
    DeliveryObject.ReadTrulyIff(h.buffer.next, f.seqNo);
  }

  lemma {:induction false} OfferNumbered(c: Config, h: Delivery.History, frames: seq<Frame>, n: nat, now: int)
    requires Numbered(h.taken) && NearAll(c, h, frames, now) && n <= |frames|
    ensures Numbered(Offer(c, h, frames, n, now).taken)
  {
    hide Numbered;
    hide Near;
    hide Delivery.Step;
    hide DeliveryObject.ReadAt;
    if n > 0 {
      OfferNumbered(c, h, frames, n - 1, now);
      ArrivalNumbered(c, Offer(c, h, frames, n - 1, now), frames[n - 1], now);
    }
  }

  lemma StepNumbered(lib: Library, c: Config, p: Pipe, input: Input)
    requires AllSound(p.decs) && Numbered(p.history.taken) && NearStep(lib, c, p, input)
    ensures Numbered(Step(lib, c, p, input).history.taken)
  {
    hide Numbered;
    hide NearAll;
    hide Handed;
    if !input.DeliveryTicked? {
      StepOffers(lib, c, p, input);
      OfferNumbered(c, p.history, Handed(lib, c, p, input), |Handed(lib, c, p, input)|, input.now);
    }
  }

  /**
   As long as every frame lies within 2^31 of next when its turn comes, it is taken in under the number it was sent
   under.
   */
  lemma {:induction false} ReadAsSent(lib: Library, c: Config, p: Pipe, inputs: seq<Input>, n: nat)
    requires AllSound(p.decs) && n <= |inputs| && p.history.taken == multiset{} && NearRun(lib, c, p, inputs, n)
    ensures Numbered(Run(lib, c, p, inputs, n).history.taken)
  {
    hide Step;
    hide NearStep;
    if n > 0 {
      ReadAsSent(lib, c, p, inputs, n - 1);
      StepNumbered(lib, c, Run(lib, c, p, inputs, n - 1), inputs[n - 1]);
    }
  }

  /** A session's receive path at the start: nothing received, fresh decoders of the right kind. */
  ghost predicate Starts(c: Config, streams: map<string, Stream>, p: Pipe) {
    && p.history == Delivery.History(Delivery.FRESH, [], multiset{}, multiset{}, 0)
    && forall slot :: slot in p.decs ==>
         slot in streams && p.decs[slot] == Fresh(p.decs[slot].params) && p.decs[slot].params.crossPath == c.crossPath
  }

  lemma StartGood(lib: Library, c: Config, sent: FecDecoderRuns.Sent, streams: map<string, Stream>, p: Pipe)
    requires Starts(c, streams, p)
    ensures Good(lib, c, sent, streams, p)
  {
    Delivery.FreshBalanced();
    forall slot | slot in p.decs ensures Followed(lib, streams[slot], p.decs[slot]) {
      FreshFollowed(lib, streams[slot], p.decs[slot]);
    }
  }

  lemma FreshFollowed(lib: Library, s: Stream, d: Dec)
    requires d == Fresh(d.params)
    ensures Followed(lib, s, d)
  {
    if Enabled(d.params) {
      FecReassembly.FreshTracks(lib, s.k, s.reg, d.params);
    }
  }

  lemma {:induction false} AlwaysGood(lib: Library, c: Config, sent: FecDecoderRuns.Sent, streams: map<string, Stream>,
                                      p: Pipe, inputs: seq<Input>, n: nat)
    requires ErasureContract(lib) && TrueStreams(lib, sent, streams) && Starts(c, streams, p) && AllSound(p.decs)
    requires n <= |inputs|
    requires forall i :: 0 <= i < |inputs| ==> HonestInput(lib, c, sent, streams, inputs[i])
    ensures Good(lib, c, sent, streams, Run(lib, c, p, inputs, n))
  {
    if n == 0 {
      StartGood(lib, c, sent, streams, p);
    } else {
      AlwaysGood(lib, c, sent, streams, p, inputs, n - 1);
      var before, input := Run(lib, c, p, inputs, n - 1), inputs[n - 1];
      StepGood(lib, c, sent, streams, before, input);
    }
  }

  /** What was released so far is strictly rising in number, and each payload is the one sent under its number. */
  ghost predicate DeliveredTruly(sent: FecDecoderRuns.Sent, out: seq<Delivery.Item>) {
    Delivery.Rising(out) && forall i :: 0 <= i < |out| ==> TrueItem(sent, out[i])
  }

  lemma GoodDelivers(sent: FecDecoderRuns.Sent, h: Delivery.History)
    requires GoodHistory(sent, h)
    ensures DeliveredTruly(sent, h.out)
  {
    hide TrueItem;
    forall i | 0 <= i < |h.out| ensures TrueItem(sent, h.out[i]) {
      OutIsTrue(sent, h, i);
    }
  }

  /** The released frames are numbered as they were sent. */
  ghost predicate NumberedOut(out: seq<Delivery.Item>) { forall i :: 0 <= i < |out| ==> out[i].t == out[i].f.seqNo }

  lemma OutIsNumbered(h: Delivery.History)
    requires Delivery.Balanced(h) && Numbered(h.taken)
    ensures NumberedOut(h.out)
  {
    hide Delivery.Stock;
    forall i | 0 <= i < |h.out| ensures h.out[i].t == h.out[i].f.seqNo {
      assert h.out[i] in multiset(h.out);
      assert h.out[i] in h.taken;
    }
  }

  lemma RunNumbersOut(lib: Library, c: Config, sent: FecDecoderRuns.Sent, streams: map<string, Stream>, p: Pipe,
                      inputs: seq<Input>, n: nat)
    requires AllSound(p.decs) && n <= |inputs| && Starts(c, streams, p)
    requires Good(lib, c, sent, streams, Run(lib, c, p, inputs, n)) && NearRun(lib, c, p, inputs, n)
    ensures NumberedOut(Run(lib, c, p, inputs, n).history.out)
  {
    hide Run;
    hide NearRun;
    ReadAsSent(lib, c, p, inputs, n);
    OutIsNumbered(Run(lib, c, p, inputs, n).history);
  }

  /**
   End to end: in every run in which the peer's frames are lost, duplicated and reordered at will over any
   number of WANs, what the delivery buffer releases is strictly rising in number, holds each number at most
   once, and carries under each number the payload that was sent under it. The number it is read as is the number
   it was sent under as long as fewer than 2^31 are in use, and, up to 2^32 - 1, as long as every frame lies within
   2^31 of next when its turn comes.
   */
  lemma EndToEnd(lib: Library, c: Config, sent: FecDecoderRuns.Sent, streams: map<string, Stream>, p: Pipe,
                 inputs: seq<Input>, n: nat)
    requires ErasureContract(lib) && TrueStreams(lib, sent, streams) && Starts(c, streams, p) && AllSound(p.decs)
    requires n <= |inputs|
    requires forall i :: 0 <= i < |inputs| ==> HonestInput(lib, c, sent, streams, inputs[i])
    ensures DeliveredTruly(sent, Run(lib, c, p, inputs, n).history.out)
    ensures NearRun(lib, c, p, inputs, n) ==> NumberedOut(Run(lib, c, p, inputs, n).history.out)
  {
    hide Run;
    hide NearRun;
    hide GoodHistory;
    AlwaysGood(lib, c, sent, streams, p, inputs, n);
    GoodDelivers(sent, Run(lib, c, p, inputs, n).history);
    if NearRun(lib, c, p, inputs, n) { RunNumbersOut(lib, c, sent, streams, p, inputs, n); }
  }

  // ---------------------------------------------------------------------
  // From the peer's encoders to the inner peer.

  /** One encoder of the peer and everything that happened to it. */
  datatype Source = Source(start: FecEncoder.Enc, evs: seq<FecEncoder.Event>)

  ghost predicate Begins(lib: Library, s: Source) {
    FecEncoder.Invariant(lib, s.start) && s.start.pending == [] && s.start.blocksCoded == 0
  }

  /**
   The encoder started fresh, was given true frames of the session in rising order, and sealed fewer than 2^32 blocks.
   */
  ghost predicate TrueSource(lib: Library, c: Config, sent: FecDecoderRuns.Sent, s: Source) {
    && Begins(lib, s)
    && FecEncoder.Pure(Trace(lib, s).pushed, c.session) && FecDecoderRuns.TruthfulAll(sent, Trace(lib, s).pushed)
    && |Trace(lib, s).blocks| < FecEncoder.TWO32
  }

  ghost function Trace(lib: Library, s: Source): FecEncoder.Trace
    requires Begins(lib, s)
  {
    FecEncoder.Run(lib, s.start, s.evs)
  }

  ghost function StreamFrom(lib: Library, c: Config, slot: string, s: Source): Stream
    requires Begins(lib, s) && |Trace(lib, s).blocks| < FecEncoder.TWO32
  {
    var t := Trace(lib, s);
    Stream(if t.enc.params.k > 0 then t.enc.params.k else 0,
           Sender.RegistryOf(t.blocks, c.session, slot, |t.blocks|))
  }

  ghost predicate TrueSources(lib: Library, c: Config, sent: FecDecoderRuns.Sent, sources: map<string, Source>) {
    forall slot :: slot in sources ==> TrueSource(lib, c, sent, sources[slot])
  }

  ghost function StreamsFrom(lib: Library, c: Config, sent: FecDecoderRuns.Sent,
                             sources: map<string, Source>): map<string, Stream>
    requires TrueSources(lib, c, sent, sources)
  {
    map slot | slot in sources :: StreamFrom(lib, c, slot, sources[slot])
  }

  /**
   A frame that reaches a decoder was emitted by the encoder of its slot, and stamped as it left. A server has one
   encoder for a session and sends each of its blocks on a path of its choice: the same source then stands under
   every slot, and each decoder sees some of that encoder's blocks.
   */
  ghost predicate Emitted(lib: Library, c: Config, sources: map<string, Source>, input: Input)
    requires forall slot :: slot in sources ==> Begins(lib, sources[slot])
  {
    input.Came? && input.f.session == c.session && Inner(input.f) && SlotOf(c, input.path) in sources ==>
      exists f, counter, own ::
        f in Trace(lib, sources[SlotOf(c, input.path)]).emitted && input.f == Sender.OnWire(f, counter, own)
  }

  lemma SourceIsStream(lib: Library, c: Config, sent: FecDecoderRuns.Sent, slot: string, s: Source)
    requires ErasureContract(lib) && TrueSource(lib, c, sent, s)
    ensures TrueStream(lib, sent, StreamFrom(lib, c, slot, s))
  {
    Sender.RegistryHonest(lib, s.start, s.evs, c.session, sent, slot);
    FecEncoder.EmissionHonest(lib, s.start, s.evs, c.session);
  }

  lemma EmittedIsHonest(lib: Library, c: Config, sent: FecDecoderRuns.Sent, sources: map<string, Source>, input: Input)
    requires ErasureContract(lib) && TrueSources(lib, c, sent, sources)
    requires Emitted(lib, c, sources, input)
    ensures HonestInput(lib, c, sent, StreamsFrom(lib, c, sent, sources), input)
  {
    if input.Came? && input.f.session == c.session && Inner(input.f) && SlotOf(c, input.path) in sources {
      var s := sources[SlotOf(c, input.path)];
      var f, counter, own :| f in Trace(lib, s).emitted && input.f == Sender.OnWire(f, counter, own);
      Sender.SenderHonest(lib, s.start, s.evs, c.session, sent, Routing(c), input.path, f, counter, own);
    }
  }

  /** Frames emitted by true sources are honest traffic of true streams. */
  lemma SourcesHonest(lib: Library, c: Config, sent: FecDecoderRuns.Sent, sources: map<string, Source>,
                      inputs: seq<Input>)
    requires ErasureContract(lib) && TrueSources(lib, c, sent, sources)
    requires forall i :: 0 <= i < |inputs| ==> Emitted(lib, c, sources, inputs[i])
    ensures var streams := StreamsFrom(lib, c, sent, sources);
            && TrueStreams(lib, sent, streams)
            && forall i :: 0 <= i < |inputs| ==> HonestInput(lib, c, sent, streams, inputs[i])
  {
    hide TrueStream;
    hide HonestInput;
    hide Emitted;
    hide ErasureContract;
    var streams := StreamsFrom(lib, c, sent, sources);
    forall slot | slot in streams ensures TrueStream(lib, sent, streams[slot]) {
      SourceIsStream(lib, c, sent, slot, sources[slot]);
    }
    forall i | 0 <= i < |inputs| ensures HonestInput(lib, c, sent, streams, inputs[i]) {
      EmittedIsHonest(lib, c, sent, sources, inputs[i]);
    }
  }

  /**
   From encoder to inner peer: whatever the peer's encoders were given, however they switched between coding
   and passing through, and whatever the WANs did to their frames, what is released rises strictly in number
   and carries under each number the payload that was given to an encoder under it.
   */
  lemma SentIsDelivered(lib: Library, c: Config, sent: FecDecoderRuns.Sent, sources: map<string, Source>, p: Pipe,
                        inputs: seq<Input>, n: nat)
    requires ErasureContract(lib) && TrueSources(lib, c, sent, sources) && AllSound(p.decs)
    requires Starts(c, StreamsFrom(lib, c, sent, sources), p) && n <= |inputs|
    requires forall i :: 0 <= i < |inputs| ==> Emitted(lib, c, sources, inputs[i])
    ensures DeliveredTruly(sent, Run(lib, c, p, inputs, n).history.out)
    ensures NearRun(lib, c, p, inputs, n) ==> NumberedOut(Run(lib, c, p, inputs, n).history.out)
  {
    hide Run;
    hide NearRun;
    SourcesHonest(lib, c, sent, sources, inputs);
    EndToEnd(lib, c, sent, StreamsFrom(lib, c, sent, sources), p, inputs, n);
  }
}
