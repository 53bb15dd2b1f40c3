/**
 Numbers that carry no data. Parity frames are numbered from the same counter as data frames, and no decoder hands
 them on, so the delivery buffer meets a gap at each of their numbers even when nothing is lost.
 */
module HeadOfLine {
  import opened Bytes
  import opened Erasure
  import opened Frames
  import opened FecDecoder
  import opened Pipeline
  import Delivery
  import DeliveryObject
  import FecDecoderRuns
  import Sender

  /** No data frame was sent under this number. */
  ghost predicate NoData(sent: FecDecoderRuns.Sent, t: nat) {
    forall id :: id in sent ==> id.1 != DeliveryObject.Wire(t)
  }

  lemma ItemIsData(sent: FecDecoderRuns.Sent, x: Delivery.Item, t: nat)
    requires TrueItem(sent, x) && NoData(sent, t)
    ensures x.t != t
  {
    hide DeliveryObject.Wire;
    assert (x.f.session, x.f.seqNo) in sent;
  }

  lemma WaitingIsData(sent: FecDecoderRuns.Sent, h: Delivery.History, t: nat)
    requires GoodHistory(sent, h) && NoData(sent, t)
    ensures t !in h.buffer.pending
  {
    if t in h.buffer.pending {
      var x := Delivery.Item(t, h.buffer.pending[t]);
      Delivery.WaitingWasTaken(h, t);
      assert TrueItem(sent, x);
      ItemIsData(sent, x, t);
    }
  }

  /** A true frame does not move next past a number without data. */
  lemma ArrivalStops(c: Config, sent: FecDecoderRuns.Sent, h: Delivery.History, f: Frame, now: int, t: nat)
    requires GoodHistory(sent, h) && FecDecoderRuns.Truthful(sent, f) && NoData(sent, t) && h.buffer.next <= t
    ensures var ev := Delivery.Arrived(DeliveryObject.ReadAt(h.buffer, f), now);
            Delivery.Step(h, ev, c.maxPending, c.gapTimeout).buffer.next <= t
  {
    hide Delivery.Arrive;
    hide TrueItem;
    hide NoData;
    hide DeliveryObject.ReadAt;
    var x := DeliveryObject.ReadAt(h.buffer, f);
    ReadTruly(sent, h, f);
    ItemIsData(sent, x, t);
    WaitingIsData(sent, h, t);
    if t < Delivery.Arrive(h.buffer, x, now, c.maxPending).buffer.next {
      Delivery.ArrivalPasses(h.buffer, x, now, c.maxPending, t);
    }
  }

  lemma {:induction false} OfferStops(c: Config, sent: FecDecoderRuns.Sent, h: Delivery.History, frames: seq<Frame>,
                                      n: nat, now: int, t: nat)
    requires GoodHistory(sent, h) && FecDecoderRuns.TruthfulAll(sent, frames) && n <= |frames|
    requires NoData(sent, t) && h.buffer.next <= t
    ensures Offer(c, h, frames, n, now).buffer.next <= t
  {
    hide GoodHistory;
    hide NoData;
    hide Delivery.Step;
    hide DeliveryObject.ReadAt;
    hide FecDecoderRuns.Truthful;
    if n > 0 {
      assert frames[n - 1] in frames;
      OfferStops(c, sent, h, frames, n - 1, now, t);
      OfferGood(c, sent, h, frames, n - 1, now);
      ArrivalStops(c, sent, Offer(c, h, frames, n - 1, now), frames[n - 1], now, t);
    }
  }

  /** What an honest input hands to the buffer is true. */
  lemma HandedTruly(lib: Library, c: Config, sent: FecDecoderRuns.Sent, streams: map<string, Stream>, p: Pipe,
                    input: Input)
    requires ErasureContract(lib) && TrueStreams(lib, sent, streams) && Good(lib, c, sent, streams, p)
    requires HonestInput(lib, c, sent, streams, input) && AllSound(p.decs)
    ensures FecDecoderRuns.TruthfulAll(sent, Handed(lib, c, p, input))
  {
    hide Push;
    hide Tick;
    hide GoodHistory;
    hide ErasureContract;
    hide FecDecoderRuns.Truthful;
    match input
    case Came(path, f, now) =>
      var slot := SlotOf(c, path);
      if f.session == c.session && Inner(f) && slot in p.decs {
        var d := p.decs[slot];
        assert KeyOf(Routing(c), path, f) == KeyOf(d.params, path, f);
        PushFollowed(lib, streams[slot], d, path, f, now, sent);
      }
    case DecoderTicked(slot, now, order) =>
      if slot in p.decs { TickFollowed(lib, streams[slot], p.decs[slot], now, order, sent); }
    case DeliveryTicked(_) =>
  }

  lemma StepStops(lib: Library, c: Config, sent: FecDecoderRuns.Sent, streams: map<string, Stream>, p: Pipe,
                  input: Input, t: nat)
    requires ErasureContract(lib) && TrueStreams(lib, sent, streams) && Good(lib, c, sent, streams, p)
    requires HonestInput(lib, c, sent, streams, input) && AllSound(p.decs) && !input.DeliveryTicked?
    requires NoData(sent, t) && p.history.buffer.next <= t
    ensures Step(lib, c, p, input).history.buffer.next <= t
  {
    hide Step;
    hide Handed;
    hide Offer;
    hide NoData;
    hide GoodHistory;
    hide HonestInput;
    HandedTruly(lib, c, sent, streams, p, input);
    StepOffers(lib, c, p, input);
    OfferStops(c, sent, p.history, Handed(lib, c, p, input), |Handed(lib, c, p, input)|, input.now, t);
  }

  /**
   In every run of the receive path over honest traffic, only a delivery tick moves next past a number without data.
   */
  lemma PassedOnlyByTick(lib: Library, c: Config, sent: FecDecoderRuns.Sent, streams: map<string, Stream>, p: Pipe,
                         inputs: seq<Input>, n: nat, t: nat)
    requires ErasureContract(lib) && TrueStreams(lib, sent, streams) && Starts(c, streams, p) && AllSound(p.decs)
    requires n < |inputs| && forall i :: 0 <= i < |inputs| ==> HonestInput(lib, c, sent, streams, inputs[i])
    requires NoData(sent, t) && Run(lib, c, p, inputs, n).history.buffer.next <= t
    requires Run(lib, c, p, inputs, n + 1).history.buffer.next > t
    ensures inputs[n].DeliveryTicked?
  {
    hide Step;
    hide Good;
    hide NoData;
    hide HonestInput;
    AlwaysGood(lib, c, sent, streams, p, inputs, n);
    if !inputs[n].DeliveryTicked? {
      StepStops(lib, c, sent, streams, Run(lib, c, p, inputs, n), inputs[n], t);
    }
  }

  ghost predicate NoTickBefore(inputs: seq<Input>, n: nat)
    requires n <= |inputs|
  {
    forall i :: 0 <= i < n ==> !inputs[i].DeliveryTicked?
  }

  lemma {:induction false} HeldUntilTick(lib: Library, c: Config, sent: FecDecoderRuns.Sent,
                                         streams: map<string, Stream>, p: Pipe, inputs: seq<Input>, n: nat, t: nat)
    requires ErasureContract(lib) && TrueStreams(lib, sent, streams) && Starts(c, streams, p) && AllSound(p.decs)
    requires n <= |inputs| && forall i :: 0 <= i < |inputs| ==> HonestInput(lib, c, sent, streams, inputs[i])
    requires NoData(sent, t) && t > 0 && NoTickBefore(inputs, n)
    ensures Run(lib, c, p, inputs, n).history.buffer.next <= t
  {
    hide Step;
    hide Good;
    hide NoData;
    hide HonestInput;
    if n > 0 {
      HeldUntilTick(lib, c, sent, streams, p, inputs, n - 1, t);
      AlwaysGood(lib, c, sent, streams, p, inputs, n - 1);
      StepStops(lib, c, sent, streams, Run(lib, c, p, inputs, n - 1), inputs[n - 1], t);
    }
  }

  /**
   From the peer's encoders: a parity frame was sent under a number of its own. Whatever arrives, and even if everything
   does, nothing beyond that number is released before the first tick of the delivery buffer.
   */
  lemma ParityHoldsUp(lib: Library, c: Config, sent: FecDecoderRuns.Sent, sources: map<string, Source>, p: Pipe,
                      inputs: seq<Input>, n: nat, slot: string, f: Frame, counter: U32, own: U32)
    requires ErasureContract(lib) && TrueSources(lib, c, sent, sources) && AllSound(p.decs)
    requires Starts(c, StreamsFrom(lib, c, sent, sources), p) && n <= |inputs| && NoTickBefore(inputs, n)
    requires forall i :: 0 <= i < |inputs| ==> Emitted(lib, c, sources, inputs[i])
    requires slot in sources && f in Trace(lib, sources[slot]).emitted && IsParity(f)
    requires var g := Sender.OnWire(f, counter, own); g.seqNo > 0 && NoData(sent, g.seqNo)
    ensures Delivery.Within(Run(lib, c, p, inputs, n).history.out, 0, Sender.OnWire(f, counter, own).seqNo)
  {
    hide Run;
    hide NoData;
    hide Emitted;
    hide Sender.OnWire;
    var streams, t := StreamsFrom(lib, c, sent, sources), Sender.OnWire(f, counter, own).seqNo;
    SourcesHonest(lib, c, sent, sources, inputs);
    AlwaysGood(lib, c, sent, streams, p, inputs, n);
    HeldUntilTick(lib, c, sent, streams, p, inputs, n, t);
  }
}
