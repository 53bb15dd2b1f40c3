/** The delivery buffer behind the decoders runs through the events of its own model: what holds of those holds here. */
module PipelineClock {
  import opened Erasure
  import opened Frames
  import opened Pipeline
  import Delivery
  import DeliveryClock
  import DeliveryObject

  /** The arrivals a sequence of decoded frames makes, each read near next when its turn comes. */
  ghost function Offered(c: Config, h: Delivery.History, frames: seq<Frame>, n: nat, now: int): seq<Delivery.Event>
    requires n <= |frames|
  {
    if n == 0 then []
    else
      Offered(c, h, frames, n - 1, now)
      + [Delivery.Arrived(DeliveryObject.ReadAt(Offer(c, h, frames, n - 1, now).buffer, frames[n - 1]), now)]
  }

  /** What an input means for the delivery buffer. */
  ghost function EventsOf(lib: Library, c: Config, p: Pipe, input: Input): seq<Delivery.Event>
    requires AllSound(p.decs)
  {
    if input.DeliveryTicked? then [Delivery.Ticked(input.now)]
    else
      var frames := Handed(lib, c, p, input);
      Offered(c, p.history, frames, |frames|, input.now)
  }

  /** All that happened to the delivery buffer before input n. */
  ghost function Events(lib: Library, c: Config, p: Pipe, inputs: seq<Input>, n: nat): seq<Delivery.Event>
    requires AllSound(p.decs) && n <= |inputs|
  {
    if n == 0 then []
    else
      Events(lib, c, p, inputs, n - 1) + EventsOf(lib, c, Run(lib, c, p, inputs, n - 1), inputs[n - 1])
  }

  ghost function Whole(c: Config, evs: seq<Delivery.Event>): Delivery.History {
    Delivery.Run(evs, |evs|, c.maxPending, c.gapTimeout)
  }

  lemma {:induction false} RunPrefix(evs: seq<Delivery.Event>, more: seq<Delivery.Event>, n: nat, max: nat,
                                     timeout: int)
    requires n <= |evs|
    ensures Delivery.Run(evs + more, n, max, timeout) == Delivery.Run(evs, n, max, timeout)
  {
    hide Delivery.Step;
    if n > 0 { RunPrefix(evs, more, n - 1, max, timeout); }
  }

  lemma WholeMore(c: Config, evs: seq<Delivery.Event>, ev: Delivery.Event)
    ensures Whole(c, evs + [ev]) == Delivery.Step(Whole(c, evs), ev, c.maxPending, c.gapTimeout)
  {
    hide Delivery.Step;
    RunPrefix(evs, [ev], |evs|, c.maxPending, c.gapTimeout);
  }

  lemma {:induction false} OfferIsRun(c: Config, evs: seq<Delivery.Event>, h: Delivery.History, frames: seq<Frame>,
                                      n: nat, now: int)
    requires h == Whole(c, evs) && n <= |frames|
    ensures Offer(c, h, frames, n, now) == Whole(c, evs + Offered(c, h, frames, n, now))
  {
    hide Delivery.Step;
    hide Whole;
    hide DeliveryObject.ReadAt;
    if n == 0 {
      assert evs + [] == evs;
    } else {
      OfferIsRun(c, evs, h, frames, n - 1, now);
      var before, g := Offered(c, h, frames, n - 1, now), Offer(c, h, frames, n - 1, now);
      var ev := Delivery.Arrived(DeliveryObject.ReadAt(g.buffer, frames[n - 1]), now);
      WholeMore(c, evs + before, ev);
      assert evs + (before + [ev]) == evs + before + [ev];
    }
  }

  lemma StepIsRun(lib: Library, c: Config, evs: seq<Delivery.Event>, p: Pipe, input: Input)
    requires AllSound(p.decs) && p.history == Whole(c, evs)
    ensures Step(lib, c, p, input).history == Whole(c, evs + EventsOf(lib, c, p, input))
  {
    hide Whole;
    hide Handed;
    hide Delivery.Step;
    if input.DeliveryTicked? {
      WholeMore(c, evs, Delivery.Ticked(input.now));
    } else {
      StepOffers(lib, c, p, input);
      OfferIsRun(c, evs, p.history, Handed(lib, c, p, input), |Handed(lib, c, p, input)|, input.now);
    }
  }

  /** In every run of the receive path the delivery buffer is where its own run over these events leads. */
  lemma {:induction false} HistoryIsRun(lib: Library, c: Config, p: Pipe, inputs: seq<Input>, n: nat)
    requires AllSound(p.decs) && n <= |inputs| && p.history == Whole(c, [])
    ensures Run(lib, c, p, inputs, n).history == Whole(c, Events(lib, c, p, inputs, n))
  {
    hide Whole;
    hide Step;
    hide EventsOf;
    if n > 0 {
      HistoryIsRun(lib, c, p, inputs, n - 1);
      StepIsRun(lib, c, Events(lib, c, p, inputs, n - 1), Run(lib, c, p, inputs, n - 1), inputs[n - 1]);
    }
  }

  /**
   In every run of the receive path a delivery tick releases frames exactly when something waits, and the arrival since
   which something has waited without a break lies at least the gap timeout before it; otherwise it changes nothing.
   */
  lemma TickReleasesIff(lib: Library, c: Config, p: Pipe, inputs: seq<Input>, n: nat)
    requires AllSound(p.decs) && n < |inputs| && inputs[n].DeliveryTicked? && p.history == Whole(c, [])
    ensures var h, g := Run(lib, c, p, inputs, n).history, Run(lib, c, p, inputs, n + 1).history;
            var evs, now := Events(lib, c, p, inputs, n), inputs[n].now;
            && (g.out != h.out <==> DeliveryClock.WaitedFor(evs, |evs|, c.maxPending, c.gapTimeout, now, c.gapTimeout))
            && (g.out == h.out ==> g.buffer == h.buffer)
  {
    hide Delivery.Step;
    hide Step;
    hide DeliveryClock.WaitedFor;
    var evs, ev := Events(lib, c, p, inputs, n), Delivery.Ticked(inputs[n].now);
    HistoryIsRun(lib, c, p, inputs, n);
    HistoryIsRun(lib, c, p, inputs, n + 1);
    assert Events(lib, c, p, inputs, n + 1) == evs + [ev];
    RunPrefix(evs, [ev], |evs|, c.maxPending, c.gapTimeout);
    DeliveryClock.TickReleasesIff(evs + [ev], |evs|, c.maxPending, c.gapTimeout);
    SameWait(c, evs, ev, |evs|, inputs[n].now);
  }

  lemma SameWait(c: Config, evs: seq<Delivery.Event>, ev: Delivery.Event, n: nat, now: int)
    requires n <= |evs|
    ensures DeliveryClock.WaitedFor(evs + [ev], n, c.maxPending, c.gapTimeout, now, c.gapTimeout) <==>
              DeliveryClock.WaitedFor(evs, n, c.maxPending, c.gapTimeout, now, c.gapTimeout)
  {
    SameSince(c, evs, ev, n);
    RunPrefix(evs, [ev], n, c.maxPending, c.gapTimeout);
  }

  lemma {:induction false} SameSince(c: Config, evs: seq<Delivery.Event>, ev: Delivery.Event, n: nat)
    requires n <= |evs|
    ensures DeliveryClock.WaitingSince(evs + [ev], n, c.maxPending, c.gapTimeout)
         == DeliveryClock.WaitingSince(evs, n, c.maxPending, c.gapTimeout)
  {
    hide Delivery.Run;
    if n > 0 {
      SameSince(c, evs, ev, n - 1);
      RunPrefix(evs, [ev], n - 1, c.maxPending, c.gapTimeout);
    }
  }
}
