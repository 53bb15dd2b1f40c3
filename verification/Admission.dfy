/** Which frames of a session get past the replay window, and what then happens to a frame outside any block. */
module Admission {
  import opened Erasure
  import opened Frames
  import opened FecDecoder
  import opened Pipeline
  import Delivery
  import DeliveryClock
  import DeliveryObject
  import FecSizing
  import ReplayWindow

  // ---------------------------------------------------------------------
  // The window.

  /** A frame of the session that is not part of a key exchange: its number is counted. */
  ghost predicate Counts(c: Config, input: Input) {
    input.Came? && input.f.session == c.session && input.f.flags / 32 % 2 == 0
  }

  /** Number s has not come before, and no number that came lies a whole window or more beyond it. */
  ghost predicate NewAt(c: Config, inputs: seq<Input>, n: nat, s: nat, size: nat)
    requires n <= |inputs|
  {
    forall j :: 0 <= j < n && Counts(c, inputs[j]) ==> inputs[j].f.seqNo != s && inputs[j].f.seqNo < s + size
  }

  ghost predicate CameAs(c: Config, inputs: seq<Input>, n: nat, s: nat)
    requires n <= |inputs|
  {
    exists j :: 0 <= j < n && Counts(c, inputs[j]) && inputs[j].f.seqNo == s
  }

  /** The window remembers numbers that came; what came and is not remembered lies below its floor. */
  ghost predicate Remembers(f: ReplayWindow.Filter, c: Config, inputs: seq<Input>, n: nat)
    requires n <= |inputs|
  {
    && (forall x :: x in f.seen ==> CameAs(c, inputs, n, x))
    && (forall x: nat :: CameAs(c, inputs, n, x) ==> x in f.seen || x < f.base)
    && (forall x: nat :: CameAs(c, inputs, n, x) ==> x - f.size + 1 <= f.base)
    && (f.base == 0 || CameAs(c, inputs, n, f.base + f.size - 1))
  }

  lemma CameLater(c: Config, inputs: seq<Input>, n: nat, x: nat)
    requires n < |inputs|
    ensures CameAs(c, inputs, n + 1, x) <==>
              CameAs(c, inputs, n, x) || (Counts(c, inputs[n]) && inputs[n].f.seqNo == x)
  {
    if Counts(c, inputs[n]) && inputs[n].f.seqNo == x { assert inputs[n].f.seqNo == x; }
    if CameAs(c, inputs, n, x) {
      var j :| 0 <= j < n && Counts(c, inputs[j]) && inputs[j].f.seqNo == x;
      assert 0 <= j < n + 1;
    }
  }

  lemma CheckRemembers(f: ReplayWindow.Filter, c: Config, inputs: seq<Input>, n: nat)
    requires n < |inputs| && f.size > 0 && Remembers(f, c, inputs, n) && Counts(c, inputs[n])
    ensures var g := ReplayWindow.Check(f, inputs[n].f.seqNo).0; g.size == f.size && Remembers(g, c, inputs, n + 1)
  {
    hide CameAs;
    var m := n + 1;
    forall x: nat ensures CameAs(c, inputs, m, x) <==> CameAs(c, inputs, n, x) || inputs[n].f.seqNo == x {
      CameLater(c, inputs, n, x);
    }
  }

  lemma IdleRemembers(f: ReplayWindow.Filter, c: Config, inputs: seq<Input>, n: nat)
    requires n < |inputs| && Remembers(f, c, inputs, n) && !Counts(c, inputs[n])
    ensures Remembers(f, c, inputs, n + 1)
  {
    hide Counts;
    hide CameAs;
    var m := n + 1;
    forall x: nat ensures CameAs(c, inputs, m, x) <==> CameAs(c, inputs, n, x) { CameLater(c, inputs, n, x); }
  }

  lemma AcceptedIff(f: ReplayWindow.Filter, c: Config, inputs: seq<Input>, n: nat, s: nat)
    requires n <= |inputs| && f.size > 0 && Remembers(f, c, inputs, n)
    ensures ReplayWindow.Check(f, s).1 <==> NewAt(c, inputs, n, s, f.size)
  {
    if NewAt(c, inputs, n, s, f.size) {
      assert !CameAs(c, inputs, n, s);
    }
    if ReplayWindow.Check(f, s).1 {
      forall j | 0 <= j < n && Counts(c, inputs[j])
        ensures inputs[j].f.seqNo != s && inputs[j].f.seqNo < s + f.size
      {
        assert CameAs(c, inputs, n, inputs[j].f.seqNo);
      }
    }
  }

  lemma StepFilter(lib: Library, c: Config, p: Pipe, input: Input)
    requires AllSound(p.decs)
    ensures Step(lib, c, p, input).filter ==
              if Counts(c, input) then ReplayWindow.Check(p.filter, input.f.seqNo).0 else p.filter
  {
    hide Push;
    hide Tick;
    hide ReplayWindow.Check;
  }

  lemma {:induction false} FilterRemembers(lib: Library, c: Config, p: Pipe, inputs: seq<Input>, n: nat, size: nat)
    requires AllSound(p.decs) && n <= |inputs| && size > 0 && p.filter == ReplayWindow.Fresh(size)
    ensures var f := Run(lib, c, p, inputs, n).filter; f.size == size && Remembers(f, c, inputs, n)
  {
    hide Step;
    hide Remembers;
    if n == 0 {
      assert Remembers(p.filter, c, inputs, 0) by { NothingCame(p.filter, c, inputs); }
    } else {
      FilterRemembers(lib, c, p, inputs, n - 1, size);
      var before := Run(lib, c, p, inputs, n - 1);
      StepFilter(lib, c, before, inputs[n - 1]);
      if Counts(c, inputs[n - 1]) {
        CheckRemembers(before.filter, c, inputs, n - 1);
      } else {
        IdleRemembers(before.filter, c, inputs, n - 1);
      }
    }
  }

  lemma NothingCame(f: ReplayWindow.Filter, c: Config, inputs: seq<Input>)
    requires f.seen == {} && f.base == 0
    ensures Remembers(f, c, inputs, 0)
  {}

  /** In every run the window lets a number through exactly when it is new and not a window's width behind. */
  lemma PassesIffNew(lib: Library, c: Config, p: Pipe, inputs: seq<Input>, n: nat, size: nat, s: nat)
    requires AllSound(p.decs) && n <= |inputs| && size > 0 && p.filter == ReplayWindow.Fresh(size)
    ensures ReplayWindow.Check(Run(lib, c, p, inputs, n).filter, s).1 <==> NewAt(c, inputs, n, s, size)
  {
    hide Remembers;
    hide Run;
    FilterRemembers(lib, c, p, inputs, n, size);
    AcceptedIff(Run(lib, c, p, inputs, n).filter, c, inputs, n, s);
  }

  // ---------------------------------------------------------------------
  // What a frame does.

  /** The frame goes on to the decoder of its slot. */
  ghost predicate Admitted(c: Config, p: Pipe, inputs: seq<Input>, n: nat, size: nat)
    requires n < |inputs|
  {
    && Counts(c, inputs[n]) && Inner(inputs[n].f) && SlotOf(c, inputs[n].path) in p.decs
    && NewAt(c, inputs, n, inputs[n].f.seqNo, size)
  }

  /** The slots are fixed from the start. */
  lemma {:induction false} SlotsStay(lib: Library, c: Config, p: Pipe, inputs: seq<Input>, n: nat)
    requires AllSound(p.decs) && n <= |inputs|
    ensures Run(lib, c, p, inputs, n).decs.Keys == p.decs.Keys
  {
    hide Push;
    hide Tick;
    hide ReplayWindow.Check;
    if n > 0 { SlotsStay(lib, c, p, inputs, n - 1); }
  }

  /**
   In every run a frame that came before, is a window's width behind, belongs to another session, ends before the
   decoders or has no decoder changes neither the decoders nor the delivery buffer.
   */
  lemma OthersIgnored(lib: Library, c: Config, p: Pipe, inputs: seq<Input>, n: nat, size: nat)
    requires AllSound(p.decs) && n < |inputs| && size > 0 && p.filter == ReplayWindow.Fresh(size)
    requires inputs[n].Came? && !Admitted(c, p, inputs, n, size)
    ensures var q, r := Run(lib, c, p, inputs, n), Run(lib, c, p, inputs, n + 1);
            r.decs == q.decs && r.history == q.history
  {
    hide Push;
    hide ReplayWindow.Check;
    PassesIffNew(lib, c, p, inputs, n, size, inputs[n].f.seqNo);
    SlotsStay(lib, c, p, inputs, n);
    hide NewAt;
  }

  /** In every run key exchange, replies to probes, control, keepalives and empty frames end before the decoders. */
  lemma ControlEndsEarly(lib: Library, c: Config, p: Pipe, inputs: seq<Input>, n: nat)
    requires AllSound(p.decs) && n < |inputs| && inputs[n].Came?
    requires var f := inputs[n].f;
             || f.payload == [] || f.flags / 2 % 2 == 1 || f.flags / 4 % 2 == 1 || f.flags / 16 % 2 == 1
             || f.flags / 32 % 2 == 1
    ensures var q, r := Run(lib, c, p, inputs, n), Run(lib, c, p, inputs, n + 1);
            r.decs == q.decs && r.history == q.history
  {
    hide Push;
    hide ReplayWindow.Check;
  }

  /** Two WANs share a decoder, and the frames of a block sent over both meet in it, exactly in cross-path mode. */
  lemma SharedIff(c: Config, p: FecSizing.Params, a: string, b: string, f: Frame)
    requires a != b && p.crossPath == c.crossPath
    ensures SlotOf(c, a) == SlotOf(c, b) <==> c.crossPath
    ensures KeyOf(p, a, f) == KeyOf(p, b, f) <==> c.crossPath
    ensures KeyOf(p, a, f).path == SlotOf(c, a)
  {}

  /** In every run an admitted frame is given to the decoder of its slot, whose answer goes to the delivery buffer. */
  lemma AdmittedDecoded(lib: Library, c: Config, p: Pipe, inputs: seq<Input>, n: nat, size: nat)
    requires AllSound(p.decs) && n < |inputs| && size > 0 && p.filter == ReplayWindow.Fresh(size)
    requires Admitted(c, p, inputs, n, size)
    ensures var q, r, slot := Run(lib, c, p, inputs, n), Run(lib, c, p, inputs, n + 1), SlotOf(c, inputs[n].path);
            && slot in q.decs
            && var o := Push(lib, q.decs[slot], inputs[n].path, inputs[n].f, inputs[n].now);
               r.decs == q.decs[slot := o.dec] && r.history == Offer(c, q.history, o.out, |o.out|, inputs[n].now)
  {
    hide Push;
    hide ReplayWindow.Check;
    PassesIffNew(lib, c, p, inputs, n, size, inputs[n].f.seqNo);
    SlotsStay(lib, c, p, inputs, n);
    hide NewAt;
  }

  // ---------------------------------------------------------------------
  // Frames outside any block.

  lemma {:induction false} OfferOrdered(c: Config, h: Delivery.History, frames: seq<Frame>, n: nat, now: int)
    requires Delivery.Ordered(h.buffer, h.out) && n <= |frames|
    ensures var g := Offer(c, h, frames, n, now); Delivery.Ordered(g.buffer, g.out)
  {
    hide Delivery.Ordered;
    hide Delivery.Step;
    hide DeliveryObject.ReadAt;
    if n > 0 {
      OfferOrdered(c, h, frames, n - 1, now);
      var g := Offer(c, h, frames, n - 1, now);
      DeliveryStepOrdered(c, g, Delivery.Arrived(DeliveryObject.ReadAt(g.buffer, frames[n - 1]), now));
    }
  }

  lemma StepOrdered(lib: Library, c: Config, p: Pipe, input: Input)
    requires AllSound(p.decs) && Delivery.Ordered(p.history.buffer, p.history.out)
    ensures var h := Step(lib, c, p, input).history; Delivery.Ordered(h.buffer, h.out)
  {
    hide Delivery.Ordered;
    hide Handed;
    if input.DeliveryTicked? {
      DeliveryStepOrdered(c, p.history, Delivery.Ticked(input.now));
    } else {
      StepOffers(lib, c, p, input);
      OfferOrdered(c, p.history, Handed(lib, c, p, input), |Handed(lib, c, p, input)|, input.now);
    }
  }

  /** Whatever arrives, the delivery buffer stays in order. */
  lemma {:induction false} AlwaysOrdered(lib: Library, c: Config, p: Pipe, inputs: seq<Input>, n: nat)
    requires AllSound(p.decs) && n <= |inputs| && Delivery.Ordered(p.history.buffer, p.history.out)
    ensures var h := Run(lib, c, p, inputs, n).history; Delivery.Ordered(h.buffer, h.out)
  {
    hide Step;
    hide Delivery.Ordered;
    if n > 0 {
      AlwaysOrdered(lib, c, p, inputs, n - 1);
      StepOrdered(lib, c, Run(lib, c, p, inputs, n - 1), inputs[n - 1]);
    }
  }

  /** A frame outside any block. */
  predicate Aside(f: Frame) { !IsParity(f) && (IsPass(f) || f.blockSeq == 0) }

  lemma OneOffered(c: Config, h: Delivery.History, f: Frame, now: int)
    ensures Offer(c, h, [f], 1, now) ==
              Delivery.Step(h, Delivery.Arrived(DeliveryObject.ReadAt(h.buffer, f), now), c.maxPending, c.gapTimeout)
  {
    assert Offer(c, h, [f], 0, now) == h;
  }

  /**
   In every run an admitted frame outside any block leaves the blocks alone and goes straight to the delivery buffer.
   If its number, read near next, is next, it is released at once with what waited right behind it; if it lies beyond
   next it is taken in and waits; if it lies below next, nothing changes.
   */
  lemma AsideDelivered(lib: Library, c: Config, p: Pipe, inputs: seq<Input>, n: nat, size: nat)
    requires AllSound(p.decs) && n < |inputs| && size > 0 && p.filter == ReplayWindow.Fresh(size)
    requires Admitted(c, p, inputs, n, size) && Aside(inputs[n].f)
    requires Delivery.Ordered(p.history.buffer, p.history.out)
    requires Near(Run(lib, c, p, inputs, n).history.buffer, inputs[n].f)
    ensures var q, r, slot := Run(lib, c, p, inputs, n), Run(lib, c, p, inputs, n + 1), SlotOf(c, inputs[n].path);
            && slot in q.decs && slot in r.decs && r.decs[slot].blocks == q.decs[slot].blocks
            && DeliveryClock.ArrivalDoes(q.history, Delivery.Item(inputs[n].f.seqNo, inputs[n].f), c.maxPending,
                                         r.history)
  {
    hide Delivery.Step;
    hide DeliveryClock.ArrivalDoes;
    hide Run;
    hide DeliveryObject.Nearest;
    hide NewAt;
    AlwaysOrdered(lib, c, p, inputs, n);
    hide Delivery.Sane;
    AdmittedDecoded(lib, c, p, inputs, n, size);
    var h, f, now := Run(lib, c, p, inputs, n).history, inputs[n].f, inputs[n].now;
    OneOffered(c, h, f, now);
    DeliveryObject.ReadTrulyIff(h.buffer.next, f.seqNo);
    DeliveryClock.StepDoes(h, DeliveryObject.ReadAt(h.buffer, f), now, c.maxPending, c.gapTimeout);
  }
}
