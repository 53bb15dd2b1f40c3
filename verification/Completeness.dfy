/**
 From the peer's encoders to the inner peer, the other half: nothing that was pushed is lost without a reason that can
 be named.
 */
module Completeness {
  import opened Bytes
  import opened Erasure
  import opened Frames
  import opened FecDecoder
  import opened Pipeline
  import opened Progress
  import opened Timeliness
  import Admission
  import Delivery
  import FecDecoderRuns
  import FecEncoder
  import FecEncoderLaws
  import FecHolding
  import FecSizing
  import Sender

  // ---------------------------------------------------------------------
  // What an encoder emits reaches the decoders.

  ghost predicate Plain(frames: seq<Frame>) { forall i :: 0 <= i < |frames| ==> frames[i].flags == 0 }

  /** A parity frame, or a data frame with no flag but that of a frame passing by. */
  predicate Sendable(f: Frame) { IsParity(f) || f.flags == 0 || f.flags == FLAG_PASS_SEQ }

  ghost predicate AllSendable(frames: seq<Frame>) { forall i :: 0 <= i < |frames| ==> Sendable(frames[i]) }

  lemma MarkedSendable(frames: seq<Frame>)
    requires Plain(frames)
    ensures AllSendable(FecEncoder.MarkAll(frames)) && AllSendable(frames)
  {}

  lemma SealedSendable(lib: Library, e: FecEncoder.Enc, coded: bool)
    requires e.pending != [] && e.rsParity >= 0 && Plain(e.pending)
    ensures AllSendable(FecEncoder.Seal(lib, e, coded).1)
  {
    var b := FecEncoder.SealedBlock(e, coded);
    FecEncoderLaws.ParityMarked(lib, b);
    assert AllSendable(FecEncoder.ParityFrames(lib, b));
  }

  lemma StepSendable(lib: Library, e: FecEncoder.Enc, ev: FecEncoder.Event)
    requires FecEncoder.Invariant(lib, e) && Plain(e.pending + FecEncoder.Input(ev))
    ensures AllSendable(FecEncoder.Step(lib, e, ev).1)
  {
    hide FecEncoder.Seal;
    hide FecEncoder.Refresh;
    hide Sendable;
    if ev.LossSet? {
    } else if !FecSizing.Enabled(e.params) {
      if ev.Pushed? {
        assert e.pending + [ev.f] == [ev.f];
        MarkedSendable([ev.f]);
      }
    } else {
      FecEncoder.RefreshKeeps(lib, e, ev.now);
      var d := FecEncoder.Refresh(lib, e, ev.now);
      var waiting := d.pending + FecEncoder.Input(ev);
      MarkedSendable(waiting);
      if ev.Ticked? { assert waiting == d.pending; }
      if d.codingOn && ev.Pushed? && |waiting| >= d.params.k {
        SealedSendable(lib, d.(pending := waiting, blockStart := if d.pending == [] then ev.now else d.blockStart),
                       true);
      }
      if d.codingOn && ev.Ticked? && d.pending != [] { SealedSendable(lib, d, false); }
    }
  }

  lemma {:induction false} EmittedSendable(lib: Library, e0: FecEncoder.Enc, evs: seq<FecEncoder.Event>, session: U64)
    requires ErasureContract(lib) && FecEncoder.Invariant(lib, e0) && e0.pending == [] && e0.blocksCoded == 0
    requires FecEncoder.Pure(FecEncoder.Run(lib, e0, evs).pushed, session)
    ensures AllSendable(FecEncoder.Run(lib, e0, evs).emitted)
  {
    hide FecEncoder.Step;
    hide FecEncoder.Invariant;
    hide ErasureContract;
    if evs != [] {
      var init, ev := evs[..|evs| - 1], evs[|evs| - 1];
      var t := FecEncoder.Run(lib, e0, init);
      Sender.PrefixPure(t.pushed, FecEncoder.Input(ev), session);
      EmittedSendable(lib, e0, init, session);
      FecEncoder.EmissionHonest(lib, e0, init, session);
      FecEncoder.PendingPure(t, ev, session);
      StepSendable(lib, t.enc, ev);
    }
  }

  lemma {:induction false} PushesAreData(lib: Library, e0: FecEncoder.Enc, evs: seq<FecEncoder.Event>, session: U64)
    requires FecEncoder.Invariant(lib, e0) && FecEncoder.Pure(FecEncoder.Run(lib, e0, evs).pushed, session)
    ensures FecEncoder.DataPushes(evs)
    decreases |evs|
  {
    hide FecEncoder.Pure;
    hide FecEncoder.NoParity;
    hide FecEncoder.Step;
    hide FecEncoder.Invariant;
    hide FecEncoder.DataPushes;
    if evs == [] {
      NoPushes(evs);
    } else {
      var init, ev := evs[..|evs| - 1], evs[|evs| - 1];
      var t := FecEncoder.Run(lib, e0, init);
      Sender.PrefixPure(t.pushed, FecEncoder.Input(ev), session);
      PushesAreData(lib, e0, init, session);
      LastIsData(t.pushed, FecEncoder.Input(ev), session);
      OnePushMore(init, ev);
      assert init + [ev] == evs;
    }
  }

  lemma NoPushes(evs: seq<FecEncoder.Event>)
    requires evs == []
    ensures FecEncoder.DataPushes(evs)
  {}

  lemma LastIsData(pushed: seq<Frame>, input: seq<Frame>, session: U64)
    requires FecEncoder.Pure(pushed + input, session)
    ensures FecEncoder.NoParity(input)
  {
    forall i | 0 <= i < |input| ensures !IsParity(input[i]) {
      assert (pushed + input)[|pushed| + i] == input[i];
    }
  }

  lemma OnePushMore(evs: seq<FecEncoder.Event>, ev: FecEncoder.Event)
    requires FecEncoder.DataPushes(evs) && FecEncoder.NoParity(FecEncoder.Input(ev))
    ensures FecEncoder.DataPushes(evs + [ev])
  {}

  lemma {:induction false} DataMember(frames: seq<Frame>, a: nat) returns (m: nat)
    requires a < |FecEncoder.DataOf(frames)|
    ensures m < |frames| && !IsParity(frames[m]) && FecEncoder.IdOf(frames[m]) == FecEncoder.DataOf(frames)[a]
  {
    var init := frames[..|frames| - 1];
    if a < |FecEncoder.DataOf(init)| { m := DataMember(init, a); } else { m := |frames| - 1; }
  }

  /** Every pushed frame that no longer waits was emitted, with the same number and payload. */
  lemma PushedIsEmitted(lib: Library, s: Source, session: U64, a: nat) returns (m: nat)
    requires ErasureContract(lib) && Begins(lib, s) && FecEncoder.Pure(Trace(lib, s).pushed, session)
    requires Trace(lib, s).enc.pending == [] && a < |Trace(lib, s).pushed|
    ensures var t := Trace(lib, s);
            && m < |t.emitted| && FecEncoder.IdOf(t.emitted[m]) == FecEncoder.IdOf(t.pushed[a])
            && !IsParity(t.emitted[m]) && (t.emitted[m].flags == 0 || t.emitted[m].flags == FLAG_PASS_SEQ)
  {
    hide FecEncoder.Run;
    hide FecEncoder.Pure;
    var t := Trace(lib, s);
    PushesAreData(lib, s.start, s.evs, session);
    FecEncoder.StreamConserved(lib, s.start, s.evs);
    EmittedSendable(lib, s.start, s.evs, session);
    assert FecEncoder.DataOf(t.emitted) == FecEncoder.Ids(t.pushed);
    m := DataMember(t.emitted, a);
  }

  // ---------------------------------------------------------------------
  // What becomes of it.

  /** The session is what the encoders of these sources send, and nothing else reaches its decoders. */
  ghost predicate FromSources(s: Scene, sources: map<string, Source>) {
    && Genuine(s) && TrueSources(s.lib, s.c, s.sent, sources) && s.streams == StreamsFrom(s.lib, s.c, s.sent, sources)
  }

  ghost predicate Leaves(f: Frame, g: Frame) { exists counter, own :: g == Sender.OnWire(f, counter, own) }

  /** Input j brings the emitted frame to the decoder of its slot, new and not a window's width behind. */
  ghost predicate Brings(s: Scene, j: nat, slot: string, f: Frame) {
    && j < |s.inputs| && s.inputs[j].Came? && SlotOf(s.c, s.inputs[j].path) == slot
    && Leaves(f, s.inputs[j].f) && Admission.NewAt(s.c, s.inputs, j, f.seqNo, s.size)
  }

  /** An emitted data frame of the session with a payload. */
  ghost predicate Carries(s: Scene, f: Frame) {
    f.session == s.c.session && f.payload != [] && !IsParity(f) && (f.flags == 0 || f.flags == FLAG_PASS_SEQ)
  }

  lemma BroughtIn(s: Scene, j: nat, slot: string, f: Frame)
    requires Brings(s, j, slot, f) && Carries(s, f) && HasSlot(s, slot)
    ensures Concerns(s, j, slot) && s.inputs[j].f.seqNo == f.seqNo && !IsParity(s.inputs[j].f)
    ensures Admission.Admitted(s.c, s.start, s.inputs, j, s.size) && Inner(s.inputs[j].f)
  {
    hide Admission.NewAt;
    var counter, own :| s.inputs[j].f == Sender.OnWire(f, counter, own);
  }

  /** What brings a frame of a block. */
  lemma WhichBlock(s: Scene, j: nat, slot: string) returns (i: nat)
    requires Genuine(s) && HasSlot(s, slot) && j < |s.inputs| && s.inputs[j].Came? && Concerns(s, j, slot)
    requires !IsParity(s.inputs[j].f) && !Admission.Aside(s.inputs[j].f)
    requires FecSizing.Enabled(s.start.decs[slot].params)
    ensures var key := KeyOf(Routing(s.c), s.inputs[j].path, s.inputs[j].f);
            Comes(s, j, slot, key, i) && DataOf(s, slot, key, i)
  {
    hide Admission.NewAt;
    hide Starts;
    hide TrueStreams;
    assert HonestInput(s.lib, s.c, s.sent, s.streams, s.inputs[j]);
    var f, key := s.inputs[j].f, KeyOf(Routing(s.c), s.inputs[j].path, s.inputs[j].f);
    i :| FecDecoderRuns.OfBlock(s.lib, s.streams[slot].reg, key, i, f);
  }

  /** A decoder still holds number q. */
  ghost predicate StillHeld(s: Scene, n: nat, slot: string, q: U32)
    requires Genuine(s) && n <= |s.inputs| && HasSlot(s, slot)
  {
    exists key :: FecHolding.HeldFor(DecAt(s, n, slot), key, q)
  }

  /** Input j came too late for the block it belongs to. */
  ghost predicate CameTooLate(s: Scene, j: nat, slot: string)
    requires Genuine(s) && j < |s.inputs| && s.inputs[j].Came? && HasSlot(s, slot)
  {
    var key := KeyOf(Routing(s.c), s.inputs[j].path, s.inputs[j].f);
    exists i: nat :: Comes(s, j, slot, key, i) && DataOf(s, slot, key, i) && TooLate(s, j, slot, key, i)
  }

  /** An emitted data frame that is brought in is settled, still held, or came too late for its block. */
  lemma BroughtFate(s: Scene, j: nat, n: nat, slot: string, f: Frame)
    requires Genuine(s) && HasSlot(s, slot) && Carries(s, f) && Brings(s, j, slot, f) && j < n <= |s.inputs|
    ensures Settled(s, n, f.seqNo) || StillHeld(s, n, slot, f.seqNo) || CameTooLate(s, j, slot)
  {
    hide Settled;
    hide TooLate;
    hide Comes;
    hide DecAt;
    hide Run;
    hide HonestInput;
    BroughtIn(s, j, slot, f);
    hide Carries;
    hide Brings;
    if Admission.Aside(s.inputs[j].f) || !FecSizing.Enabled(s.start.decs[slot].params) {
      PassingFate(s, j, n, slot);
    } else {
      var i := WhichBlock(s, j, slot);
      var key := KeyOf(Routing(s.c), s.inputs[j].path, s.inputs[j].f);
      FrameFate(s, j, n, slot, key, i);
      ComesNumbered(s, j, slot, key, i);
    }
  }

  // ---------------------------------------------------------------------
  // Every pushed payload.

  /** The payloads are this session's. */
  ghost predicate OneSession(s: Scene) { forall id :: id in s.sent ==> id.0 == s.c.session }

  ghost predicate Released(h: Delivery.History, q: nat, payload: seq<Byte>) {
    exists i :: 0 <= i < |h.out| && h.out[i].t == q && h.out[i].f.payload == payload
  }

  ghost predicate Evicted(h: Delivery.History, q: nat, payload: seq<Byte>) {
    exists x :: x in h.evicted && x.t == q && x.f.payload == payload
  }

  /** With nothing waiting, what was taken in under a number was released or evicted, with the payload sent under it. */
  lemma TakenMeans(s: Scene, h: Delivery.History, q: U32)
    requires OneSession(s) && GoodHistory(s.sent, h) && Short(s.sent) && h.buffer.pending == map[]
    requires Delivery.TakenIn(h, q)
    ensures (s.c.session, q) in s.sent
    ensures var payload := s.sent[(s.c.session, q)]; Released(h, q, payload) || Evicted(h, q, payload)
  {
    var x :| x in h.taken && x.t == q;
    assert TrueItem(s.sent, x);
    assert Delivery.Stock(h.buffer.pending) == multiset{};
    assert (x.f.session, x.f.seqNo) in s.sent;
    if x in h.evicted {
      assert x in h.evicted && x.t == q && x.f.payload == s.sent[(s.c.session, q)];
    } else {
      assert x in multiset(h.out);
      var i :| 0 <= i < |h.out| && h.out[i] == x;
    }
  }

  /** Every emitted data frame that carries something is brought in before input n. */
  ghost predicate AllBrought(s: Scene, n: nat, slot: string, emitted: seq<Frame>) {
    forall m :: 0 <= m < |emitted| && Carries(s, emitted[m]) ==>
      exists j: nat :: j < n && Brings(s, j, slot, emitted[m])
  }

  /**
   Whenever a data frame comes, it or an earlier frame of its block found the block not closed, and no decoder tick
   has come the timeout or more after the frame that opened it.
   */
  ghost predicate AllWelcome(s: Scene, n: nat, slot: string)
    requires Genuine(s) && n <= |s.inputs| && HasSlot(s, slot)
  {
    forall j: nat, key, i: nat :: j < n && Comes(s, j, slot, key, i) && DataOf(s, slot, key, i) ==>
      InTime(s, j, slot, key) && !(Closed(DecAt(s, j, slot), key) && Shut(s, j, slot, key))
  }

  lemma WelcomeNotLate(s: Scene, j: nat, n: nat, slot: string)
    requires Genuine(s) && Punctual(s) && j < n <= |s.inputs| && s.inputs[j].Came? && HasSlot(s, slot)
    requires AllWelcome(s, n, slot)
    ensures !CameTooLate(s, j, slot)
  {
    hide Run;
    hide HonestInput;
    hide DecAt;
    hide Comes;
    hide InTime;
    hide Punctual;
    hide Shut;
    hide DataOf;
    hide TimedOut;
    if CameTooLate(s, j, slot) {
      var key := KeyOf(Routing(s.c), s.inputs[j].path, s.inputs[j].f);
      var i: nat :| Comes(s, j, slot, key, i) && DataOf(s, slot, key, i) && TooLate(s, j, slot, key, i);
      InTimeNotFlushed(s, j, slot, key, i);
    }
  }

  /** The payload was released, evicted by a full buffer, or its number given up by a delivery tick before it came. */
  ghost predicate Accounted(s: Scene, n: nat, f: Frame)
    requires Genuine(s) && n <= |s.inputs|
  {
    || Released(At(s, n).history, f.seqNo, f.payload) || Evicted(At(s, n).history, f.seqNo, f.payload)
    || GivenUp(s, n, f.seqNo)
  }

  lemma SettledAccounted(s: Scene, n: nat, f: Frame)
    requires Genuine(s) && n <= |s.inputs| && OneSession(s) && FecDecoderRuns.Truthful(s.sent, f)
    requires At(s, n).history.buffer.pending == map[] && Settled(s, n, f.seqNo)
    ensures Accounted(s, n, f)
  {
    hide Run;
    hide HonestInput;
    hide Released;
    hide Evicted;
    if Delivery.TakenIn(At(s, n).history, f.seqNo) {
      GoodAt(s, n);
      hide GoodHistory;
      TakenMeans(s, At(s, n).history, f.seqNo);
    }
  }

  /**
   Every pushed payload is accounted for: once the encoder of the slot has nothing waiting, every data frame it emitted
   has come, new and in the window, no block was closed before its first frame or flushed by a tick before one of its
   data frames came, and the decoder's table and the delivery buffer are empty, each pushed frame with a payload was
   released, evicted by a full buffer, or given up by a delivery tick before it came.
   */
  lemma EveryPushAccounted(s: Scene, sources: map<string, Source>, slot: string, n: nat, a: nat)
    requires FromSources(s, sources) && Punctual(s) && OneSession(s) && HasSlot(s, slot) && slot in sources
    requires n <= |s.inputs| && a < |Trace(s.lib, sources[slot]).pushed|
    requires Trace(s.lib, sources[slot]).enc.pending == [] && Trace(s.lib, sources[slot]).pushed[a].payload != []
    requires AllBrought(s, n, slot, Trace(s.lib, sources[slot]).emitted) && AllWelcome(s, n, slot)
    requires DecAt(s, n, slot).blocks == map[] && At(s, n).history.buffer.pending == map[]
    ensures Accounted(s, n, Trace(s.lib, sources[slot]).pushed[a])
  {
    hide Run;
    hide HonestInput;
    hide DecAt;
    hide FecEncoder.Run;
    hide ErasureContract;
    hide Punctual;
    hide AllWelcome;
    hide Accounted;
    hide Starts;
    hide TrueStreams;
    var t := Trace(s.lib, sources[slot]);
    var f := t.pushed[a];
    assert TrueSource(s.lib, s.c, s.sent, sources[slot]);
    assert f in t.pushed;
    var m := PushedIsEmitted(s.lib, sources[slot], s.c.session, a);
    assert Carries(s, t.emitted[m]);
    var j: nat :| j < n && Brings(s, j, slot, t.emitted[m]);
    BroughtFate(s, j, n, slot, t.emitted[m]);
    WelcomeNotLate(s, j, n, slot);
    SettledAccounted(s, n, f);
  }
}
