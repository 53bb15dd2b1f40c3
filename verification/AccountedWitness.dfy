/**
 A session that meets every hypothesis of the result about every pushed payload: one frame is pushed into an encoder of
 one data and one parity shard, its data frame comes, and the decoder's tick hands it on.
 */
module AccountedWitness {
  import opened Bytes
  import opened Erasure
  import opened Frames
  import opened FecDecoder
  import opened Pipeline
  import opened Progress
  import opened Timeliness
  import opened Completeness
  import Admission
  import Delivery
  import DeliveryObject
  import FecEncoder
  import FecEncoderLaws
  import FecDecoderRuns
  import FecSizing
  import ReplayWindow
  import Sender

  const SESSION: U64 := 7
  const SHAPE := FecSizing.Params(1, 1, 8, None, false, 0)
  const CONFIG := Pipeline.Config(SESSION, false, 16, 100)

  function Given(): Frame { Frame(0, 0, SESSION, 1, 0, [42]) }

  function Coded(): Frame { Given().(blockSeq := 1) }

  function Key(): BlockKey { BlockKey(SESSION, "a", 1) }

  // ---------------------------------------------------------------------
  // The encoder.

  function Encoder(): FecEncoder.Enc { FecEncoder.Enc(SHAPE, Some(Code(1, 1)), 0, [], 0, 0.0, true, 0, 1, 0) }

  ghost function OneSource(): Source { Source(Encoder(), [FecEncoder.Pushed(Given(), 0)]) }

  lemma EncoderIsFresh()
    ensures FecEncoder.Fresh(XorLibrary(), SHAPE) == Some(Encoder()) && FecEncoder.Invariant(XorLibrary(), Encoder())
  {}

  lemma SourceEmits()
    ensures Begins(XorLibrary(), OneSource())
    ensures var t := Trace(XorLibrary(), OneSource());
            && t.pushed == [Given()] && t.enc.pending == [] && |t.blocks| <= 1
            && |t.emitted| == 2 && t.emitted[0] == Coded() && IsParity(t.emitted[1])
  {
    EncoderIsFresh();
    var lib, s := XorLibrary(), OneSource();
    assert s.evs[..0] == [] && s.evs[..1] == s.evs;
    hide FecEncoder.Push;
    hide FecEncoder.Sealing;
    var t, u := FecEncoderLaws.At(lib, s.start, s.evs, 0), FecEncoderLaws.At(lib, s.start, s.evs, 1);
    FecEncoderLaws.AlwaysCodes(lib, s.start, s.evs, 1);
    FecEncoderLaws.PushEmits(lib, s.start, s.evs, 0);
    var out :| FecEncoderLaws.Emits(t, u, out) && FecEncoderLaws.PushDoes(t.enc, Given(), u.enc, out);
    FecEncoderLaws.FixedCode(lib, s.start, s.evs, 1);
    assert t.enc.pending + [Given()] == [Given()] && [Given()][0].payload == [42];
    assert out[..1][0] == out[0] && out[1..][0] == out[1];
  }

  // ---------------------------------------------------------------------
  // The decoder.

  function Waiting(): Held { EMPTY.(deadline := Some(8), data := map[1 := [42]]) }

  lemma FrameWaits(lib: Library, d: Dec)
    requires d == FecDecoder.Fresh(SHAPE)
    ensures var o := Push(lib, d, "a", Coded(), 0);
            o.out == [] && o.dec.blocks == map[Key() := Waiting()] && o.dec.params == SHAPE
  {
    assert KeyOf(d.params, "a", Coded()) == Key();
  }

  lemma NotAscending(s: seq<U32>)
    ensures |s| >= 2 && (forall i :: 0 <= i < |s| ==> s[i] == 1) ==> !Ascending(s)
  {
    if |s| >= 2 && (forall i :: 0 <= i < |s| ==> s[i] == 1) { assert s[0] == s[1]; }
  }

  lemma OneNumber(s: seq<U32>)
    requires Lists(s, {1})
    ensures s == [1]
  {
    assert forall i :: 0 <= i < |s| ==> s[i] in s;
    NotAscending(s);
    assert 1 in s;
  }

  lemma TickHandsOn(d: Dec)
    requires d.blocks == map[Key() := Waiting()] && d.params == SHAPE
    ensures VisitsOverdue(d, 8, [Key()])
    ensures var o := Tick(d, 8, [Key()]); o.dec.blocks == map[] && o.out == [Delivered(SESSION, 1, [42])]
  {
    var seqs := Sorted(Waiting().data.Keys);
    OneNumber(seqs);
    assert Listed(SESSION, seqs, Waiting().data, 0) == [];
    assert FlushOut(Key(), Waiting()) == [Delivered(SESSION, 1, [42])];
    hide FlushOut;
    assert [Key()][..0] == [];
  }

  // ---------------------------------------------------------------------
  // The session.

  ghost function Sources(): map<string, Source> { map["a" := OneSource()] }

  function SentOut(): FecDecoderRuns.Sent { map[(SESSION, 1) := [42]] }

  function Start(): Pipe {
    Pipe(ReplayWindow.Fresh(64), map["a" := FecDecoder.Fresh(SHAPE)],
         Delivery.History(Delivery.FRESH, [], multiset{}, multiset{}, 0))
  }

  function Inputs(): seq<Input> { [Came("a", Coded(), 0), DecoderTicked("a", 8, [Key()])] }

  lemma SourcesTrue()
    ensures TrueSources(XorLibrary(), CONFIG, SentOut(), Sources())
  {
    SourceEmits();
  }

  ghost function Session(): Scene
    requires TrueSources(XorLibrary(), CONFIG, SentOut(), Sources())
  {
    Scene(XorLibrary(), CONFIG, SentOut(), StreamsFrom(XorLibrary(), CONFIG, SentOut(), Sources()), Start(), Inputs(),
          64)
  }

  lemma FrameEmitted()
    requires TrueSources(XorLibrary(), CONFIG, SentOut(), Sources())
    ensures forall i :: 0 <= i < |Inputs()| ==> Emitted(XorLibrary(), CONFIG, Sources(), Inputs()[i])
  {
    SourceEmits();
    hide FecEncoder.Run;
    var t := Trace(XorLibrary(), OneSource());
    assert t.emitted[0] in t.emitted && Coded() == Sender.OnWire(t.emitted[0], 0, 0);
  }

  lemma StartsThere(streams: map<string, Stream>)
    requires "a" in streams
    ensures Starts(CONFIG, streams, Start()) && AllSound(Start().decs) && Numbers(SentOut())
  {}

  lemma Together(s: Scene, sources: map<string, Source>)
    requires ErasureContract(s.lib) && TrueSources(s.lib, s.c, s.sent, sources)
    requires s.streams == StreamsFrom(s.lib, s.c, s.sent, sources)
    requires Starts(s.c, s.streams, s.start) && AllSound(s.start.decs) && Numbers(s.sent)
    requires s.size > 0 && s.start.filter == ReplayWindow.Fresh(s.size)
    requires forall i :: 0 <= i < |s.inputs| ==> Emitted(s.lib, s.c, sources, s.inputs[i])
    ensures FromSources(s, sources)
  {
    hide ErasureContract;
    hide TrueSources;
    hide Emitted;
    hide HonestInput;
    hide TrueStreams;
    hide Starts;
    SourcesHonest(s.lib, s.c, s.sent, sources, s.inputs);
  }

  lemma SlotThere()
    requires TrueSources(XorLibrary(), CONFIG, SentOut(), Sources())
    ensures "a" in StreamsFrom(XorLibrary(), CONFIG, SentOut(), Sources())
  {}

  lemma SessionGenuine()
    ensures TrueSources(XorLibrary(), CONFIG, SentOut(), Sources()) && FromSources(Session(), Sources())
  {
    hide ErasureContract;
    hide XorLibrary;
    hide TrueSources;
    hide Emitted;
    hide Starts;
    hide StreamsFrom;
    hide FromSources;
    hide Numbers;
    hide AllSound;
    hide Sources;
    hide Inputs;
    hide SentOut;
    SourcesTrue();
    XorMeetsContract();
    FrameEmitted();
    SlotThere();
    StartsThere(StreamsFrom(XorLibrary(), CONFIG, SentOut(), Sources()));
    Together(Session(), Sources());
  }

  // ---------------------------------------------------------------------
  // Its run.

  lemma FrameAdmitted()
    ensures Admission.Admitted(CONFIG, Start(), Inputs(), 0, 64)
  {}

  lemma AfterFrame(lib: Library)
    requires AllSound(Start().decs)
    ensures var p := Run(lib, CONFIG, Start(), Inputs(), 1);
            && "a" in p.decs && p.decs["a"].blocks == map[Key() := Waiting()] && p.decs["a"].params == SHAPE
            && p.history == Start().history
  {
    hide Push;
    hide Run;
    FrameAdmitted();
    Admission.AdmittedDecoded(lib, CONFIG, Start(), Inputs(), 0, 64);
    assert Run(lib, CONFIG, Start(), Inputs(), 0) == Start() by { NoneYet(lib); }
    FrameWaits(lib, FecDecoder.Fresh(SHAPE));
  }

  lemma NoneYet(lib: Library)
    requires AllSound(Start().decs)
    ensures Run(lib, CONFIG, Start(), Inputs(), 0) == Start()
  {}

  lemma Arrives(h: Delivery.History)
    requires h == Start().history
    ensures Offer(CONFIG, h, [Delivered(SESSION, 1, [42])], 1, 8).buffer.pending == map[]
  {
    var f := Delivered(SESSION, 1, [42]);
    Admission.OneOffered(CONFIG, h, f, 8);
    DeliveryObject.ReadTrulyIff(1, 1);
    hide DeliveryObject.Nearest;
    assert Delivery.Drain(h.buffer.(next := 2)).buffer.pending == map[];
  }

  lemma AfterTick(lib: Library)
    requires AllSound(Start().decs)
    ensures var p := Run(lib, CONFIG, Start(), Inputs(), 2);
            "a" in p.decs && p.decs["a"].blocks == map[] && p.history.buffer.pending == map[]
    ensures VisitsDue(Run(lib, CONFIG, Start(), Inputs(), 1), Inputs()[1])
  {
    hide Tick;
    hide Push;
    hide Offer;
    hide VisitsOverdue;
    AfterFrame(lib);
    var p := Run(lib, CONFIG, Start(), Inputs(), 1);
    TickHandsOn(p.decs["a"]);
    Arrives(p.history);
    TwoSteps(lib);
  }

  lemma TwoSteps(lib: Library)
    requires AllSound(Start().decs)
    ensures Run(lib, CONFIG, Start(), Inputs(), 2)
         == Step(lib, CONFIG, Run(lib, CONFIG, Start(), Inputs(), 1), Inputs()[1])
  {}

  // ---------------------------------------------------------------------
  // The hypotheses.

  lemma TicksOnTime()
    requires TrueSources(XorLibrary(), CONFIG, SentOut(), Sources()) && AllSound(Start().decs)
    ensures Punctual(Session())
  {
    hide Run;
    var lib := XorLibrary();
    AfterTick(lib);
    forall m: nat | m < 2 ensures VisitsDue(Run(lib, CONFIG, Start(), Inputs(), m), Inputs()[m]) {
      if m == 0 { assert Inputs()[0].Came?; }
    }
  }

  lemma FrameBrought()
    requires TrueSources(XorLibrary(), CONFIG, SentOut(), Sources()) && Begins(XorLibrary(), OneSource())
    ensures AllBrought(Session(), 2, "a", Trace(XorLibrary(), OneSource()).emitted)
  {
    hide FecEncoder.Run;
    SourceEmits();
    var s, emitted := Session(), Trace(XorLibrary(), OneSource()).emitted;
    assert Coded() == Sender.OnWire(emitted[0], 0, 0);
    assert Leaves(emitted[0], s.inputs[0].f);
    assert Brings(s, 0, "a", emitted[0]);
  }

  /** The decoder has nothing yet, and no tick has come, when the frame does. */
  lemma WelcomeAt(s: Scene, j: nat, key: BlockKey, i: nat)
    requires TrueSources(XorLibrary(), CONFIG, SentOut(), Sources()) && s == Session() && Genuine(s)
    requires HasSlot(s, "a") && j < 2 && Comes(s, j, "a", key, i) && Progress.DataOf(s, "a", key, i)
    ensures InTime(s, j, "a", key) && !Closed(DecAt(s, j, "a"), key)
  {
    assert j == 0;
    KeyPositive(s, key, i);
    FirstDec(s, "a");
    hide Genuine;
    hide Comes;
    hide Progress.DataOf;
    hide DecAt;
    NothingBefore(s, key);
  }

  lemma FrameWelcome(s: Scene)
    requires TrueSources(XorLibrary(), CONFIG, SentOut(), Sources()) && s == Session() && Genuine(s)
    requires HasSlot(s, "a") && |s.inputs| == 2
    ensures AllWelcome(s, 2, "a")
  {
    hide Genuine;
    hide InTime;
    hide Shut;
    hide Comes;
    hide Progress.DataOf;
    hide DecAt;
    hide Closed;
    hide Session;
    hide TrueSources;
    forall j: nat, key, i: nat | j < 2 && Comes(s, j, "a", key, i) && Progress.DataOf(s, "a", key, i)
      ensures InTime(s, j, "a", key) && !(Closed(DecAt(s, j, "a"), key) && Shut(s, j, "a", key))
    {
      WelcomeAt(s, j, key, i);
    }
  }

  lemma NothingBefore(s: Scene, key: BlockKey)
    requires Genuine(s) && HasSlot(s, "a")
    ensures InTime(s, 0, "a", key)
  {}

  lemma KeyPositive(s: Scene, key: BlockKey, i: nat)
    requires TrueSources(XorLibrary(), CONFIG, SentOut(), Sources()) && s == Session()
    requires Progress.DataOf(s, "a", key, i)
    ensures key.id > 0
  {}

  /** The hypotheses of EveryPushAccounted. */
  ghost predicate Hypotheses(s: Scene, sources: map<string, Source>, slot: string, n: nat, a: nat) {
    && FromSources(s, sources) && Punctual(s) && OneSession(s) && HasSlot(s, slot) && slot in sources
    && n <= |s.inputs| && a < |Trace(s.lib, sources[slot]).pushed|
    && Trace(s.lib, sources[slot]).enc.pending == [] && Trace(s.lib, sources[slot]).pushed[a].payload != []
    && AllBrought(s, n, slot, Trace(s.lib, sources[slot]).emitted) && AllWelcome(s, n, slot)
    && DecAt(s, n, slot).blocks == map[] && At(s, n).history.buffer.pending == map[]
  }

  lemma EndsEmpty(s: Scene)
    requires TrueSources(XorLibrary(), CONFIG, SentOut(), Sources()) && s == Session() && Genuine(s) && HasSlot(s, "a")
    ensures DecAt(s, 2, "a").blocks == map[] && At(s, 2).history.buffer.pending == map[]
  {
    hide Run;
    AfterTick(s.lib);
  }

  lemma SlotHeld(s: Scene)
    requires TrueSources(XorLibrary(), CONFIG, SentOut(), Sources()) && s == Session()
    ensures HasSlot(s, "a") && |s.inputs| == 2 && s.lib == XorLibrary() && s.start == Start() && s.c == CONFIG
    ensures s.sent == SentOut() && s.inputs == Inputs()
  {
    hide StreamsFrom;
    hide TrueSources;
    hide XorLibrary;
    hide Sources;
    hide SentOut;
    hide FecDecoder.Fresh;
    SlotThere();
  }

  lemma Sizes()
    ensures AllSound(Start().decs) && Sources() == map["a" := OneSource()]
  {}

  lemma OnlySession(s: Scene)
    requires s.sent == SentOut() && s.c == CONFIG
    ensures OneSession(s)
  {}

  /** This session meets all hypotheses, so they can be met; its payload is accounted for. */
  lemma HypothesesMet()
    ensures TrueSources(XorLibrary(), CONFIG, SentOut(), Sources())
    ensures Hypotheses(Session(), Sources(), "a", 2, 0) && Accounted(Session(), 2, Given())
  {
    hide ErasureContract;
    hide XorLibrary;
    hide TrueSources;
    hide Genuine;
    hide AllBrought;
    hide AllWelcome;
    hide Punctual;
    hide OneSession;
    hide HasSlot;
    hide DecAt;
    hide Run;
    hide FecEncoder.Run;
    hide Accounted;
    hide Session;
    hide Sources;
    hide OneSource;
    hide StreamsFrom;
    SessionGenuine();
    var s := Session();
    SlotHeld(s);
    Sizes();
    OnlySession(s);
    SourceEmits();
    TicksOnTime();
    FrameBrought();
    EndsEmpty(s);
    FrameWelcome(s);
    EveryPushAccounted(s, Sources(), "a", 2, 0);
  }
}
