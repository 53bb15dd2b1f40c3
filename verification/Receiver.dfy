/**
 The client's receive path as it runs: the replay window, the decoders and the 32-bit delivery buffer as objects, called
 one after the other. Every call is one step of the receive path on values, so what holds for its runs holds here.
 */
module Receiver {
  import opened Bytes
  import opened Erasure
  import opened Frames
  import FecSizing
  import opened FecDecoder
  import opened Delivery
  import opened DeliveryObject
  import opened Pipeline
  import FecDecoderObject
  import FecDecoderRuns
  import ReplayWindow
  import Completeness
  import Progress
  import Timeliness

  // ---------------------------------------------------------------------
  // Pushing frames into the buffer object is offering them one by one.

  lemma NoOuts()
    ensures Outs([]) == []
  {}

  lemma OutsPrefix(steps: seq<Release>, n: nat)
    requires n < |steps|
    ensures Outs(steps[..n + 1]) == Outs(steps[..n]) + steps[n].out
  {
    var longer := steps[..n + 1];
    assert longer[..|longer| - 1] == steps[..n];
  }

  lemma {:induction false} OfferIsPush(c: Config, h: History, frames: seq<Frame>, now: int, steps: seq<Release>, n: nat)
    requires Pushes(h.buffer, frames, now, c.maxPending, steps) && n <= |steps|
    ensures var g := Offer(c, h, frames, n, now);
            g.buffer == DeliveryObject.After(h.buffer, steps[..n]) && g.out == h.out + Outs(steps[..n])
  {
    hide Delivery.Arrive;
    hide Evicts;
    hide Phantom;
    hide Takes;
    hide ReadAt;
    hide Outs;
    if n == 0 {
      NoOuts();
      assert h.out + [] == h.out;
    } else {
      OfferIsPush(c, h, frames, now, steps, n - 1);
      OutsPrefix(steps, n - 1);
      assert PushStep(h.buffer, frames, now, c.maxPending, steps, n - 1);
      var g := Offer(c, h, frames, n - 1, now);
      assert steps[n - 1] == Delivery.Arrive(g.buffer, ReadAt(g.buffer, frames[n - 1]), now, c.maxPending);
      Longer(h.out, Outs(steps[..n - 1]), steps[n - 1].out);
      assert DeliveryObject.After(h.buffer, steps[..n]) == steps[n - 1].buffer;
    }
  }

  lemma Longer(a: seq<Item>, b: seq<Item>, c: seq<Item>)
    ensures (a + b) + c == a + (b + c)
  {}

  // ---------------------------------------------------------------------
  // A frame numbered 0 is never sent, so a tick never takes one for nothing.

  ghost predicate NoZero(sent: FecDecoderRuns.Sent) { forall id :: id in sent ==> id.1 != 0 }

  lemma NeverStuck(sent: FecDecoderRuns.Sent, h: History, now: int, timeout: int)
    requires GoodHistory(sent, h) && NoZero(sent)
    ensures !Stuck(h.buffer, now, timeout)
  {
    if h.buffer.pending != map[] {
      var t := Lowest(h.buffer.pending.Keys);
      WaitingIsTrue(sent, h, t);
    }
  }

  lemma WaitingIsTrue(sent: FecDecoderRuns.Sent, h: History, t: nat)
    requires Balanced(h) && AllTrue(sent, h.taken) && NoZero(sent) && t in h.buffer.pending
    ensures Wire(t) != 0
  {
    WaitingWasTaken(h, t);
    assert TrueItem(sent, Item(t, h.buffer.pending[t]));
  }

  // ---------------------------------------------------------------------
  // The object.

  /** A call into the receive path: a frame on a WAN, or one of the ticks. */
  datatype Call = Arrives(path: string, f: Frame, now: int) | TicksDecoder(slot: string, now: int)
    | TicksDelivery(now: int)

  /** The step a call was; a decoder's tick visits its overdue blocks in whatever order the table yields them. */
  ghost predicate Means(call: Call, input: Input) {
    match call
    case Arrives(path, f, now) => input == Came(path, f, now)
    case TicksDecoder(slot, now) => input.DecoderTicked? && input.slot == slot && input.now == now
    case TicksDelivery(now) => input == DeliveryTicked(now)
  }

  ghost predicate MeansAll(calls: seq<Call>, inputs: seq<Input>) {
    |inputs| <= |calls| && forall i :: 0 <= i < |inputs| ==> Means(calls[i], inputs[i])
  }

  /** The decoders by slot, all different objects of the set. */
  ghost predicate Apart(decs: map<string, FecDecoderObject.Decoder>, all: set<FecDecoderObject.Decoder>) {
    && (forall slot :: slot in decs ==> decs[slot] in all)
    && (forall a, b :: a in decs && b in decs && a != b ==> decs[a] != decs[b])
  }

  ghost predicate Ready(lib: Library, dec: FecDecoderObject.Decoder)
    reads dec
  {
    dec.Valid() && dec.lib == lib
  }

  ghost predicate AllReady(lib: Library, decs: map<string, FecDecoderObject.Decoder>,
                           all: set<FecDecoderObject.Decoder>)
    reads all
  {
    Apart(decs, all) && forall slot :: slot in decs ==> Ready(lib, decs[slot])
  }

  ghost function States(decs: map<string, FecDecoderObject.Decoder>,
                        all: set<FecDecoderObject.Decoder>): map<string, Dec>
    reads all
    requires Apart(decs, all)
  {
    map slot | slot in decs :: decs[slot].Abs()
  }

  ghost predicate IsFresh(dec: FecDecoderObject.Decoder, p: FecSizing.Params)
    reads dec
  {
    dec.Abs() == FecDecoder.Fresh(p)
  }

  /** One fresh decoder for every slot. */
  method MakeDecoders(lib: Library, params: map<string, FecSizing.Params>)
    returns (decs: map<string, FecDecoderObject.Decoder>, ghost all: set<FecDecoderObject.Decoder>)
    ensures fresh(all) && AllReady(lib, decs, all)
    ensures States(decs, all) == map slot | slot in params :: FecDecoder.Fresh(params[slot])
  {
    hide Sound;
    hide FecDecoder.Fresh;
    hide FecDecoderObject.Decoder.Valid;
    hide FecDecoderObject.Decoder.Abs;
    hide States;
    hide Apart;
    decs, all := map[], {};
    assert Apart(decs, all) by { NoneApart(); }
    var todo := params.Keys;
    while todo != {}
      invariant todo <= params.Keys && decs.Keys == params.Keys - todo && fresh(all) && AllReady(lib, decs, all)
      invariant forall slot :: slot in decs ==> IsFresh(decs[slot], params[slot])
      decreases |todo|
    {
      var slot :| slot in todo;
      var dec := new FecDecoderObject.Decoder(lib, params[slot]);
      OneMoreApart(decs, all, slot, dec);
      decs, all := decs[slot := dec], all + {dec};
      todo := todo - {slot};
    }
    FreshStates(decs, all, params);
  }

  lemma NoneApart()
    ensures Apart(map[], {})
  {}

  lemma OneMoreApart(decs: map<string, FecDecoderObject.Decoder>, all: set<FecDecoderObject.Decoder>, slot: string,
                     dec: FecDecoderObject.Decoder)
    requires Apart(decs, all) && dec !in all
    ensures Apart(decs[slot := dec], all + {dec})
  {}

  lemma FreshStates(decs: map<string, FecDecoderObject.Decoder>, all: set<FecDecoderObject.Decoder>,
                    params: map<string, FecSizing.Params>)
    requires Apart(decs, all) && decs.Keys == params.Keys && forall slot :: slot in decs ==>
               IsFresh(decs[slot], params[slot])
    ensures States(decs, all) == map slot | slot in params :: FecDecoder.Fresh(params[slot])
  {
    hide FecDecoder.Fresh;
    forall slot | slot in decs ensures States(decs, all)[slot] == FecDecoder.Fresh(params[slot]) {
      assert IsFresh(decs[slot], params[slot]);
    }
  }

  /** The configuration of a receive path, with the buffer's defaults filled in. */
  function ConfigFor(session: U64, crossPath: bool, gapTimeout: int, maxPending: int): Config {
    Config(session, crossPath, if maxPending > 0 then maxPending else 4096,
           if gapTimeout > 0 then gapTimeout else 100_000_000)
  }

  /** The width of the replay window for a configured size. */
  function WindowFor(size: U32): nat { if size == 0 then ReplayWindow.DEFAULT_WINDOW else size }

  class Client {
    const lib: Library
    const c: Config
    const window: ReplayWindow.Window
    const decs: map<string, FecDecoderObject.Decoder>
    const delivery: DeliveryBuffer
    ghost const all: set<FecDecoderObject.Decoder>
    ghost var history: History

    ghost predicate Valid()
      reads this, window, window.bits, delivery, all
    {
      window.Valid() && Waits() && AllReady(lib, decs, all)
    }

    /** The buffer object is the history's buffer. */
    ghost predicate Waits()
      reads this, delivery
    {
      && delivery.Valid() && delivery.Abs() == history.buffer
      && delivery.maxPending == c.maxPending && delivery.gapTimeout == c.gapTimeout
    }

    ghost function Abs(): Pipe
      reads this, window, window.bits, all
      requires window.Valid() && Apart(decs, all)
    {
      Pipe(window.Abs(), States(decs, all), history)
    }

    constructor (lib: Library, session: U64, crossPath: bool, size: U32, params: map<string, FecSizing.Params>,
                 gapTimeout: int, maxPending: int)
      ensures Valid() && this.lib == lib && c == ConfigFor(session, crossPath, gapTimeout, maxPending)
      ensures fresh(window) && fresh(window.bits) && fresh(delivery) && fresh(all)
      ensures history == History(FRESH, [], multiset{}, multiset{}, 0)
      ensures Abs().filter == ReplayWindow.Fresh(WindowFor(size))
      ensures Abs().decs == map slot | slot in params :: FecDecoder.Fresh(params[slot])
    {
      hide Sound;
      hide FecDecoder.Fresh;
      hide AllReady;
      hide States;
      hide DeliveryBuffer.Valid;
      hide ReplayWindow.Window.Valid;
      this.lib := lib;
      window := new ReplayWindow.Window(size);
      ghost var objects;
      var made;
      made, objects := MakeDecoders(lib, params);
      var buffer := new DeliveryBuffer(gapTimeout, maxPending);
      decs, all, delivery := made, objects, buffer;
      c := Config(session, crossPath, buffer.maxPending, buffer.gapTimeout);
      history := History(FRESH, [], multiset{}, multiset{}, 0);
    }

    /** Hands decoded frames to the delivery buffer. */
    method Deliver(frames: seq<Frame>, now: int) returns (out: seq<Frame>)
      requires Waits()
      modifies this`history, delivery
      ensures Waits() && history == Offer(c, old(history), frames, |frames|, now)
      ensures FramesOf(history.out) == FramesOf(old(history.out)) + out
    {
      hide Offer;
      hide Outs;
      ghost var steps;
      out, steps := delivery.Push(frames, now);
      OfferIsPush(c, history, frames, now, steps, |frames|);
      assert steps[..|frames|] == steps;
      Appended(history.out, Outs(steps), out);
      history := Offer(c, history, frames, |frames|, now);
    }

    /** A frame off the wire of one WAN: session, replay window, decoder, delivery buffer. */
    method Receive(path: string, f: Frame, now: int) returns (out: seq<Frame>)
      requires Valid()
      modifies this`history, window, window.bits, delivery, all
      ensures Valid() && AllSound(old(Abs()).decs)
      ensures Abs() == Pipeline.Receive(lib, c, old(Abs()), path, f, now)
      ensures FramesOf(history.out) == FramesOf(old(history.out)) + out
    {
      hide FecDecoder.Push;
      hide Offer;
      hide ReplayWindow.Check;
      hide AllReady;
      hide States;
      hide Sound;
      hide FecDecoderObject.Decoder.Valid;
      hide DeliveryBuffer.Valid;
      hide ReplayWindow.Window.Valid;
      hide ReplayWindow.Window.Abs;
      Sounds();
      out := [];
      if f.session != c.session || f.flags / 32 % 2 == 1 { return; }
      var isNew := window.CheckAndMark(f.seqNo);
      var slot := SlotOf(c, path);
      if !isNew || !Inner(f) || slot !in decs { return; }
      var frames := Decode(slot, path, f, now);
      out := Deliver(frames, now);
    }

    method TickDecoder(slot: string, now: int) returns (out: seq<Frame>, ghost order: seq<BlockKey>)
      requires Valid()
      modifies this`history, delivery, all
      ensures Valid() && AllSound(old(Abs()).decs)
      ensures Abs() == Pipeline.Step(lib, c, old(Abs()), DecoderTicked(slot, now, order))
      ensures VisitsDue(old(Abs()), DecoderTicked(slot, now, order))
      ensures FramesOf(history.out) == FramesOf(old(history.out)) + out
    {
      hide FecDecoder.Tick;
      hide Offer;
      hide AllReady;
      hide States;
      hide Sound;
      hide FecDecoderObject.Decoder.Valid;
      hide DeliveryBuffer.Valid;
      hide ReplayWindow.Window.Valid;
      hide ReplayWindow.Window.Abs;
      Sounds();
      out, order := [], [];
      if slot !in decs { return; }
      var frames;
      frames, order := Expire(slot, now);
      out := Deliver(frames, now);
    }

    /** Skips a stale gap; a frame numbered 0 that waits would be overlooked. */
    method TickDelivery(now: int) returns (out: seq<Frame>)
      requires Valid() && !Stuck(history.buffer, now, c.gapTimeout)
      modifies this`history, delivery
      ensures Valid() && AllSound(Abs().decs)
      ensures Abs() == Pipeline.Step(lib, c, old(Abs()), DeliveryTicked(now))
      ensures FramesOf(history.out) == FramesOf(old(history.out)) + out
    {
      hide Delivery.Tick;
      hide AllReady;
      hide States;
      hide Sound;
      hide FecDecoderObject.Decoder.Valid;
      hide ReplayWindow.Window.Valid;
      hide ReplayWindow.Window.Abs;
      Sounds();
      ghost var items;
      out, items := delivery.Tick(now);
      Appended(history.out, items, out);
      history := Delivery.Step(history, Ticked(now), c.maxPending, c.gapTimeout);
    }

    /** One call, whatever it is: a step of the receive path, and everything stays good. */
    method Take(call: Call, ghost sent: FecDecoderRuns.Sent, ghost streams: map<string, Stream>)
      returns (out: seq<Frame>, ghost input: Input)
      requires Valid() && ErasureContract(lib) && TrueStreams(lib, sent, streams) && NoZero(sent)
      requires HonestCall(lib, c, sent, streams, call)
      requires Good(lib, c, sent, streams, Abs())
      modifies this`history, window, window.bits, delivery, all
      ensures Valid() && Means(call, input) && AllSound(old(Abs()).decs)
      ensures Good(lib, c, sent, streams, Abs()) && Abs() == Pipeline.Step(lib, c, old(Abs()), input)
      ensures VisitsDue(old(Abs()), input)
      ensures FramesOf(history.out) == FramesOf(old(history.out)) + out
    {
      hide Pipeline.Step;
      hide Good;
      hide ErasureContract;
      hide TrueStreams;
      hide NoZero;
      hide AllReady;
      hide States;
      hide Sound;
      hide DeliveryBuffer.Valid;
      hide ReplayWindow.Window.Valid;
      hide ReplayWindow.Window.Abs;
      Sounds();
      ghost var p := Abs();
      match call
      case Arrives(path, f, now) =>
        input := Came(path, f, now);
        StepGood(lib, c, sent, streams, p, input);
        out := Receive(path, f, now);
        IsStep(lib, c, p, path, f, now);
      case TicksDecoder(slot, now) =>
        ghost var order;
        out, order := TickDecoder(slot, now);
        input := DecoderTicked(slot, now, order);
        StepGood(lib, c, sent, streams, p, input);
      case TicksDelivery(now) =>
        input := DeliveryTicked(now);
        StepGood(lib, c, sent, streams, p, input);
        GoodIsNotStuck(lib, c, sent, streams, p, now);
        out := TickDelivery(now);
    }

    /**
     The client's receive path, from its start: whatever the WANs do to the frames of an honest peer, what is written to
     the inner peer rises strictly in number and carries under each number the payload sent under it.
     */
    method Serve(calls: seq<Call>, ghost sent: FecDecoderRuns.Sent, ghost streams: map<string, Stream>)
      returns (out: seq<Frame>, ghost inputs: seq<Input>)
      requires Valid() && ErasureContract(lib) && TrueStreams(lib, sent, streams) && NoZero(sent)
      requires Starts(c, streams, Abs()) && forall i :: 0 <= i < |calls| ==> HonestCall(lib, c, sent, streams, calls[i])
      modifies this`history, window, window.bits, delivery, all
      ensures Valid() && |inputs| == |calls| && MeansAll(calls, inputs) && AllSound(old(Abs()).decs)
      ensures Abs() == Pipeline.Run(lib, c, old(Abs()), inputs, |inputs|)
      ensures OnTime(lib, c, old(Abs()), inputs, |inputs|)
      ensures out == FramesOf(history.out) && DeliveredTruly(sent, history.out)
      ensures NearRun(lib, c, old(Abs()), inputs, |inputs|) ==> NumberedOut(history.out)
    {
      hide Pipeline.Step;
      hide Good;
      hide ErasureContract;
      hide TrueStreams;
      hide NoZero;
      hide AllReady;
      hide States;
      hide Sound;
      hide DeliveryBuffer.Valid;
      hide ReplayWindow.Window.Valid;
      hide ReplayWindow.Window.Abs;
      hide HonestCall;
      hide Means;
      hide DeliveredTruly;
      hide NearRun;
      hide NumberedOut;
      Sounds();
      ghost var p := Abs();
      StartGood(lib, c, sent, streams, p);
      OnTimeFirst(lib, c, p);
      hide OnTime;
      hide Pipeline.Run;
      out, inputs := [], [];
      for i := 0 to |calls|
        invariant Valid() && |inputs| == i && MeansAll(calls, inputs)
        invariant Good(lib, c, sent, streams, Abs()) && Abs() == Pipeline.Run(lib, c, p, inputs, i)
        invariant OnTime(lib, c, p, inputs, i) && out == FramesOf(history.out)
      {
        ghost var input;
        var more;
        more, input := Take(calls[i], sent, streams);
        RunMore(lib, c, p, inputs, input);
        OnTimeMore(lib, c, p, inputs, input);
        out, inputs := out + more, inputs + [input];
      }
      GoodReleases(lib, c, sent, streams, Abs());
      if NearRun(lib, c, p, inputs, |inputs|) { RunNumbersOut(lib, c, sent, streams, p, inputs, |inputs|); }
    }

    lemma Sounds()
      requires AllReady(lib, decs, all)
      ensures Apart(decs, all) && AllSound(States(decs, all)) && States(decs, all).Keys == decs.Keys
      ensures forall slot :: slot in decs ==> decs[slot] in all && States(decs, all)[slot] == decs[slot].Abs()
    {
      hide Sound;
      assert forall slot :: slot in decs ==> Ready(lib, decs[slot]);
    }

    method Expire(slot: string, now: int) returns (frames: seq<Frame>, ghost order: seq<BlockKey>)
      requires AllReady(lib, decs, all) && slot in decs
      modifies decs[slot]
      ensures AllReady(lib, decs, all)
      ensures var o := FecDecoder.Tick(old(decs[slot].Abs()), now, order);
              frames == o.out && States(decs, all) == old(States(decs, all))[slot := o.dec]
      ensures FecSizing.Enabled(old(decs[slot].Abs()).params) ==> VisitsOverdue(old(decs[slot].Abs()), now, order)
    {
      hide FecDecoder.Tick;
      hide VisitsOverdue;
      hide Sound;
      assert Ready(lib, decs[slot]);
      frames, order := decs[slot].Tick(now);
    }

    /** One decoder takes a frame in; the others stay as they are. */
    method Decode(slot: string, path: string, f: Frame, now: int) returns (frames: seq<Frame>)
      requires AllReady(lib, decs, all) && slot in decs
      modifies decs[slot]
      ensures AllReady(lib, decs, all) && Sound(old(decs[slot].Abs()))
      ensures var o := FecDecoder.Push(lib, old(decs[slot].Abs()), path, f, now);
              frames == o.out && States(decs, all) == old(States(decs, all))[slot := o.dec]
    {
      hide FecDecoder.Push;
      hide Sound;
      assert Ready(lib, decs[slot]);
      frames := decs[slot].Push(path, f, now);
    }
  }

  /** The frames that calls bring were emitted by the encoders of the slots. */
  ghost predicate EmittedCall(lib: Library, c: Config, sources: map<string, Source>, call: Call)
    requires forall slot :: slot in sources ==> Begins(lib, sources[slot])
  {
    call.Arrives? ==> Emitted(lib, c, sources, Came(call.path, call.f, call.now))
  }

  lemma CallsHonest(lib: Library, c: Config, sent: FecDecoderRuns.Sent, sources: map<string, Source>, calls: seq<Call>)
    requires ErasureContract(lib) && TrueSources(lib, c, sent, sources)
    requires forall i :: 0 <= i < |calls| ==> EmittedCall(lib, c, sources, calls[i])
    ensures var streams := StreamsFrom(lib, c, sent, sources);
            && TrueStreams(lib, sent, streams)
            && forall i :: 0 <= i < |calls| ==> HonestCall(lib, c, sent, streams, calls[i])
  {
    hide ErasureContract;
    hide Emitted;
    hide HonestInput;
    SourcesHonest(lib, c, sent, sources, []);
    forall i | 0 <= i < |calls| ensures HonestCall(lib, c, sent, StreamsFrom(lib, c, sent, sources), calls[i]) {
      if calls[i].Arrives? {
        EmittedIsHonest(lib, c, sent, sources, Came(calls[i].path, calls[i].f, calls[i].now));
      }
    }
  }

  /**
   The closing result, on objects from beginning to end: a client is made and called. Its peer's encoders were given
   true frames, and the WANs lose, duplicate and reorder what they emitted. What the client writes to the inner peer
   is a run of the receive path; it rises strictly in number and carries under each number the payload sent under it.
   */
  method Session(lib: Library, session: U64, crossPath: bool, size: U32, params: map<string, FecSizing.Params>,
                 gapTimeout: int, maxPending: int, calls: seq<Call>, ghost sent: FecDecoderRuns.Sent,
                 ghost sources: map<string, Source>)
    returns (client: Client, out: seq<Frame>, ghost start: Pipe, ghost inputs: seq<Input>)
    requires var c := ConfigFor(session, crossPath, gapTimeout, maxPending);
             && ErasureContract(lib) && TrueSources(lib, c, sent, sources) && NoZero(sent)
             && (forall slot :: slot in params ==> slot in sources && params[slot].crossPath == crossPath)
             && (forall i :: 0 <= i < |calls| ==> EmittedCall(lib, c, sources, calls[i]))
    ensures fresh(client) && client.Valid() && client.c == ConfigFor(session, crossPath, gapTimeout, maxPending)
    ensures Starts(client.c, StreamsFrom(lib, client.c, sent, sources), start) && AllSound(start.decs)
    ensures |inputs| == |calls| && MeansAll(calls, inputs)
    ensures client.Abs() == Pipeline.Run(lib, client.c, start, inputs, |inputs|)
    ensures out == FramesOf(client.history.out) && DeliveredTruly(sent, client.history.out)
    ensures NearRun(lib, client.c, start, inputs, |inputs|) ==> NumberedOut(client.history.out)
    ensures start.filter == ReplayWindow.Fresh(WindowFor(size))
    ensures var scene := SceneOf(lib, client.c, sent, sources, start, inputs, size);
            Progress.Numbers(sent) ==> Completeness.FromSources(scene, sources) && Timeliness.Punctual(scene)
  {
    hide ErasureContract;
    hide TrueSources;
    hide NoZero;
    hide EmittedCall;
    hide HonestCall;
    hide Pipeline.Run;
    hide NearRun;
    hide DeliveredTruly;
    hide NumberedOut;
    hide TrueStreams;
    hide Client.Waits;
    hide ReplayWindow.Window.Valid;
    client := new Client(lib, session, crossPath, size, params, gapTimeout, maxPending);
    start := client.Abs();
    ghost var streams := StreamsFrom(lib, client.c, sent, sources);
    CallsHonest(lib, client.c, sent, sources, calls);
    ConstructedStarts(client.c, streams, params, start);
    out, inputs := client.Serve(calls, sent, streams);
    if Progress.Numbers(sent) { SceneIsGenuine(lib, client.c, sent, sources, start, inputs, size, calls); }
  }

  /** What happened to the client, as a session for the results about every frame. */
  ghost function SceneOf(lib: Library, c: Config, sent: FecDecoderRuns.Sent, sources: map<string, Source>, start: Pipe,
                         inputs: seq<Input>, size: U32): Progress.Scene
    requires TrueSources(lib, c, sent, sources)
  {
    Progress.Scene(lib, c, sent, StreamsFrom(lib, c, sent, sources), start, inputs, WindowFor(size))
  }

  lemma SceneIsGenuine(lib: Library, c: Config, sent: FecDecoderRuns.Sent, sources: map<string, Source>, start: Pipe,
                       inputs: seq<Input>, size: U32, calls: seq<Call>)
    requires ErasureContract(lib) && TrueSources(lib, c, sent, sources) && Progress.Numbers(sent)
    requires Starts(c, StreamsFrom(lib, c, sent, sources), start) && AllSound(start.decs)
    requires start.filter == ReplayWindow.Fresh(WindowFor(size)) && OnTime(lib, c, start, inputs, |inputs|)
    requires TrueStreams(lib, sent, StreamsFrom(lib, c, sent, sources)) && MeansAll(calls, inputs)
    requires forall i :: 0 <= i < |calls| ==> HonestCall(lib, c, sent, StreamsFrom(lib, c, sent, sources), calls[i])
    ensures var scene := SceneOf(lib, c, sent, sources, start, inputs, size);
            Completeness.FromSources(scene, sources) && Timeliness.Punctual(scene)
  {
    hide ErasureContract;
    hide TrueSources;
    hide TrueStreams;
    hide Starts;
    hide OnTime;
    hide HonestInput;
    var streams := StreamsFrom(lib, c, sent, sources);
    forall i | 0 <= i < |inputs| ensures HonestInput(lib, c, sent, streams, inputs[i]) {
      assert Means(calls[i], inputs[i]) && HonestCall(lib, c, sent, streams, calls[i]);
      if !inputs[i].Came? { OnlyFrames(lib, c, sent, streams, inputs[i]); }
    }
  }

  lemma OnlyFrames(lib: Library, c: Config, sent: FecDecoderRuns.Sent, streams: map<string, Stream>, input: Input)
    requires !input.Came?
    ensures HonestInput(lib, c, sent, streams, input)
  {}

  ghost predicate HonestCall(lib: Library, c: Config, sent: FecDecoderRuns.Sent, streams: map<string, Stream>,
                             call: Call) {
    call.Arrives? ==> HonestInput(lib, c, sent, streams, Came(call.path, call.f, call.now))
  }

  /** What the constructor makes is a start of the receive path. */
  lemma ConstructedStarts(c: Config, streams: map<string, Stream>, params: map<string, FecSizing.Params>, p: Pipe)
    requires p.history == History(FRESH, [], multiset{}, multiset{}, 0)
    requires p.decs == map slot | slot in params :: FecDecoder.Fresh(params[slot])
    requires forall slot :: slot in params ==> slot in streams && params[slot].crossPath == c.crossPath
    ensures Starts(c, streams, p)
  {}

  lemma IsStep(lib: Library, c: Config, p: Pipe, path: string, f: Frame, now: int)
    requires AllSound(p.decs)
    ensures Pipeline.Receive(lib, c, p, path, f, now) == Pipeline.Step(lib, c, p, Came(path, f, now))
  {}

  lemma GoodIsNotStuck(lib: Library, c: Config, sent: FecDecoderRuns.Sent, streams: map<string, Stream>, p: Pipe,
                       now: int)
    requires Good(lib, c, sent, streams, p) && NoZero(sent)
    ensures !Stuck(p.history.buffer, now, c.gapTimeout)
  {
    hide GoodHistory;
    NeverStuck(sent, p.history, now, c.gapTimeout);
  }

  lemma GoodReleases(lib: Library, c: Config, sent: FecDecoderRuns.Sent, streams: map<string, Stream>, p: Pipe)
    requires Good(lib, c, sent, streams, p)
    ensures DeliveredTruly(sent, p.history.out)
  {
    hide GoodHistory;
    GoodDelivers(sent, p.history);
  }

  lemma {:induction false} RunPrefix(lib: Library, c: Config, p: Pipe, inputs: seq<Input>, input: Input, n: nat)
    requires AllSound(p.decs) && n <= |inputs|
    ensures Pipeline.Run(lib, c, p, inputs + [input], n) == Pipeline.Run(lib, c, p, inputs, n)
  {
    hide Pipeline.Step;
    if n > 0 { RunPrefix(lib, c, p, inputs, input, n - 1); }
  }

  lemma RunMore(lib: Library, c: Config, p: Pipe, inputs: seq<Input>, input: Input)
    requires AllSound(p.decs)
    ensures Pipeline.Run(lib, c, p, inputs + [input], |inputs| + 1) ==
              Pipeline.Step(lib, c, Pipeline.Run(lib, c, p, inputs, |inputs|), input)
  {
    hide Pipeline.Step;
    RunPrefix(lib, c, p, inputs, input, |inputs|);
  }

  lemma OnTimeFirst(lib: Library, c: Config, p: Pipe)
    requires AllSound(p.decs)
    ensures OnTime(lib, c, p, [], 0) && Pipeline.Run(lib, c, p, [], 0) == p
  {}

  lemma OnTimeMore(lib: Library, c: Config, p: Pipe, inputs: seq<Input>, input: Input)
    requires AllSound(p.decs) && OnTime(lib, c, p, inputs, |inputs|)
    requires VisitsDue(Pipeline.Run(lib, c, p, inputs, |inputs|), input)
    ensures OnTime(lib, c, p, inputs + [input], |inputs| + 1)
  {
    hide Pipeline.Run;
    hide VisitsDue;
    var more := inputs + [input];
    forall m: nat | m < |more| ensures VisitsDue(Pipeline.Run(lib, c, p, more, m), more[m]) {
      RunPrefix(lib, c, p, inputs, input, m);
      if m < |inputs| { assert VisitsDue(Pipeline.Run(lib, c, p, inputs, m), inputs[m]); }
    }
  }

  lemma Appended(was: seq<Item>, items: seq<Item>, out: seq<Frame>)
    requires Carry(items)(out)
    ensures FramesOf(was + items) == FramesOf(was) + out
  {}
}
