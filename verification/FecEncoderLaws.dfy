/** What an encoder does at each event of a run, told from the frames pushed, the losses reported and the times. */
module FecEncoderLaws {
  import opened Bytes
  import opened Erasure
  import opened Frames
  import opened FecBlock
  import opened FecSizing
  import opened FecEncoder

  /** The run up to event n. */
  ghost function At(lib: Library, e0: Enc, evs: seq<Event>, n: nat): Trace
    requires Invariant(lib, e0) && n <= |evs|
  {
    Run(lib, e0, evs[..n])
  }

  lemma OneEvent(lib: Library, e0: Enc, evs: seq<Event>, n: nat)
    requires Invariant(lib, e0) && n < |evs|
    ensures Invariant(lib, At(lib, e0, evs, n).enc)
    ensures At(lib, e0, evs, n + 1) == Extend(lib, At(lib, e0, evs, n), evs[n])
  {
    assert evs[..n + 1][..n] == evs[..n] && evs[..n + 1][n] == evs[n];
  }

  /** Between these two points of a run, these frames came out. */
  ghost predicate Emits(t: Trace, u: Trace, out: seq<Frame>) { u.emitted == t.emitted + out }

  // ---------------------------------------------------------------------
  // Pushes.

  ghost predicate AllEmpty(frames: seq<Frame>) { forall i :: 0 <= i < |frames| ==> frames[i].payload == [] }

  /** The frames under one block number, unchanged otherwise, and in order. */
  ghost predicate Stamped(frames: seq<Frame>, id: U32, out: seq<Frame>) {
    |out| == |frames| && forall i :: 0 <= i < |frames| ==> out[i] == frames[i].(blockSeq := id)
  }

  ghost predicate AllParity(id: U32, out: seq<Frame>) {
    forall i :: 0 <= i < |out| ==> IsParity(out[i]) && out[i].blockSeq == id
  }

  /** A block: its data frames, then n parity frames. */
  ghost predicate BlockOf(frames: seq<Frame>, id: U32, n: nat, out: seq<Frame>) {
    && |out| == |frames| + n && Stamped(frames, id, out[..|frames|]) && AllParity(id, out[|frames|..])
  }

  /** The frames marked as passing by, otherwise as they were pushed. */
  ghost predicate Passed(frames: seq<Frame>, out: seq<Frame>) {
    |out| == |frames| && forall i :: 0 <= i < |frames| ==> IsPass(out[i]) && IdOf(out[i]) == IdOf(frames[i])
  }

  lemma {:induction false} EmptyMax(data: seq<Datum>, n: nat)
    requires n <= |data| && forall i :: 0 <= i < |data| ==> data[i].payload == []
    ensures MaxLenTo(data, n) == 0
  {
    if n > 0 { EmptyMax(data, n - 1); }
  }

  lemma PayloadDecides(frames: seq<Frame>)
    ensures MaxLen(Datums(frames)) > 0 <==> !AllEmpty(frames)
  {
    var data := Datums(frames);
    if AllEmpty(frames) {
      EmptyMax(data, |data|);
    } else {
      var i :| 0 <= i < |frames| && frames[i].payload != [];
      assert |data[i].payload| > 0;
    }
  }

  lemma SealsBlock(lib: Library, e: Enc, coded: bool)
    requires e.pending != [] && e.rsParity >= 0
    ensures BlockOf(e.pending, NextId(e), if coded && !AllEmpty(e.pending) then e.rsParity else 0,
                    Seal(lib, e, coded).1)
    ensures Seal(lib, e, coded).0.block == NextId(e) && Seal(lib, e, coded).0.pending == []
    ensures Seal(lib, e, coded).0.rs == e.rs && Seal(lib, e, coded).0.codingOn == e.codingOn
  {
    PayloadDecides(e.pending);
    var b := SealedBlock(e, coded);
    var data, parity := Stamp(e.pending, b.id), ParityFrames(lib, b);
    assert (data + parity)[..|data|] == data && (data + parity)[|data|..] == parity;
    assert AllParity(b.id, parity) by { ParityMarked(lib, b); }
  }

  lemma ParityMarked(lib: Library, b: Block)
    ensures AllParity(b.id, ParityFrames(lib, b))
  {
    var parity, shards := ParityFrames(lib, b), ParityShards(lib, b);
    forall i | 0 <= i < |parity| ensures IsParity(parity[i]) && parity[i].blockSeq == b.id {
      assert parity[i] == ParityFrame(b, if i < |shards| then shards[i] else [], i);
    }
  }

  /** What a push does, by whether coding is on afterwards and how many frames then wait. */
  ghost predicate PushDoes(e: Enc, f: Frame, d: Enc, out: seq<Frame>) {
    var waiting := e.pending + [f];
    if !Enabled(e.params) || !d.codingOn then Passed(waiting, out) && d.pending == []
    else if |waiting| < e.params.k then out == [] && d.pending == waiting
    else
      && d.rs.Some? && d.pending == [] && d.block == NextId(e)
      && BlockOf(waiting, d.block, if AllEmpty(waiting) then 0 else d.rs.value.p, out)
  }

  lemma PushIs(lib: Library, e: Enc, f: Frame, now: int)
    requires Invariant(lib, e)
    ensures PushDoes(e, f, Push(lib, e, f, now).0, Push(lib, e, f, now).1)
  {
    hide BlockOf;
    hide Seal;
    hide Refresh;
    if Enabled(e.params) {
      RefreshKeeps(lib, e, now);
      var d := Refresh(lib, e, now);
      if d.codingOn && |d.pending| + 1 >= d.params.k {
        SealsBlock(lib, d.(pending := d.pending + [f], blockStart := if d.pending == [] then now else d.blockStart),
                   true);
      }
    } else {
      assert e.pending + [f] == [f];
    }
  }

  /**
   In every run, a push with coding on that brings the k-th waiting frame emits the k frames under the next block
   number, followed by as many parity frames as the held code has parity shards, or none if no frame carries anything;
   with fewer frames it emits nothing; with coding off it emits all that waits, marked as passing by.
   */
  lemma PushEmits(lib: Library, e0: Enc, evs: seq<Event>, n: nat)
    requires Invariant(lib, e0) && n < |evs| && evs[n].Pushed?
    ensures var t, u := At(lib, e0, evs, n), At(lib, e0, evs, n + 1);
            exists out :: Emits(t, u, out) && PushDoes(t.enc, evs[n].f, u.enc, out)
  {
    hide Push;
    hide PushDoes;
    hide Invariant;
    OneEvent(lib, e0, evs, n);
    var t, u := At(lib, e0, evs, n), At(lib, e0, evs, n + 1);
    PushIs(lib, t.enc, evs[n].f, evs[n].now);
    assert Emits(t, u, Push(lib, t.enc, evs[n].f, evs[n].now).1);
  }

  // ---------------------------------------------------------------------
  // Ticks.

  ghost predicate Waits(lib: Library, e0: Enc, evs: seq<Event>, n: nat)
    requires Invariant(lib, e0) && n <= |evs|
  {
    At(lib, e0, evs, n).enc.pending != []
  }

  /** The event since which some frame has waited without a break. */
  ghost function WaitingSince(lib: Library, e0: Enc, evs: seq<Event>, n: nat): (m: nat)
    requires Invariant(lib, e0) && n <= |evs|
    ensures n > 0 ==> m < n
  {
    if n == 0 then 0 else if Waits(lib, e0, evs, n - 1) then WaitingSince(lib, e0, evs, n - 1) else n - 1
  }

  lemma StepStarts(lib: Library, e: Enc, ev: Event)
    requires Invariant(lib, e)
    ensures var d := Step(lib, e, ev).0;
            d.pending != [] ==>
              if e.pending != [] then d.blockStart == e.blockStart else ev.Pushed? && d.blockStart == ev.now
  {
    hide Refresh;
    hide SealedBlock;
    RefreshKeeps(lib, e, ev.now);
    RefreshStart(lib, e, ev.now);
    match ev
    case Pushed(f, now) =>
    case Ticked(now) =>
    case LossSet(rate, now) =>
      RefreshKeeps(lib, e.(loss := Clamp(rate)), now);
      RefreshStart(lib, e.(loss := Clamp(rate)), now);
  }

  lemma RefreshStart(lib: Library, e: Enc, now: int)
    requires Ready(e)
    ensures Refresh(lib, e, now).blockStart == e.blockStart && Refresh(lib, e, now).loss == e.loss
  {}

  /** While some frame waits, the block timer runs from the push that found nothing waiting. */
  lemma {:induction false} StartedByPush(lib: Library, e0: Enc, evs: seq<Event>, n: nat)
    requires Invariant(lib, e0) && e0.pending == [] && n <= |evs| && Waits(lib, e0, evs, n)
    ensures var m := WaitingSince(lib, e0, evs, n);
            && m < n && evs[m].Pushed? && !Waits(lib, e0, evs, m)
            && (forall j :: m < j <= n ==> Waits(lib, e0, evs, j))
            && At(lib, e0, evs, n).enc.blockStart == evs[m].now
  {
    hide Step;
    hide Invariant;
    if n > 0 {
      OneEvent(lib, e0, evs, n - 1);
      StepStarts(lib, At(lib, e0, evs, n - 1).enc, evs[n - 1]);
      if Waits(lib, e0, evs, n - 1) { StartedByPush(lib, e0, evs, n - 1); }
    }
  }

  /** What a tick does, by whether coding is on afterwards and the frames have waited for long enough. */
  ghost predicate TickDoes(e: Enc, overdue: bool, d: Enc, out: seq<Frame>) {
    if !Enabled(e.params) || !d.codingOn then out == e.pending && d.pending == []
    else if e.pending == [] || !overdue then out == [] && d.pending == e.pending
    else d.pending == [] && d.block == NextId(e) && BlockOf(e.pending, d.block, 0, out)
  }

  lemma TickIs(lib: Library, e: Enc, now: int)
    requires Invariant(lib, e)
    ensures TickDoes(e, now - e.blockStart >= e.params.timeout, Tick(lib, e, now).0, Tick(lib, e, now).1)
  {
    hide BlockOf;
    hide Seal;
    hide Refresh;
    RefreshKeeps(lib, e, now);
    RefreshStart(lib, e, now);
    var d := Refresh(lib, e, now);
    if Enabled(e.params) && d.codingOn && d.pending != [] { SealsBlock(lib, d, false); }
  }

  /**
   In every run, a tick with coding on flushes the waiting frames as a short block without parity exactly when the
   oldest of them was pushed at least the timeout before; otherwise it emits nothing. With coding off it emits
   whatever waits.
   */
  lemma TickEmits(lib: Library, e0: Enc, evs: seq<Event>, n: nat)
    requires Invariant(lib, e0) && e0.pending == [] && n < |evs| && evs[n].Ticked?
    ensures var t, u, m := At(lib, e0, evs, n), At(lib, e0, evs, n + 1), WaitingSince(lib, e0, evs, n);
            exists out :: Emits(t, u, out) &&
              TickDoes(t.enc, evs[n].now - evs[m].now >= t.enc.params.timeout, u.enc, out)
  {
    hide Tick;
    hide BlockOf;
    hide Invariant;
    OneEvent(lib, e0, evs, n);
    var t, u := At(lib, e0, evs, n), At(lib, e0, evs, n + 1);
    TickIs(lib, t.enc, evs[n].now);
    if Waits(lib, e0, evs, n) { StartedByPush(lib, e0, evs, n); }
    assert Emits(t, u, Tick(lib, t.enc, evs[n].now).1);
  }

  // ---------------------------------------------------------------------
  // Switching.

  /** The loss last reported, as a fraction; nothing at first. */
  ghost function Reported(evs: seq<Event>, n: nat): real
    requires n <= |evs|
  {
    if n == 0 then 0.0 else if evs[n - 1].LossSet? then Clamp(evs[n - 1].rate) else Reported(evs, n - 1)
  }

  lemma StepLoss(lib: Library, e: Enc, ev: Event)
    requires Invariant(lib, e)
    ensures Step(lib, e, ev).0.loss == if ev.LossSet? then Clamp(ev.rate) else e.loss
    ensures Step(lib, e, ev).0.params == e.params
  {
    hide Refresh;
    hide SealedBlock;
    RefreshKeeps(lib, e, ev.now);
    RefreshStart(lib, e, ev.now);
    if ev.LossSet? {
      RefreshKeeps(lib, e.(loss := Clamp(ev.rate)), ev.now);
      RefreshStart(lib, e.(loss := Clamp(ev.rate)), ev.now);
    }
  }

  lemma {:induction false} LossIsReported(lib: Library, e0: Enc, evs: seq<Event>, n: nat)
    requires Invariant(lib, e0) && e0.loss == 0.0 && n <= |evs|
    ensures At(lib, e0, evs, n).enc.loss == Reported(evs, n) && At(lib, e0, evs, n).enc.params == e0.params
  {
    hide Step;
    hide Invariant;
    if n > 0 {
      OneEvent(lib, e0, evs, n - 1);
      LossIsReported(lib, e0, evs, n - 1);
      StepLoss(lib, At(lib, e0, evs, n - 1).enc, evs[n - 1]);
    }
  }

  ghost predicate Codes(lib: Library, e0: Enc, evs: seq<Event>, n: nat)
    requires Invariant(lib, e0) && n <= |evs|
  {
    At(lib, e0, evs, n).enc.codingOn
  }

  /** The encoder decides live between coding and passing frames by. */
  ghost predicate Switches(p: Params) { Enabled(p) && p.adaptive.Some? && !p.crossPath }

  /** The event that last switched coding on. */
  ghost function OnSince(lib: Library, e0: Enc, evs: seq<Event>, n: nat): (m: nat)
    requires Invariant(lib, e0) && n <= |evs|
    ensures n > 0 ==> m < n
  {
    if n == 0 then 0
    else if Codes(lib, e0, evs, n) && !Codes(lib, e0, evs, n - 1) then n - 1
    else OnSince(lib, e0, evs, n - 1)
  }

  /** One decision: on for a loss of at least onPct, off for one under offPct once the hold time is over. */
  ghost predicate Decides(a: Adaptive, loss: real, was: bool, since: int, now: int, on: bool) {
    if was then on <==> !(loss * 100.0 < a.offPct && now - since >= a.hold)
    else on <==> loss * 100.0 >= a.onPct
  }

  lemma RefreshDecides(lib: Library, e: Enc, now: int)
    requires Ready(e) && Switches(e.params)
    ensures var d := Refresh(lib, e, now);
            && Decides(e.params.adaptive.value, e.loss, e.codingOn, e.codingSince, now, d.codingOn)
            && d.codingSince == if d.codingOn && !e.codingOn then now else e.codingSince
  {}

  lemma StepDecides(lib: Library, e: Enc, ev: Event)
    requires Invariant(lib, e) && Switches(e.params)
    ensures var d := Step(lib, e, ev).0;
            && Decides(e.params.adaptive.value, d.loss, e.codingOn, e.codingSince, ev.now, d.codingOn)
            && d.codingSince == if d.codingOn && !e.codingOn then ev.now else e.codingSince
  {
    hide Refresh;
    hide SealedBlock;
    hide Decides;
    var c := if ev.LossSet? then e.(loss := Clamp(ev.rate)) else e;
    RefreshDecides(lib, c, ev.now);
    RefreshKeeps(lib, c, ev.now);
    RefreshStart(lib, c, ev.now);
  }

  lemma {:induction false} OnSinceTimes(lib: Library, e0: Enc, evs: seq<Event>, n: nat)
    requires Invariant(lib, e0) && Switches(e0.params) && e0.loss == 0.0 && !e0.codingOn && n <= |evs|
    requires Codes(lib, e0, evs, n)
    ensures var m := OnSince(lib, e0, evs, n);
            && m < n && !Codes(lib, e0, evs, m) && (forall j :: m < j <= n ==> Codes(lib, e0, evs, j))
            && At(lib, e0, evs, n).enc.codingSince == evs[m].now
  {
    hide Step;
    hide Invariant;
    if n > 0 {
      OneEvent(lib, e0, evs, n - 1);
      LossIsReported(lib, e0, evs, n - 1);
      StepDecides(lib, At(lib, e0, evs, n - 1).enc, evs[n - 1]);
      if Codes(lib, e0, evs, n - 1) { OnSinceTimes(lib, e0, evs, n - 1); }
    }
  }

  /**
   In every run of an encoder that adapts, each event switches coding on exactly when the loss last reported is at
   least onPct, and off exactly when it is under offPct and coding was switched on at least the hold time before.
   */
  lemma SwitchesWhen(lib: Library, e0: Enc, evs: seq<Event>, n: nat)
    requires Invariant(lib, e0) && Switches(e0.params) && e0.loss == 0.0 && !e0.codingOn && n < |evs|
    ensures var a, loss, m := e0.params.adaptive.value, Reported(evs, n + 1), OnSince(lib, e0, evs, n);
            if Codes(lib, e0, evs, n) then
              !Codes(lib, e0, evs, n + 1) <==> loss * 100.0 < a.offPct && evs[n].now - evs[m].now >= a.hold
            else
              Codes(lib, e0, evs, n + 1) <==> loss * 100.0 >= a.onPct
  {
    hide Step;
    hide Invariant;
    OneEvent(lib, e0, evs, n);
    LossIsReported(lib, e0, evs, n);
    LossIsReported(lib, e0, evs, n + 1);
    StepDecides(lib, At(lib, e0, evs, n).enc, evs[n]);
    if Codes(lib, e0, evs, n) { OnSinceTimes(lib, e0, evs, n); }
  }

  /** An encoder that does not adapt, or protects against the loss of a path, codes all the time. */
  lemma {:induction false} AlwaysCodes(lib: Library, e0: Enc, evs: seq<Event>, n: nat)
    requires Invariant(lib, e0) && e0.codingOn && (e0.params.adaptive.None? || e0.params.crossPath) && n <= |evs|
    ensures Codes(lib, e0, evs, n) && At(lib, e0, evs, n).enc.params == e0.params
  {
    hide Invariant;
    if n > 0 {
      AlwaysCodes(lib, e0, evs, n - 1);
      OneEvent(lib, e0, evs, n - 1);
      StepCodes(lib, At(lib, e0, evs, n - 1).enc, evs[n - 1]);
    }
  }

  lemma StepCodes(lib: Library, e: Enc, ev: Event)
    requires Invariant(lib, e) && e.codingOn && (e.params.adaptive.None? || e.params.crossPath)
    ensures Step(lib, e, ev).0.codingOn && Step(lib, e, ev).0.params == e.params
  {
    hide SealedBlock;
    hide ParityForLoss;
  }

  // ---------------------------------------------------------------------
  // Sizing.

  /** The held code after an event: the parity wanted for the loss, unless the library refuses it. */
  ghost predicate Sized(lib: Library, p: Params, loss: real, on: bool, was: Option<Code>, held: Option<Code>)
    requires p.k > 0 && Sane(p)
  {
    var wanted := ParityForLoss(p, loss);
    if on && (p.adaptive.Some? || p.crossPath) && New(lib, p.k, wanted).Some? then held == Some(Code(p.k, wanted))
    else held == was
  }

  lemma RefreshSizes(lib: Library, e: Enc, now: int)
    requires Invariant(lib, e) && Enabled(e.params)
    ensures var d := Refresh(lib, e, now); Sized(lib, e.params, e.loss, d.codingOn, e.rs, d.rs)
  {
    hide ParityForLoss;
  }

  lemma StepSizes(lib: Library, e: Enc, ev: Event)
    requires Invariant(lib, e) && Enabled(e.params)
    ensures var d := Step(lib, e, ev).0; Sized(lib, e.params, d.loss, d.codingOn, e.rs, d.rs)
  {
    hide Refresh;
    hide SealedBlock;
    hide Sized;
    var c := if ev.LossSet? then e.(loss := Clamp(ev.rate)) else e;
    RefreshSizes(lib, c, ev.now);
    RefreshKeeps(lib, c, ev.now);
    RefreshStart(lib, c, ev.now);
  }

  /**
   In every run of an enabled encoder, whenever it codes and adapts its parity, the held code has the parity wanted
   for the loss last reported, unless the library refuses that geometry; nothing else changes the code.
   */
  lemma HoldsWanted(lib: Library, e0: Enc, evs: seq<Event>, n: nat)
    requires Invariant(lib, e0) && Enabled(e0.params) && e0.loss == 0.0 && n < |evs|
    ensures Sized(lib, e0.params, Reported(evs, n + 1), Codes(lib, e0, evs, n + 1), At(lib, e0, evs, n).enc.rs,
                  At(lib, e0, evs, n + 1).enc.rs)
  {
    hide Step;
    hide Sized;
    OneEvent(lib, e0, evs, n);
    LossIsReported(lib, e0, evs, n);
    LossIsReported(lib, e0, evs, n + 1);
    hide Invariant;
    StepSizes(lib, At(lib, e0, evs, n).enc, evs[n]);
  }

  /** An encoder that neither adapts nor spans paths holds the code it was built with for good. */
  lemma {:induction false} FixedCode(lib: Library, e0: Enc, evs: seq<Event>, n: nat)
    requires Invariant(lib, e0) && Enabled(e0.params) && e0.params.adaptive.None? && !e0.params.crossPath && n <= |evs|
    requires e0.loss == 0.0
    ensures At(lib, e0, evs, n).enc.rs == e0.rs
  {
    hide Invariant;
    if n > 0 {
      FixedCode(lib, e0, evs, n - 1);
      HoldsWanted(lib, e0, evs, n - 1);
    }
  }

  /** The parity of a full block sealed at event n: what the loss last reported calls for, or the configured parity. */
  ghost predicate RightParity(lib: Library, p: Params, loss: real, parity: nat)
    requires p.k > 0 && Sane(p)
  {
    if p.adaptive.None? && !p.crossPath then parity == p.parity
    else New(lib, p.k, ParityForLoss(p, loss)).Some? ==> parity == ParityForLoss(p, loss)
  }

  /**
   From a new encoder on: every push that brings the k-th waiting frame while coding is on, with some payload not
   empty, emits exactly those k frames, numbered as one block, and then the parity frames the loss calls for.
   */
  lemma FullBlockEmits(lib: Library, p: Params, evs: seq<Event>, n: nat)
    requires Sane(p) && Enabled(p) && Fresh(lib, p).Some? && Invariant(lib, Fresh(lib, p).value)
    requires n < |evs| && evs[n].Pushed? && Codes(lib, Fresh(lib, p).value, evs, n + 1)
    requires |At(lib, Fresh(lib, p).value, evs, n).enc.pending| + 1 == Fresh(lib, p).value.params.k
    requires !AllEmpty(At(lib, Fresh(lib, p).value, evs, n).enc.pending + [evs[n].f])
    ensures var e0 := Fresh(lib, p).value;
            var t, u := At(lib, e0, evs, n), At(lib, e0, evs, n + 1);
            exists out, parity: nat ::
              && Emits(t, u, out) && BlockOf(t.enc.pending + [evs[n].f], u.enc.block, parity, out)
              && RightParity(lib, e0.params, Reported(evs, n + 1), parity)
  {
    hide BlockOf;
    hide Invariant;
    hide AllEmpty;
    hide ParityForLoss;
    var e0 := Fresh(lib, p).value;
    var t, u := At(lib, e0, evs, n), At(lib, e0, evs, n + 1);
    LossIsReported(lib, e0, evs, n);
    PushEmits(lib, e0, evs, n);
    HoldsWanted(lib, e0, evs, n);
    if e0.params.adaptive.None? && !e0.params.crossPath { FixedCode(lib, e0, evs, n + 1); }
    var out :| Emits(t, u, out) && PushDoes(t.enc, evs[n].f, u.enc, out);
    assert BlockOf(t.enc.pending + [evs[n].f], u.enc.block, u.enc.rs.value.p, out);
  }

  /** Whatever rates are reported, the loss that counts is a fraction. */
  lemma {:induction false} ReportedIsFraction(evs: seq<Event>, n: nat)
    requires n <= |evs|
    ensures 0.0 <= Reported(evs, n) <= 1.0
  {
    if n > 0 { ReportedIsFraction(evs, n - 1); }
  }

  /**
   In every run of an adaptive encoder, whatever rates are reported, the code held while coding has the least parity
   that meets the safety target of the loss, or all there is room for, unless the library refuses that geometry.
   */
  lemma HoldsLeast(lib: Library, e0: Enc, evs: seq<Event>, n: nat, q: int)
    requires Invariant(lib, e0) && Enabled(e0.params) && e0.params.adaptive.Some? && e0.loss == 0.0 && n < |evs|
    requires Codes(lib, e0, evs, n + 1) && New(lib, e0.params.k, ParityForLoss(e0.params, Reported(evs, n + 1))).Some?
    ensures var loss, rs := Reported(evs, n + 1), At(lib, e0, evs, n + 1).enc.rs;
            && rs.Some? && rs.value.k == e0.params.k && rs.value.p <= Room(e0.params)
            && (rs.value.p < Room(e0.params) ==> MeetsTarget(e0.params, loss, rs.value.p))
            && (q < rs.value.p ==> !MeetsTarget(e0.params, loss, q))
  {
    hide ParityForLoss;
    hide MeetsTarget;
    hide Room;
    HoldsWanted(lib, e0, evs, n);
    ReportedIsFraction(evs, n + 1);
    LeastParity(e0.params, Reported(evs, n + 1), q);
  }

  // ---------------------------------------------------------------------
  // From the configuration.

  /** The encoder a WAN starts with. */
  ghost predicate Configured(lib: Library, c: Config, wanPct: Option<real>, e0: Enc) {
    && c.enabled && ParamsFor(c, wanPct).Some? && Sane(ParamsFor(c, wanPct).value)
    && Fresh(lib, ParamsFor(c, wanPct).value) == Some(e0) && Invariant(lib, e0)
  }

  /**
   An encoder configured as adaptive starts without coding. From then on each event switches coding on exactly when the
   loss last reported is at least the configured on-threshold, and off exactly when it is under the off-threshold and
   coding was switched on at least the hold time before.
   */
  lemma ConfiguredSwitches(lib: Library, c: Config, wanPct: Option<real>, e0: Enc, evs: seq<Event>, n: nat)
    requires Configured(lib, c, wanPct, e0) && c.mode.AdaptiveMode? && n < |evs|
    ensures !Codes(lib, e0, evs, 0)
    ensures var loss, m := Reported(evs, n + 1) * 100.0, OnSince(lib, e0, evs, n);
            if Codes(lib, e0, evs, n) then
              !Codes(lib, e0, evs, n + 1) <==> loss < c.offPct && evs[n].now - evs[m].now >= c.hold
            else
              Codes(lib, e0, evs, n + 1) <==> loss >= c.onPct
  {
    hide Invariant;
    SwitchesWhen(lib, e0, evs, n);
    assert evs[..0] == [];
  }

  /** An encoder configured as fixed or cross-path codes all the time. */
  lemma ConfiguredAlways(lib: Library, c: Config, wanPct: Option<real>, e0: Enc, evs: seq<Event>, n: nat)
    requires Configured(lib, c, wanPct, e0) && (c.mode.Fixed? || c.mode.CrossPath?) && n <= |evs|
    ensures Codes(lib, e0, evs, n)
  {
    hide Invariant;
    AlwaysCodes(lib, e0, evs, n);
  }

  /**
   An adaptive encoder below its ceilings sends at least 1.3 times the parity that the loss last reported takes out, or
   what the configured ceiling takes out if that is less, unless the library refuses that geometry.
   */
  lemma ConfiguredMargin(lib: Library, c: Config, wanPct: Option<real>, e0: Enc, evs: seq<Event>, n: nat)
    requires Configured(lib, c, wanPct, e0) && c.mode.AdaptiveMode? && n < |evs| && Codes(lib, e0, evs, n + 1)
    requires New(lib, e0.params.k, ParityForLoss(e0.params, Reported(evs, n + 1))).Some?
    ensures var loss, rs, k := Reported(evs, n + 1), At(lib, e0, evs, n + 1).enc.rs, e0.params.k as real;
            && rs.Some? && k == ShardCount(c) as real
            && (rs.value.p < Room(e0.params) ==>
                  || (loss < 1.0 && Covers(rs.value.p as real, k, loss, 1.3))
                  || Covers(rs.value.p as real, k, c.maxLossPct / 100.0, 1.0))
  {
    hide Invariant;
    hide ParityForLoss;
    hide Covers;
    hide Room;
    HoldsLeast(lib, e0, evs, n, 0);
  }
}
