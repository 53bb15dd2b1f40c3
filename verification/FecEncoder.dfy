/** The encoder: groups data frames into blocks, adds parity, and switches live between coding and pass-through. */
module FecEncoder {
  import opened Bytes
  import opened Erasure
  import opened Frames
  import opened FecBlock
  import opened FecSizing

  const TWO32 := 0x1_0000_0000

  datatype Enc = Enc(params: Params, rs: Option<Code>, block: U32, pending: seq<Frame>, blockStart: int,
                     loss: real, codingOn: bool, codingSince: int, rsParity: int, blocksCoded: nat)

  // ---------------------------------------------------------------------
  // Steps.

  /** NewEncoder; None when the library refuses the geometry. */
  function Fresh(lib: Library, p: Params): Option<Enc> {
    var q := Normalized(p);
    var rs := if Enabled(q) then New(lib, q.k, q.parity) else None;
    if Enabled(q) && rs.None? then None
    else Some(Enc(q, rs, 0, [], 0, 0.0, q.adaptive.None? || q.crossPath, 0, q.parity, 0))
  }

  /** A legal parameter set for an encoder. */
  ghost predicate Ready(e: Enc) { e.params.k > 0 && Sane(e.params) }

  function Rebuild(lib: Library, e: Enc): Enc
    requires Ready(e)
  {
    var parity := ParityForLoss(e.params, e.loss);
    if parity == e.rsParity || New(lib, e.params.k, parity).None? then e
    else e.(rs := New(lib, e.params.k, parity), rsParity := parity)
  }

  function Refresh(lib: Library, e: Enc, now: int): Enc
    requires Ready(e)
  {
    if e.params.crossPath then Rebuild(lib, e.(codingOn := true))
    else if e.params.adaptive.None? then e.(codingOn := true)
    else
      var a := e.params.adaptive.value;
      var pct := e.loss * 100.0;
      var d := if !e.codingOn then (if pct >= a.onPct then e.(codingOn := true, codingSince := now) else e)
               else if pct < a.offPct && now - e.codingSince >= a.hold then e.(codingOn := false) else e;
      if d.codingOn then Rebuild(lib, d) else d
  }

  function MarkAll(frames: seq<Frame>): (out: seq<Frame>)
    ensures |out| == |frames|
  {
    seq(|frames|, i requires 0 <= i < |frames| => MarkPass(frames[i]))
  }

  function Stamp(frames: seq<Frame>, id: U32): (out: seq<Frame>)
    ensures |out| == |frames|
  {
    seq(|frames|, i requires 0 <= i < |frames| => frames[i].(blockSeq := id))
  }

  function Datums(frames: seq<Frame>): (data: seq<Datum>)
    ensures |data| == |frames|
  {
    seq(|frames|, i requires 0 <= i < |frames| => Datum(frames[i].seqNo, frames[i].payload))
  }

  function NextId(e: Enc): U32 { (e.block + 1) % TWO32 }

  /** The block the pending frames make; it carries parity only when some payload is not empty. */
  function SealedBlock(e: Enc, coded: bool): Block
    requires e.pending != [] && e.rsParity >= 0
  {
    var data := Datums(e.pending);
    Block(e.pending[0].session, NextId(e), data, if coded && MaxLen(data) > 0 then e.rsParity else 0)
  }

  function ParityFrames(lib: Library, b: Block): (out: seq<Frame>)
    ensures |out| == b.p
  {
    var shards := ParityShards(lib, b);
    seq(b.p, i requires 0 <= i < b.p => ParityFrame(b, if i < |shards| then shards[i] else [], i))
  }

  /** emitBlock, and the short-block flush of Tick when coded is false. */
  function Seal(lib: Library, e: Enc, coded: bool): (Enc, seq<Frame>)
    requires e.pending != [] && e.rsParity >= 0
  {
    var b := SealedBlock(e, coded);
    (e.(block := b.id, blocksCoded := e.blocksCoded + 1, pending := []),
     Stamp(e.pending, b.id) + ParityFrames(lib, b))
  }

  predicate Codable(e: Enc) { Enabled(e.params) ==> e.rsParity >= 0 }

  function Push(lib: Library, e: Enc, f: Frame, now: int): (Enc, seq<Frame>)
    requires Ready(e) && Codable(e)
  {
    if !Enabled(e.params) then (e, MarkAll([f]))
    else
      var d := Refresh(lib, e, now);
      if !d.codingOn then (d.(pending := []), MarkAll(d.pending + [f]))
      else
        var filled := d.(pending := d.pending + [f], blockStart := if d.pending == [] then now else d.blockStart);
        if |filled.pending| < d.params.k then (filled, []) else Seal(lib, filled, true)
  }

  function Tick(lib: Library, e: Enc, now: int): (Enc, seq<Frame>)
    requires Ready(e) && Codable(e)
  {
    if !Enabled(e.params) then (e, [])
    else
      var d := Refresh(lib, e, now);
      if !d.codingOn then (d.(pending := []), d.pending)
      else if d.pending == [] || now < d.blockStart + d.params.timeout then (d, [])
      else Seal(lib, d, false)
  }

  function Clamp(rate: real): real { if rate < 0.0 then 0.0 else if rate > 1.0 then 1.0 else rate }

  function SetLoss(lib: Library, e: Enc, rate: real, now: int): Enc
    requires Ready(e)
  {
    Refresh(lib, e.(loss := Clamp(rate)), now)
  }

  // ---------------------------------------------------------------------
  // Runs.

  datatype Event = Pushed(f: Frame, now: int) | Ticked(now: int) | LossSet(rate: real, now: int)

  function Step(lib: Library, e: Enc, ev: Event): (Enc, seq<Frame>)
    requires Ready(e) && Codable(e)
  {
    match ev
    case Pushed(f, now) => Push(lib, e, f, now)
    case Ticked(now) => Tick(lib, e, now)
    case LossSet(rate, now) => (SetLoss(lib, e, rate, now), [])
  }

  /** The block an event seals, if any. */
  function Sealing(lib: Library, e: Enc, ev: Event): Option<Block>
    requires Ready(e) && Codable(e)
  {
    if !Enabled(e.params) || ev.LossSet? then None
    else
      var d := Refresh(lib, e, ev.now);
      if !d.codingOn then None
      else match ev
        case Pushed(f, now) =>
          var filled := d.(pending := d.pending + [f]);
          if |filled.pending| < d.params.k then None else Some(SealedBlock(filled, true))
        case Ticked(now) =>
          if d.pending == [] || now < d.blockStart + d.params.timeout then None else Some(SealedBlock(d, false))
  }

  /** What a run leaves behind: the encoder, everything pushed and emitted so far, and the sealed blocks. */
  datatype Trace = Trace(enc: Enc, pushed: seq<Frame>, emitted: seq<Frame>, blocks: seq<Block>)

  ghost predicate Invariant(lib: Library, e: Enc) {
    && Ready(e)
    && (Enabled(e.params) ==> e.rsParity >= 0 && lib.supports(e.params.k, e.rsParity)
                              && e.rs == Some(Code(e.params.k, e.rsParity)))
    && |e.pending| < e.params.k
    && (!Enabled(e.params) ==> e.pending == [])
    && e.block == e.blocksCoded % TWO32
  }

  /** Refreshing keeps the invariant and touches neither the pending frames nor the numbering. */
  lemma RefreshKeeps(lib: Library, e: Enc, now: int)
    requires Ready(e) && (Enabled(e.params) ==> e.rsParity >= 0 && lib.supports(e.params.k, e.rsParity)
                                                && e.rs == Some(Code(e.params.k, e.rsParity)))
    ensures var d := Refresh(lib, e, now);
            && d.params == e.params && d.pending == e.pending && d.block == e.block && d.blocksCoded == e.blocksCoded
            && (Enabled(e.params) ==> d.rsParity >= 0 && lib.supports(e.params.k, d.rsParity)
                                      && d.rs == Some(Code(e.params.k, d.rsParity)))
  {}

  lemma NextCount(n: nat)
    ensures (n % TWO32 + 1) % TWO32 == (n + 1) % TWO32
  {}

  lemma SealKeeps(lib: Library, e: Enc, coded: bool)
    requires e.pending != [] && e.block == e.blocksCoded % TWO32
    requires Ready(e) && Enabled(e.params) && e.rsParity >= 0 && lib.supports(e.params.k, e.rsParity)
    requires e.rs == Some(Code(e.params.k, e.rsParity))
    ensures Invariant(lib, Seal(lib, e, coded).0)
  {
    NextCount(e.blocksCoded);
  }

  /** Every step keeps the invariant: fewer than k frames wait, and the held code is the one for (k, rsParity). */
  lemma StepKeeps(lib: Library, e: Enc, ev: Event)
    requires Invariant(lib, e)
    ensures Invariant(lib, Step(lib, e, ev).0)
  {
    match ev
    case Pushed(f, now) =>
      RefreshKeeps(lib, e, now);
      var d := Refresh(lib, e, now);
      if Enabled(e.params) && d.codingOn && |d.pending| + 1 >= d.params.k {
        SealKeeps(lib, d.(pending := d.pending + [f], blockStart := if d.pending == [] then now else d.blockStart),
                  true);
      }
    case Ticked(now) =>
      RefreshKeeps(lib, e, now);
      var d := Refresh(lib, e, now);
      if Enabled(e.params) && d.codingOn && d.pending != [] {
        SealKeeps(lib, d, false);
      }
    case LossSet(rate, now) => RefreshKeeps(lib, e.(loss := Clamp(rate)), now);
  }

  lemma FreshInvariant(lib: Library, p: Params)
    requires Sane(p) && Fresh(lib, p).Some?
    ensures Invariant(lib, Fresh(lib, p).value)
  {}

  function Extend(lib: Library, t: Trace, ev: Event): (u: Trace)
    requires Invariant(lib, t.enc)
    ensures Invariant(lib, u.enc)
  {
    StepKeeps(lib, t.enc, ev);
    var (e, out) := Step(lib, t.enc, ev);
    var b := Sealing(lib, t.enc, ev);
    Trace(e, t.pushed + Input(ev), t.emitted + out, if b.Some? then t.blocks + [b.value] else t.blocks)
  }

  function Input(ev: Event): seq<Frame> { if ev.Pushed? then [ev.f] else [] }

  function Run(lib: Library, e0: Enc, evs: seq<Event>): (t: Trace)
    requires Invariant(lib, e0)
    ensures Invariant(lib, t.enc)
  {
    if evs == [] then Trace(e0, [], [], []) else Extend(lib, Run(lib, e0, evs[..|evs| - 1]), evs[|evs| - 1])
  }

  // ---------------------------------------------------------------------
  // Conservation: nothing is lost, duplicated or reordered.

  datatype Id = Id(session: U64, seqNo: U32, payload: seq<Byte>)

  function IdOf(f: Frame): Id { Id(f.session, f.seqNo, f.payload) }

  function Ids(frames: seq<Frame>): (ids: seq<Id>)
    ensures |ids| == |frames|
  {
    seq(|frames|, i requires 0 <= i < |frames| => IdOf(frames[i]))
  }

  /** The data frames among the emitted ones, in order. */
  function DataOf(frames: seq<Frame>): seq<Id> {
    if frames == [] then []
    else DataOf(frames[..|frames| - 1])
         + if IsParity(frames[|frames| - 1]) then [] else [IdOf(frames[|frames| - 1])]
  }

  lemma {:induction false} DataOfConcat(a: seq<Frame>, b: seq<Frame>)
    ensures DataOf(a + b) == DataOf(a) + DataOf(b)
  {
    if b == [] {
      assert a + b == a;
    } else {
      var init := b[..|b| - 1];
      DataOfConcat(a, init);
      assert (a + b)[..|a + b| - 1] == a + init;
    }
  }

  lemma {:induction false} DataOfData(frames: seq<Frame>)
    requires forall i :: 0 <= i < |frames| ==> !IsParity(frames[i])
    ensures DataOf(frames) == Ids(frames)
  {
    if frames != [] {
      DataOfData(frames[..|frames| - 1]);
    }
  }

  lemma {:induction false} DataOfParity(frames: seq<Frame>)
    requires forall i :: 0 <= i < |frames| ==> IsParity(frames[i])
    ensures DataOf(frames) == []
  {
    if frames != [] {
      DataOfParity(frames[..|frames| - 1]);
    }
  }

  lemma SealConserves(lib: Library, e: Enc, coded: bool)
    requires e.pending != [] && e.rsParity >= 0 && forall i :: 0 <= i < |e.pending| ==> !IsParity(e.pending[i])
    ensures DataOf(Seal(lib, e, coded).1) == Ids(e.pending)
  {
    var b := SealedBlock(e, coded);
    DataOfData(Stamp(e.pending, b.id));
    var parity := ParityFrames(lib, b);
    forall i | 0 <= i < |parity| ensures IsParity(parity[i]) {
      var shards := ParityShards(lib, b);
      assert parity[i] == ParityFrame(b, if i < |shards| then shards[i] else [], i);
    }
    DataOfParity(parity);
    DataOfConcat(Stamp(e.pending, b.id), ParityFrames(lib, b));
    assert Ids(Stamp(e.pending, b.id)) == Ids(e.pending);
  }

  ghost predicate NoParity(frames: seq<Frame>) {
    forall i :: 0 <= i < |frames| ==> !IsParity(frames[i])
  }

  /** What comes out, then what stays pending, is what was pending, then what came in. */
  ghost predicate Balanced(was: seq<Frame>, input: seq<Frame>, out: seq<Frame>, pending: seq<Frame>) {
    && DataOf(out) + Ids(pending) == Ids(was + input)
    && (pending == [] || (out == [] && pending == was + input))
  }

  lemma PushBalanced(lib: Library, e: Enc, f: Frame, now: int)
    requires Invariant(lib, e) && NoParity(e.pending) && !IsParity(f)
    ensures var (d, out) := Push(lib, e, f, now); Balanced(e.pending, [f], out, d.pending)
  {
    if !Enabled(e.params) {
      DataOfData(MarkAll([f]));
      assert Ids(MarkAll([f])) == Ids(e.pending + [f]);
    } else {
      RefreshKeeps(lib, e, now);
      var d := Refresh(lib, e, now);
      if !d.codingOn {
        DataOfData(MarkAll(d.pending + [f]));
        assert Ids(MarkAll(d.pending + [f])) == Ids(e.pending + [f]);
      } else if |d.pending| + 1 >= d.params.k {
        SealConserves(lib, d.(pending := d.pending + [f], blockStart := if d.pending == [] then now else d.blockStart),
                      true);
      }
    }
  }

  lemma TickBalanced(lib: Library, e: Enc, now: int)
    requires Invariant(lib, e) && NoParity(e.pending)
    ensures var (d, out) := Tick(lib, e, now); Balanced(e.pending, [], out, d.pending)
  {
    assert e.pending + [] == e.pending;
    if Enabled(e.params) {
      RefreshKeeps(lib, e, now);
      var d := Refresh(lib, e, now);
      if !d.codingOn {
        DataOfData(d.pending);
      } else if d.pending != [] && now >= d.blockStart + d.params.timeout {
        SealConserves(lib, d, false);
      }
    }
  }

  lemma StepConserves(lib: Library, e: Enc, ev: Event)
    requires Invariant(lib, e) && NoParity(e.pending) && NoParity(Input(ev))
    ensures var (d, out) := Step(lib, e, ev);
            Balanced(e.pending, Input(ev), out, d.pending) && NoParity(d.pending)
  {
    match ev
    case Pushed(f, now) =>
      assert f == Input(ev)[0];
      PushBalanced(lib, e, f, now);
    case Ticked(now) => TickBalanced(lib, e, now);
    case LossSet(rate, now) =>
      assert e.pending + Input(ev) == e.pending;
      RefreshKeeps(lib, e.(loss := Clamp(rate)), now);
  }

  ghost predicate DataPushes(evs: seq<Event>) {
    forall i :: 0 <= i < |evs| ==> NoParity(Input(evs[i]))
  }

  ghost predicate Conserved(t: Trace) {
    && DataOf(t.emitted) + Ids(t.enc.pending) == Ids(t.pushed)
    && NoParity(t.enc.pending)
    && |t.enc.pending| <= |t.pushed| && t.enc.pending == t.pushed[|t.pushed| - |t.enc.pending|..]
  }

  lemma ExtendConserves(lib: Library, t: Trace, ev: Event)
    requires Invariant(lib, t.enc) && Conserved(t) && NoParity(Input(ev))
    ensures Conserved(Extend(lib, t, ev))
  {
    StepConserves(lib, t.enc, ev);
    var (d, out) := Step(lib, t.enc, ev);
    DataOfConcat(t.emitted, out);
    Regroup(DataOf(t.emitted), DataOf(out), d.pending, t.enc.pending, Input(ev), t.pushed);
  }

  lemma Regroup(before: seq<Id>, out: seq<Id>, pending: seq<Frame>, was: seq<Frame>, input: seq<Frame>,
                pushed: seq<Frame>)
    requires out + Ids(pending) == Ids(was + input) && before + Ids(was) == Ids(pushed)
    ensures before + out + Ids(pending) == Ids(pushed + input)
  {
    assert Ids(was + input) == Ids(was) + Ids(input);
    assert Ids(pushed + input) == Ids(pushed) + Ids(input);
    assert before + out + Ids(pending) == before + (out + Ids(pending));
    assert before + (Ids(was) + Ids(input)) == before + Ids(was) + Ids(input);
  }

  /**
   At every point of every run, across coding and pass-through: the data frames emitted so far followed by
   the pending ones are the pushed ones, in order; the pending ones are the last pushed, unchanged; fewer
   than k wait; and the held code is the one for (k, rsParity).
   */
  lemma {:induction false} StreamConserved(lib: Library, e0: Enc, evs: seq<Event>)
    requires Invariant(lib, e0) && e0.pending == [] && DataPushes(evs)
    ensures Conserved(Run(lib, e0, evs)) && Invariant(lib, Run(lib, e0, evs).enc)
  {
    if evs == [] {
      assert DataOf([]) + Ids([]) == Ids([]);
    } else {
      var init, ev := evs[..|evs| - 1], evs[|evs| - 1];
      assert forall i :: 0 <= i < |init| ==> init[i] == evs[i];
      StreamConserved(lib, e0, init);
      ExtendConserves(lib, Run(lib, e0, init), ev);
    }
  }

  // ---------------------------------------------------------------------
  // What reaches the wire.

  /**
   Frames as the ingress loop makes them: one session, ascending numbers, no flags, a payload that fits its length
   field.
   */
  ghost predicate Pure(frames: seq<Frame>, session: U64) {
    && (forall i :: 0 <= i < |frames| ==>
          frames[i] == Frame(0, 0, session, frames[i].seqNo, 0, frames[i].payload) && |frames[i].payload| < 0x1_0000)
    && (forall i, j :: 0 <= i < j < |frames| ==> frames[i].seqNo < frames[j].seqNo)
  }

  /** f carries a pushed frame's content uncoded. */
  ghost predicate IsUncoded(pushed: seq<Frame>, f: Frame) {
    && !IsParity(f) && (IsPass(f) || f.blockSeq == 0)
    && exists j :: 0 <= j < |pushed| && IdOf(pushed[j]) == IdOf(f)
  }

  /** f is frame i of the n-th sealed block. */
  ghost predicate IsCoded(lib: Library, blocks: seq<Block>, f: Frame, n: nat, i: nat) {
    n < |blocks| && i < |blocks[n].data| + blocks[n].p && IsFrame(lib, blocks[n], i, f)
  }

  ghost predicate Accounted(lib: Library, t: Trace, f: Frame) {
    IsUncoded(t.pushed, f) || exists n: nat, i: nat :: IsCoded(lib, t.blocks, f, n, i)
  }

  ghost predicate HonestTrace(lib: Library, t: Trace, session: U64) {
    && Pure(t.pushed, session) && t.enc.params.k > 0
    && |t.enc.pending| <= |t.pushed| && t.enc.pending == t.pushed[|t.pushed| - |t.enc.pending|..]
    && |t.blocks| == t.enc.blocksCoded
    && (forall n :: 0 <= n < |t.blocks| ==> t.blocks[n].id == (n + 1) % TWO32 && t.blocks[n].session == session)
    && (|t.blocks| < TWO32 ==> forall n :: 0 <= n < |t.blocks| ==> ValidBlock(lib, t.enc.params.k, t.blocks[n]))
    && (forall f :: f in t.emitted ==> Accounted(lib, t, f))
  }

  lemma SealedValid(lib: Library, e: Enc, coded: bool, session: U64)
    requires ErasureContract(lib) && Pure(e.pending, session) && 0 < |e.pending| <= e.params.k
    requires e.rsParity >= 0 && lib.supports(e.params.k, e.rsParity) && (coded ==> |e.pending| == e.params.k)
    requires NextId(e) > 0
    ensures ValidBlock(lib, e.params.k, SealedBlock(e, coded))
  {
    assert Shape(lib, e.params.k, e.rsParity);
    MaxLenBelow(Datums(e.pending), |e.pending|);
  }

  lemma {:induction false} MaxLenBelow(data: seq<Datum>, n: nat)
    requires n <= |data| && forall i :: 0 <= i < |data| ==> |data[i].payload| < 0x1_0000
    ensures MaxLenTo(data, n) < 0x1_0000
  {
    if n > 0 { MaxLenBelow(data, n - 1); }
  }

  /** The frames Seal emits are exactly the frames of the sealed block, one for each index. */
  lemma SealedFrames(lib: Library, e: Enc, coded: bool, session: U64)
    requires ErasureContract(lib) && Pure(e.pending, session) && 0 < |e.pending| && e.params.k > 0
    requires e.rsParity >= 0 && lib.supports(e.params.k, e.rsParity) && (coded ==> |e.pending| == e.params.k)
    ensures var b := SealedBlock(e, coded);
            var out := Seal(lib, e, coded).1;
            |out| == |b.data| + b.p && forall i: nat :: i < |out| ==> IsFrame(lib, b, i, out[i])
  {
    var b := SealedBlock(e, coded);
    var data, parity := Stamp(e.pending, b.id), ParityFrames(lib, b);
    var k := |b.data|;
    StampedFrames(lib, e, b, session);
    SealedParity(lib, b);
    forall i: nat | i < k + b.p ensures IsFrame(lib, b, i, (data + parity)[i]) {
      if i < k {
        assert (data + parity)[i] == data[i];
      } else {
        assert (data + parity)[i] == parity[i - k];
      }
    }
  }

  lemma StampedFrames(lib: Library, e: Enc, b: Block, session: U64)
    requires Pure(e.pending, session) && b.session == session && b.data == Datums(e.pending)
    ensures forall i: nat :: i < |b.data| ==> IsFrame(lib, b, i, Stamp(e.pending, b.id)[i])
  {
    forall i: nat | i < |b.data| ensures IsFrame(lib, b, i, Stamp(e.pending, b.id)[i]) {
      assert e.pending[i] == Frame(0, 0, session, e.pending[i].seqNo, 0, e.pending[i].payload);
    }
  }

  lemma SealedParity(lib: Library, b: Block)
    requires ErasureContract(lib)
    requires b.p > 0 ==> lib.supports(|b.data|, b.p) && MaxLen(b.data) > 0
    ensures forall j: nat :: j < b.p ==> IsFrame(lib, b, |b.data| + j, ParityFrames(lib, b)[j])
  {
    if b.p > 0 {
      assert EncodesTo(lib, Code(|b.data|, b.p), DataShards(b.data), MaxLen(b.data));
      forall j: nat | j < b.p ensures IsFrame(lib, b, |b.data| + j, ParityFrames(lib, b)[j]) {
        assert ParityFrames(lib, b)[j] == ParityFrame(b, ParityShards(lib, b)[j], j);
      }
    }
  }

  lemma AccountedGrows(lib: Library, t: Trace, u: Trace, f: Frame)
    requires Accounted(lib, t, f) && t.pushed <= u.pushed && t.blocks <= u.blocks
    ensures Accounted(lib, u, f)
  {
    if IsUncoded(t.pushed, f) {
      var j :| 0 <= j < |t.pushed| && IdOf(t.pushed[j]) == IdOf(f);
      assert u.pushed[j] == t.pushed[j];
    } else {
      var n: nat, i: nat :| IsCoded(lib, t.blocks, f, n, i);
      assert IsCoded(lib, u.blocks, f, n, i);
    }
  }

  lemma PureSuffix(frames: seq<Frame>, session: U64, n: nat)
    requires Pure(frames, session) && n <= |frames|
    ensures Pure(frames[|frames| - n..], session)
  {}

  /** The frames waiting when an event arrives, with the event's own. */
  lemma PendingPure(t: Trace, ev: Event, session: U64)
    requires Pure(t.pushed + Input(ev), session)
    requires |t.enc.pending| <= |t.pushed| && t.enc.pending == t.pushed[|t.pushed| - |t.enc.pending|..]
    ensures Pure(t.enc.pending + Input(ev), session)
  {
    var all := t.pushed + Input(ev);
    PureSuffix(all, session, |t.enc.pending| + |Input(ev)|);
    assert all[|t.pushed| - |t.enc.pending|..] == t.enc.pending + Input(ev);
  }

  /** What a step emits: the frames of the block it seals, or waiting frames uncoded. */
  lemma StepOutput(lib: Library, e: Enc, ev: Event, session: U64)
    requires ErasureContract(lib) && Invariant(lib, e) && Pure(e.pending + Input(ev), session)
    ensures var out := Step(lib, e, ev).1;
            match Sealing(lib, e, ev)
            case Some(b) =>
              && b.session == session && b.id == NextId(e)
              && (b.id > 0 ==> ValidBlock(lib, e.params.k, b))
              && |out| == |b.data| + b.p && forall i: nat :: i < |out| ==> IsFrame(lib, b, i, out[i])
            case None => forall f :: f in out ==> IsUncoded(e.pending + Input(ev), f)
  {
    if ev.LossSet? || !Enabled(e.params) {
      if ev.Pushed? {
        assert e.pending + [ev.f] == [ev.f];
        UncodedOut([ev.f], session);
      }
    } else {
      RefreshKeeps(lib, e, ev.now);
      var d := Refresh(lib, e, ev.now);
      if !d.codingOn {
        UncodedOut(e.pending + Input(ev), session);
      } else if ev.Pushed? {
        var filled := d.(pending := d.pending + [ev.f], blockStart := if d.pending == [] then ev.now else d.blockStart);
        if |filled.pending| >= d.params.k {
          assert Sealing(lib, e, ev) == Some(SealedBlock(filled, true));
          SealedFrames(lib, filled, true, session);
          if NextId(filled) > 0 { SealedValid(lib, filled, true, session); }
        }
      } else if d.pending != [] && ev.now >= d.blockStart + d.params.timeout {
        assert e.pending + Input(ev) == d.pending;
        SealedFrames(lib, d, false, session);
        if NextId(d) > 0 { SealedValid(lib, d, false, session); }
      }
    }
  }

  lemma UncodedOut(frames: seq<Frame>, session: U64)
    requires Pure(frames, session)
    ensures forall f :: f in MarkAll(frames) ==> IsUncoded(frames, f)
    ensures forall f :: f in frames ==> IsUncoded(frames, f)
  {
    forall f | f in MarkAll(frames) ensures IsUncoded(frames, f) {
      var i :| 0 <= i < |frames| && MarkAll(frames)[i] == f;
      assert IdOf(frames[i]) == IdOf(f);
    }
    forall f | f in frames ensures IsUncoded(frames, f) {
      var i :| 0 <= i < |frames| && frames[i] == f;
      assert IdOf(frames[i]) == IdOf(f);
    }
  }

  lemma ExtendHonest(lib: Library, t: Trace, ev: Event, session: U64)
    requires ErasureContract(lib) && Invariant(lib, t.enc) && HonestTrace(lib, t, session)
    requires Pure(t.pushed + Input(ev), session)
    ensures HonestTrace(lib, Extend(lib, t, ev), session)
  {
    PendingPure(t, ev, session);
    StepOutput(lib, t.enc, ev, session);
    StepShape(lib, t, ev);
    ExtendBlocks(lib, t, ev, session);
    forall f | f in Extend(lib, t, ev).emitted ensures Accounted(lib, Extend(lib, t, ev), f) {
      ExtendEmitted(lib, t, ev, session, f);
    }
  }

  lemma ExtendBlocks(lib: Library, t: Trace, ev: Event, session: U64)
    requires ErasureContract(lib) && Invariant(lib, t.enc) && HonestTrace(lib, t, session)
    requires Pure(t.enc.pending + Input(ev), session)
    ensures var blocks := Extend(lib, t, ev).blocks;
            && (forall n :: 0 <= n < |blocks| ==> blocks[n].id == (n + 1) % TWO32 && blocks[n].session == session)
            && (|blocks| < TWO32 ==> forall n :: 0 <= n < |blocks| ==> ValidBlock(lib, t.enc.params.k, blocks[n]))
  {
    StepOutput(lib, t.enc, ev, session);
    if Sealing(lib, t.enc, ev).Some? {
      BlocksMore(lib, t.enc.params.k, t.blocks, Sealing(lib, t.enc, ev).value, t.enc.blocksCoded, session);
    }
  }

  lemma BlocksMore(lib: Library, k: nat, blocks: seq<Block>, b: Block, count: nat, session: U64)
    requires |blocks| == count && b.id == (count % TWO32 + 1) % TWO32 && b.session == session
    requires forall n :: 0 <= n < |blocks| ==> blocks[n].id == (n + 1) % TWO32 && blocks[n].session == session
    requires |blocks| < TWO32 ==> forall n :: 0 <= n < |blocks| ==> ValidBlock(lib, k, blocks[n])
    requires b.id > 0 ==> ValidBlock(lib, k, b)
    ensures var more := blocks + [b];
            && (forall n :: 0 <= n < |more| ==> more[n].id == (n + 1) % TWO32 && more[n].session == session)
            && (|more| < TWO32 ==> forall n :: 0 <= n < |more| ==> ValidBlock(lib, k, more[n]))
  {
    NextCount(count);
  }

  lemma ExtendEmitted(lib: Library, t: Trace, ev: Event, session: U64, f: Frame)
    requires ErasureContract(lib) && Invariant(lib, t.enc) && HonestTrace(lib, t, session)
    requires Pure(t.enc.pending + Input(ev), session) && f in Extend(lib, t, ev).emitted
    ensures Accounted(lib, Extend(lib, t, ev), f)
  {
    var u := Extend(lib, t, ev);
    if f in t.emitted {
      AccountedGrows(lib, t, u, f);
    } else {
      NewlyEmitted(lib, t, ev, session, f);
    }
  }

  lemma NewlyEmitted(lib: Library, t: Trace, ev: Event, session: U64, f: Frame)
    requires ErasureContract(lib) && Invariant(lib, t.enc) && HonestTrace(lib, t, session)
    requires Pure(t.enc.pending + Input(ev), session) && f in Step(lib, t.enc, ev).1
    ensures Accounted(lib, Extend(lib, t, ev), f)
  {
    hide Step;
    hide Sealing;
    hide ErasureContract;
    hide Pure;
    hide ValidBlock;
    hide IsFrame;
    hide IsUncoded;
    StepOutput(lib, t.enc, ev, session);
    StepShape(lib, t, ev);
    var u, out := Extend(lib, t, ev), Step(lib, t.enc, ev).1;
    var i: nat :| i < |out| && out[i] == f;
    match Sealing(lib, t.enc, ev)
    case Some(b) => assert IsCoded(lib, u.blocks, f, |t.blocks|, i);
    case None => UncodedSuffix(t.enc.pending + Input(ev), u.pushed, f);
  }

  lemma UncodedSuffix(part: seq<Frame>, pushed: seq<Frame>, f: Frame)
    requires IsUncoded(part, f) && |part| <= |pushed| && part == pushed[|pushed| - |part|..]
    ensures IsUncoded(pushed, f)
  {
    var j :| 0 <= j < |part| && IdOf(part[j]) == IdOf(f);
    assert pushed[|pushed| - |part| + j] == part[j];
  }

  /** The waiting frames stay the last pushed ones, and the block count follows the sealing. */
  lemma StepShape(lib: Library, t: Trace, ev: Event)
    requires Invariant(lib, t.enc)
    requires |t.enc.pending| <= |t.pushed| && t.enc.pending == t.pushed[|t.pushed| - |t.enc.pending|..]
    ensures var u := Extend(lib, t, ev);
            && u.enc.params == t.enc.params
            && |u.enc.pending| <= |u.pushed| && u.enc.pending == u.pushed[|u.pushed| - |u.enc.pending|..]
            && t.enc.pending + Input(ev) == u.pushed[|u.pushed| - |t.enc.pending + Input(ev)|..]
            && u.enc.blocksCoded == t.enc.blocksCoded + (if Sealing(lib, t.enc, ev).Some? then 1 else 0)
  {
    StepPending(lib, t.enc, ev);
  }

  lemma StepPending(lib: Library, e: Enc, ev: Event)
    requires Invariant(lib, e)
    ensures var d := Step(lib, e, ev).0;
            && d.params == e.params
            && (d.pending == [] || d.pending == e.pending + Input(ev))
            && d.blocksCoded == e.blocksCoded + (if Sealing(lib, e, ev).Some? then 1 else 0)
  {
    match ev {
      case Pushed(f, now) => RefreshKeeps(lib, e, now);
      case Ticked(now) => RefreshKeeps(lib, e, now);
      case LossSet(rate, now) => RefreshKeeps(lib, e.(loss := Clamp(rate)), now);
    }
    if !ev.Pushed? {
      assert e.pending + Input(ev) == e.pending;
    }
  }

  /**
   In every run over honest pushes: the n-th sealed block has id n and is a valid block, and every emitted
   frame is either a frame of a sealed block or a pushed frame uncoded.
   */
  lemma {:induction false} EmissionHonest(lib: Library, e0: Enc, evs: seq<Event>, session: U64)
    requires ErasureContract(lib) && Invariant(lib, e0) && e0.pending == [] && e0.blocksCoded == 0
    requires Pure(Run(lib, e0, evs).pushed, session)
    ensures HonestTrace(lib, Run(lib, e0, evs), session)
  {
    if evs != [] {
      var t := Run(lib, e0, evs[..|evs| - 1]);
      var ev := evs[|evs| - 1];
      assert forall i :: 0 <= i < |t.pushed| ==> (t.pushed + Input(ev))[i] == t.pushed[i];
      EmissionHonest(lib, e0, evs[..|evs| - 1], session);
      ExtendHonest(lib, t, ev, session);
    }
  }
}
