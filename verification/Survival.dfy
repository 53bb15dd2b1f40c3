/**
 Losing a whole WAN: the frames of a cross-path block are spread by smooth weighted round-robin, so one path
 carries only its share, and the block's parity covers it.
 */
module Survival {
  import opened Bytes
  import opened FecBlock
  import opened FecDecoder
  import opened FecAssembly
  import opened FecReassembly
  import opened FecDecoderRuns
  import opened FecRoundTrip
  import opened Erasure
  import FecEncoder
  import FecRuns
  import FecSizing
  import Sender
  import SmoothWrr

  /** Frame j of the block left on path picks[from + j]; these are the ones that did not leave on path i. */
  ghost function Surviving(picks: seq<nat>, from: nat, len: nat, i: nat): (s: set<nat>)
    requires from + len <= |picks|
    ensures s <= Range(len)
  {
    set j | j in Range(len) && picks[from + j] != i
  }

  lemma {:induction false} SurvivingSize(picks: seq<nat>, from: nat, len: nat, i: nat)
    requires from + len <= |picks|
    ensures |Surviving(picks, from, len, i)|
         == len - (SmoothWrr.Count(picks, i, from + len) - SmoothWrr.Count(picks, i, from))
  {
    hide Surviving;
    if len > 0 {
      SurvivingSize(picks, from, len - 1, i);
      OneLonger(picks, from, len - 1, i);
      assert from + len - 1 + 1 == from + len;
    } else {
      NoneSurvive(picks, from, i);
    }
  }

  lemma NoneSurvive(picks: seq<nat>, from: nat, i: nat)
    requires from <= |picks|
    ensures Surviving(picks, from, 0, i) == {}
  {}

  lemma OneLonger(picks: seq<nat>, from: nat, len: nat, i: nat)
    requires from + len < |picks|
    ensures var before := Surviving(picks, from, len, i);
            |Surviving(picks, from, len + 1, i)| == |before| + if picks[from + len] != i then 1 else 0
  {
    var before, after := Surviving(picks, from, len, i), Surviving(picks, from, len + 1, i);
    assert len !in before;
    if picks[from + len] != i {
      assert after == before + {len};
    } else {
      assert after == before;
    }
  }

  /** The block can be handed on whole: by rebuilding, or with every data frame at hand. */
  ghost function Enough(b: Block): set<nat> -> bool {
    left => Complete(b, left) || DataPart(b, left) == Range(|b.data|)
  }

  /** A run of picks over paths of equal weight, all accumulators zero at the start. */
  ghost predicate EqualRun(w: seq<real>, st: seq<seq<real>>, picks: seq<nat>) {
    SmoothWrr.Weights(w) && SmoothWrr.IsRun(w, st, picks) && forall j :: 0 <= j < |w| ==> w[j] == w[0]
  }

  /** Whoever loses at most p of the k+p frames keeps the block. */
  lemma EnoughLeft(b: Block, left: set<nat>)
    requires left <= Range(|b.data| + b.p) && |left| >= |b.data|
    ensures Enough(b)(left)
  {
    PartsSize(b, left);
    if ParityPart(b, left) == {} {
      assert DataPart(b, left) <= Range(|b.data|);
      SubsetSize(DataPart(b, left), Range(|b.data|));
    }
  }

  /** A share of q*m[i] frames that the parity covers. */
  lemma ShareCovered(w: seq<real>, m: seq<nat>, round: nat, st: seq<seq<real>>, picks: seq<nat>, from: nat, b: Block,
                     q: nat, i: nat)
    requires SmoothWrr.Weights(w) && SmoothWrr.Shares(w, m, round) && SmoothWrr.IsRun(w, st, picks) && i < |w|
    requires from + |b.data| + b.p <= |picks| && |b.data| + b.p <= q * round && q * m[i] <= b.p
    ensures Enough(b)(Surviving(picks, from, |b.data| + b.p, i))
  {
    FewLost(w, m, round, st, picks, from, |b.data| + b.p, q, i, b.p);
    EnoughLeft(b, Surviving(picks, from, |b.data| + b.p, i));
  }

  lemma FewLost(w: seq<real>, m: seq<nat>, round: nat, st: seq<seq<real>>, picks: seq<nat>, from: nat, len: nat, q: nat,
                i: nat, p: nat)
    requires SmoothWrr.Weights(w) && SmoothWrr.Shares(w, m, round) && SmoothWrr.IsRun(w, st, picks) && i < |w|
    requires from + len <= |picks| && len <= q * round && q * m[i] <= p
    ensures |Surviving(picks, from, len, i)| >= len - p
  {
    SmoothWrr.WindowShare(w, m, round, st, picks, from, len, q, i);
    SurvivingSize(picks, from, len, i);
  }

  /** N paths of equal weight lose at most one frame in N each: k <= (N-1)p is enough. */
  lemma EqualShareCovered(w: seq<real>, st: seq<seq<real>>, picks: seq<nat>, from: nat, b: Block, i: nat,
                          left: set<nat>)
    requires EqualRun(w, st, picks) && i < |w|
    requires from + |b.data| + b.p <= |picks| && |b.data| <= (|w| - 1) * b.p
    requires left == Surviving(picks, from, |b.data| + b.p, i)
    ensures Enough(b)(left)
  {
    SmoothWrr.EqualShares(w);
    Spread(|w|, b.p);
    ShareCovered(w, seq(|w|, _ => 1), |w|, st, picks, from, b, b.p, i);
  }

  lemma Spread(n: nat, p: nat)
    requires n > 0
    ensures (n - 1) * p + p == p * n && p * 1 == p
  {}

  // ---------------------------------------------------------------------
  // The decoder hands the block on.

  /** One act up to act n hands on the whole block, and no other flushes it. */
  ghost predicate WholeAndOnce(lib: Library, reg: Registry, d: Dec, acts: seq<Act>, key: BlockKey, n: nat)
    requires Sound(d) && n < |acts| && key in reg
  {
    exists j: nat :: j <= n && WholeAt(lib, reg, d, acts, key, n, j)
  }

  ghost predicate WholeAt(lib: Library, reg: Registry, d: Dec, acts: seq<Act>, key: BlockKey, n: nat, j: nat)
    requires Sound(d) && j <= n < |acts| && key in reg
  {
    && HandsOnPart(Answer(lib, d, acts, j), key, Content(reg[key]))
    && forall i: nat :: i <= n && i != j ==> key !in Answer(lib, d, acts, i).done
  }

  lemma OnlyOnce(lib: Library, d: Dec, acts: seq<Act>, key: BlockKey, i: nat, j: nat)
    requires Sound(d) && i < |acts| && j < |acts| && i != j && key in Answer(lib, d, acts, j).done
    ensures key !in Answer(lib, d, acts, i).done
  {
    if i > j {
      NotTwice(lib, d, acts, key, j, i);
    } else if key in Answer(lib, d, acts, i).done {
      NotTwice(lib, d, acts, key, i, j);
    }
  }

  lemma OnlyThere(lib: Library, reg: Registry, d: Dec, acts: seq<Act>, key: BlockKey, n: nat, j: nat)
    requires Sound(d) && j <= n < |acts| && key in reg
    requires HandsOnPart(Answer(lib, d, acts, j), key, Content(reg[key]))
    ensures WholeAt(lib, reg, d, acts, key, n, j)
  {
    PartIsFlushed(Answer(lib, d, acts, j), key, Content(reg[key]));
    forall i: nat | i <= n && i != j ensures key !in Answer(lib, d, acts, i).done {
      OnlyOnce(lib, d, acts, key, i, j);
    }
  }

  lemma WholeIsPart(reg: Registry, key: BlockKey, o: Outcome)
    requires HandsOn(reg, key, o)
    ensures HandsOnPart(o, key, Content(reg[key]))
  {
    var x := Delivery(key, Content(reg[key]));
    JoinedOne(x);
    FecRuns.ForSnoc([], x, key);
    assert [] + [x] == [x];
    assert Delivers(o, [x]);
  }

  /** What arrived by the deadline suffices: the block is handed on whole and once, whatever else happened meanwhile. */
  lemma EnoughArrived(lib: Library, k: nat, reg: Registry, w: World, d: Dec, acts: seq<Act>, evs: seq<FecRuns.Event>,
                      key: BlockKey, n: nat)
    requires Honest(lib, k, reg, w, d, acts, evs) && n < |acts| && Opens(d, acts, evs, key, n) && key in reg
    requires evs[n].Expiry? && evs[n].now >= evs[0].deadline
    requires Enough(reg[key])(FecRuns.Arrivals(evs, key, n))
    ensures WholeAndOnce(lib, reg, d, acts, key, n)
  {
    if Complete(reg[key], FecRuns.Arrivals(evs, key, n)) {
      var j := CompletedAt(reg[key], evs, key, n);
      OpensEarlier(d, acts, evs, key, n, j + 1);
      ErasureRoundTrip(lib, k, reg, w, d, acts, evs, key, j);
      WholeIsPart(reg, key, Answer(lib, d, acts, j));
      OnlyThere(lib, reg, d, acts, key, n, j);
    } else {
      DeadlineHandsOn(lib, k, reg, w, d, acts, evs, key, n);
      OnlyThere(lib, reg, d, acts, key, n, n);
    }
  }

  lemma EnoughGrows(b: Block, left: set<nat>, arrived: set<nat>)
    requires Enough(b)(left) && left <= arrived
    ensures Enough(b)(arrived)
  {
    if Complete(b, left) {
      FecRuns.CompleteGrows(b, left, arrived);
    } else {
      assert DataPart(b, left) <= DataPart(b, arrived) <= Range(|b.data|);
    }
  }

  /** Every frame of the block that did not leave on the lost path arrives before the deadline tick at act n. */
  ghost predicate OthersArrive(evs: seq<FecRuns.Event>, key: BlockKey, n: nat, picks: seq<nat>, from: nat, b: Block,
                               gone: nat)
    requires n <= |evs| && from + |b.data| + b.p <= |picks|
  {
    Surviving(picks, from, |b.data| + b.p, gone) <= FecRuns.Arrivals(evs, key, n)
  }

  /**
   Paths of any weights, one of them gone: when the lost path's share of the block is at most its p parity frames,
   the decoder hands the block on whole and once. q rounds cover the block, m[gone] is the path's share of a round.
   */
  lemma LostShareSurvives(lib: Library, k: nat, reg: Registry, w: World, d: Dec, acts: seq<Act>,
                          evs: seq<FecRuns.Event>, key: BlockKey, n: nat, weights: seq<real>, m: seq<nat>, round: nat,
                          st: seq<seq<real>>, picks: seq<nat>, from: nat, q: nat, gone: nat)
    requires Honest(lib, k, reg, w, d, acts, evs) && n < |acts| && Opens(d, acts, evs, key, n) && key in reg
    requires evs[n].Expiry? && evs[n].now >= evs[0].deadline
    requires SmoothWrr.Weights(weights) && SmoothWrr.Shares(weights, m, round) && SmoothWrr.IsRun(weights, st, picks)
    requires gone < |weights| && from + |reg[key].data| + reg[key].p <= |picks|
    requires |reg[key].data| + reg[key].p <= q * round && q * m[gone] <= reg[key].p
    requires OthersArrive(evs, key, n, picks, from, reg[key], gone)
    ensures WholeAndOnce(lib, reg, d, acts, key, n)
  {
    var b := reg[key];
    ShareCovered(weights, m, round, st, picks, from, b, q, gone);
    EnoughGrows(b, Surviving(picks, from, |b.data| + b.p, gone), FecRuns.Arrivals(evs, key, n));
    EnoughArrived(lib, k, reg, w, d, acts, evs, key, n);
  }

  /**
   N paths of equal weight, any one of them gone: when k <= (N-1)p, a block of k data and p parity frames that loses
   every frame sent on that path, while the others arrive in any order amid any traffic, is handed on whole and once.
   */
  lemma WholeWanSurvives(lib: Library, k: nat, reg: Registry, w: World, d: Dec, acts: seq<Act>, evs: seq<FecRuns.Event>,
                         key: BlockKey, n: nat, weights: seq<real>, st: seq<seq<real>>, picks: seq<nat>, from: nat,
                         gone: nat)
    requires Honest(lib, k, reg, w, d, acts, evs) && n < |acts| && Opens(d, acts, evs, key, n) && key in reg
    requires evs[n].Expiry? && evs[n].now >= evs[0].deadline
    requires EqualRun(weights, st, picks) && gone < |weights|
    requires from + |reg[key].data| + reg[key].p <= |picks| && |reg[key].data| <= (|weights| - 1) * reg[key].p
    requires OthersArrive(evs, key, n, picks, from, reg[key], gone)
    ensures WholeAndOnce(lib, reg, d, acts, key, n)
  {
    var b, left := reg[key], Surviving(picks, from, |reg[key].data| + reg[key].p, gone);
    EqualShareCovered(weights, st, picks, from, b, gone, left);
    EnoughGrows(b, left, FecRuns.Arrivals(evs, key, n));
    EnoughArrived(lib, k, reg, w, d, acts, evs, key, n);
  }

  // ---------------------------------------------------------------------
  // From the cross-path encoder to the decoder.

  /** The parity of a cross-path encoder that could be built is never cut and never changes. */
  ghost predicate FixedParity(p: FecSizing.Params) {
    p.crossPath && p.adaptive.None? && p.crossMin == p.parity && 0 < p.parity && p.k + p.parity <= FecSizing.MAX_SHARDS
  }

  lemma FixedForAnyLoss(p: FecSizing.Params, loss: real)
    requires FixedParity(p)
    ensures FecSizing.ParityForLoss(p, loss) == p.parity
  {}

  /**
   Whenever the library accepts the geometry, cross-path coding at protection level 1 has at least k parity frames in
   every coded block, whatever the loss: enough to lose one of any two or more paths of equal weight.
   */
  lemma FullProtection(lib: Library, c: FecSizing.Config, wanPct: Option<real>, loss: real)
    requires ErasureContract(lib) && c.enabled && c.mode.CrossPath?
    requires FecEncoder.Fresh(lib, FecSizing.ParamsFor(c, wanPct).value).Some?
    ensures var p := FecEncoder.Fresh(lib, FecSizing.ParamsFor(c, wanPct).value).value.params;
            && FixedParity(p) && FecSizing.ParityForLoss(p, loss) == p.parity
            && (c.protectionLevel >= 1.0 ==> p.k <= p.parity)
  {
    var p := FecSizing.ParamsFor(c, wanPct).value;
    FecSizing.CrossPathFloor(c, wanPct, loss);
    assert Shape(lib, p.k, p.parity);
  }

  lemma RefreshKeepsParity(lib: Library, e: FecEncoder.Enc, now: int)
    requires FecEncoder.Ready(e) && FixedParity(e.params) && e.rsParity == e.params.parity
    ensures var d := FecEncoder.Refresh(lib, e, now); d.params == e.params && d.rsParity == e.params.parity
  {
    FixedForAnyLoss(e.params, e.loss);
  }

  /** A block of k frames, one of which carries something. */
  ghost predicate Full(k: nat, b: Block) {
    |b.data| == k && exists i :: 0 <= i < |b.data| && b.data[i].payload != []
  }

  lemma StepKeepsParity(lib: Library, e: FecEncoder.Enc, ev: FecEncoder.Event)
    requires FecEncoder.Invariant(lib, e) && FixedParity(e.params) && e.rsParity == e.params.parity
    ensures var d := FecEncoder.Step(lib, e, ev).0; d.params == e.params && d.rsParity == e.params.parity
    ensures var b := FecEncoder.Sealing(lib, e, ev);
            b.Some? && Full(e.params.k, b.value) ==> b.value.p == e.params.parity
  {
    match ev
    case Pushed(f, now) => RefreshKeepsParity(lib, e, now);
    case Ticked(now) => RefreshKeepsParity(lib, e, now);
    case LossSet(rate, now) => RefreshKeepsParity(lib, e.(loss := FecEncoder.Clamp(rate)), now);
  }

  lemma {:induction false} RunKeepsParity(lib: Library, e0: FecEncoder.Enc, evs: seq<FecEncoder.Event>)
    requires FecEncoder.Invariant(lib, e0) && FixedParity(e0.params) && e0.rsParity == e0.params.parity
    ensures var e := FecEncoder.Run(lib, e0, evs).enc; e.params == e0.params && e.rsParity == e0.params.parity
    decreases |evs|
  {
    if evs != [] {
      RunKeepsParity(lib, e0, evs[..|evs| - 1]);
      StepKeepsParity(lib, FecEncoder.Run(lib, e0, evs[..|evs| - 1]).enc, evs[|evs| - 1]);
    }
  }

  /** What was emitted and sealed by some event stays where it is as the run goes on. */
  lemma {:induction false} RunGrows(lib: Library, e0: FecEncoder.Enc, evs: seq<FecEncoder.Event>, j: nat)
    requires FecEncoder.Invariant(lib, e0) && j <= |evs|
    ensures var t, u := FecEncoder.Run(lib, e0, evs[..j]), FecEncoder.Run(lib, e0, evs);
            t.blocks <= u.blocks && |t.emitted| <= |u.emitted|
    decreases |evs|
  {
    if j == |evs| {
      assert evs[..j] == evs;
    } else {
      var init := evs[..|evs| - 1];
      assert init[..j] == evs[..j];
      RunGrows(lib, e0, init, j);
    }
  }

  /** Event j of the encoder's run seals this block; its frames are the emitted ones from number `from` on. */
  ghost predicate Seals(lib: Library, e0: FecEncoder.Enc, evs: seq<FecEncoder.Event>, j: nat, b: Block, from: nat)
    requires FecEncoder.Invariant(lib, e0) && j < |evs|
  {
    var t := FecEncoder.Run(lib, e0, evs[..j]);
    FecEncoder.Sealing(lib, t.enc, evs[j]) == Some(b) && from == |t.emitted|
  }

  lemma SealedInRun(lib: Library, e0: FecEncoder.Enc, evs: seq<FecEncoder.Event>, j: nat, b: Block, from: nat,
                    session: U64)
    requires ErasureContract(lib) && FecEncoder.Invariant(lib, e0) && e0.pending == [] && e0.blocksCoded == 0
    requires FecEncoder.Pure(FecEncoder.Run(lib, e0, evs).pushed, session) && j < |evs|
    requires Seals(lib, e0, evs, j, b, from)
    requires |FecEncoder.Run(lib, e0, evs).blocks| < FecEncoder.TWO32
    ensures var u := FecEncoder.Run(lib, e0, evs);
            && 0 < b.id <= |u.blocks| && u.blocks[b.id - 1] == b
            && from + |b.data| + b.p <= |u.emitted| && ValidBlock(lib, u.enc.params.k, b)
  {
    var n := BlockPlaced(lib, e0, evs, j, b, from, session);
    FecEncoder.EmissionHonest(lib, e0, evs, session);
    BlockNumbered(lib, FecEncoder.Run(lib, e0, evs), session, n, b);
  }

  lemma BlockNumbered(lib: Library, u: FecEncoder.Trace, session: U64, n: nat, b: Block)
    requires FecEncoder.HonestTrace(lib, u, session) && |u.blocks| < FecEncoder.TWO32
    requires n < |u.blocks| && u.blocks[n] == b
    ensures b.id == n + 1 && ValidBlock(lib, u.enc.params.k, b)
  {
    assert u.blocks[n].id == (n + 1) % FecEncoder.TWO32;
  }

  /** The sealed block is the last one then, its frames end what was emitted then, and both stay where they are. */
  lemma BlockPlaced(lib: Library, e0: FecEncoder.Enc, evs: seq<FecEncoder.Event>, j: nat, b: Block, from: nat,
                    session: U64)
    returns (n: nat)
    requires ErasureContract(lib) && FecEncoder.Invariant(lib, e0) && e0.pending == [] && e0.blocksCoded == 0
    requires FecEncoder.Pure(FecEncoder.Run(lib, e0, evs).pushed, session) && j < |evs|
    requires Seals(lib, e0, evs, j, b, from)
    ensures var u := FecEncoder.Run(lib, e0, evs);
            n < |u.blocks| && u.blocks[n] == b && from + |b.data| + b.p <= |u.emitted|
  {
    hide FecEncoder.Step;
    hide ErasureContract;
    hide FecEncoder.Invariant;
    SealingStep(lib, e0, evs, j, b, from);
    RunGrows(lib, e0, evs, j + 1);
    PrefixPushed(lib, e0, evs, j, session);
    SealedLength(lib, e0, evs, j, b, from, session);
    LastOfPrefix(FecEncoder.Run(lib, e0, evs[..j + 1]).blocks, FecEncoder.Run(lib, e0, evs).blocks);
    n := |FecEncoder.Run(lib, e0, evs[..j + 1]).blocks| - 1;
  }

  lemma LastOfPrefix(blocks: seq<Block>, all: seq<Block>)
    requires blocks <= all && blocks != []
    ensures all[|blocks| - 1] == blocks[|blocks| - 1]
  {}

  lemma SealingStep(lib: Library, e0: FecEncoder.Enc, evs: seq<FecEncoder.Event>, j: nat, b: Block, from: nat)
    requires FecEncoder.Invariant(lib, e0) && j < |evs| && Seals(lib, e0, evs, j, b, from)
    ensures var t := FecEncoder.Run(lib, e0, evs[..j + 1]);
            && |t.blocks| > 0 && t.blocks[|t.blocks| - 1] == b
            && |t.emitted| == from + |FecEncoder.Step(lib, FecEncoder.Run(lib, e0, evs[..j]).enc, evs[j]).1|
  {
    assert evs[..j + 1][..j] == evs[..j] && evs[..j + 1][j] == evs[j];
  }

  lemma {:induction false} PrefixPushed(lib: Library, e0: FecEncoder.Enc, evs: seq<FecEncoder.Event>, j: nat,
                                        session: U64)
    requires FecEncoder.Invariant(lib, e0) && j < |evs| && FecEncoder.Pure(FecEncoder.Run(lib, e0, evs).pushed, session)
    ensures FecEncoder.Pure(FecEncoder.Run(lib, e0, evs[..j + 1]).pushed, session)
    decreases |evs|
  {
    if j + 1 == |evs| {
      assert evs[..j + 1] == evs;
    } else {
      var init, ev := evs[..|evs| - 1], evs[|evs| - 1];
      assert init[..j + 1] == evs[..j + 1];
      Sender.PrefixPure(FecEncoder.Run(lib, e0, init).pushed, FecEncoder.Input(ev), session);
      PrefixPushed(lib, e0, init, j, session);
    }
  }

  lemma SealedLength(lib: Library, e0: FecEncoder.Enc, evs: seq<FecEncoder.Event>, j: nat, b: Block, from: nat,
                     session: U64)
    requires ErasureContract(lib) && FecEncoder.Invariant(lib, e0) && e0.pending == [] && e0.blocksCoded == 0
    requires j < |evs| && Seals(lib, e0, evs, j, b, from)
    requires FecEncoder.Pure(FecEncoder.Run(lib, e0, evs[..j + 1]).pushed, session)
    ensures |FecEncoder.Step(lib, FecEncoder.Run(lib, e0, evs[..j]).enc, evs[j]).1| == |b.data| + b.p
  {
    var t := FecEncoder.Run(lib, e0, evs[..j]);
    assert evs[..j + 1][..j] == evs[..j] && evs[..j + 1][j] == evs[j];
    Sender.PrefixPure(t.pushed, FecEncoder.Input(evs[j]), session);
    FecEncoder.EmissionHonest(lib, e0, evs[..j], session);
    FecEncoder.PendingPure(t, evs[j], session);
    FecEncoder.StepOutput(lib, t.enc, evs[j], session);
  }

  /** A run of a cross-path encoder from its start, in which event j seals this full block. */
  ghost predicate Dispatched(lib: Library, e0: FecEncoder.Enc, evs: seq<FecEncoder.Event>, session: U64, j: nat,
                             b: Block, from: nat) {
    && ErasureContract(lib) && FecEncoder.Invariant(lib, e0) && e0.pending == [] && e0.blocksCoded == 0
    && FixedParity(e0.params) && e0.rsParity == e0.params.parity
    && FecEncoder.Pure(FecEncoder.Run(lib, e0, evs).pushed, session)
    && |FecEncoder.Run(lib, e0, evs).blocks| < FecEncoder.TWO32
    && j < |evs| && Seals(lib, e0, evs, j, b, from) && Full(e0.params.k, b)
  }

  ghost function RegistryFrom(lib: Library, e0: FecEncoder.Enc, evs: seq<FecEncoder.Event>, session: U64): Registry
    requires FecEncoder.Invariant(lib, e0) && |FecEncoder.Run(lib, e0, evs).blocks| < FecEncoder.TWO32
  {
    var blocks := FecEncoder.Run(lib, e0, evs).blocks;
    Sender.RegistryOf(blocks, session, "", |blocks|)
  }

  /**
   An honest run of the receiving decoder, from the first frame of the block that arrives to a tick past its deadline.
   */
  ghost predicate Collected(lib: Library, k: nat, reg: Registry, w: World, d: Dec, acts: seq<Act>,
                            means: seq<FecRuns.Event>, key: BlockKey, n: nat) {
    && Honest(lib, k, reg, w, d, acts, means) && n < |acts| && Opens(d, acts, means, key, n)
    && means[n].Expiry? && means[n].now >= means[0].deadline
  }

  lemma DispatchedBlock(lib: Library, e0: FecEncoder.Enc, evs: seq<FecEncoder.Event>, session: U64, j: nat, b: Block,
                        from: nat)
    requires Dispatched(lib, e0, evs, session, j, b, from)
    ensures var reg, key := RegistryFrom(lib, e0, evs, session), BlockKey(session, "", b.id);
            && key in reg && reg[key] == b && |b.data| == e0.params.k && b.p == e0.params.parity
            && from + |b.data| + b.p <= |FecEncoder.Run(lib, e0, evs).emitted|
  {
    hide FecEncoder.Step;
    hide ErasureContract;
    hide FecEncoder.Invariant;
    hide FecEncoder.Run;
    hide FecEncoder.Pure;
    hide Full;
    SealedInRun(lib, e0, evs, j, b, from, session);
    RunKeepsParity(lib, e0, evs[..j]);
    StepKeepsParity(lib, FecEncoder.Run(lib, e0, evs[..j]).enc, evs[j]);
    RunKeepsParity(lib, e0, evs);
    assert |b.data| == e0.params.k by { FullSize(e0.params.k, b); }
  }

  lemma FullSize(k: nat, b: Block)
    requires Full(k, b)
    ensures |b.data| == k
  {
  }

  /**
   From encoder to decoder: a cross-path encoder whose emitted frames leave by consecutive picks over N paths of equal
   weight, k <= (N-1)p. Every full block it seals is handed on whole and once although all its frames on one
   path are lost, provided the others arrive before the deadline and no later block is flushed before the first of them.
   */
  lemma CrossPathProtects(lib: Library, e0: FecEncoder.Enc, evs: seq<FecEncoder.Event>, session: U64, j: nat, b: Block,
                          from: nat, weights: seq<real>, st: seq<seq<real>>, picks: seq<nat>, gone: nat, w: World,
                          d: Dec, acts: seq<Act>, means: seq<FecRuns.Event>, n: nat)
    requires Dispatched(lib, e0, evs, session, j, b, from)
    requires EqualRun(weights, st, picks) && gone < |weights| && |picks| >= |FecEncoder.Run(lib, e0, evs).emitted|
    requires e0.params.k <= (|weights| - 1) * e0.params.parity
    requires Collected(lib, e0.params.k, RegistryFrom(lib, e0, evs, session), w, d, acts, means,
                       BlockKey(session, "", b.id), n)
    requires from + |b.data| + b.p <= |picks| ==>
               OthersArrive(means, BlockKey(session, "", b.id), n, picks, from, b, gone)
    ensures var reg, key := RegistryFrom(lib, e0, evs, session), BlockKey(session, "", b.id);
            key in reg && reg[key] == b && WholeAndOnce(lib, reg, d, acts, key, n)
  {
    DispatchedBlock(lib, e0, evs, session, j, b, from);
    var reg, key := RegistryFrom(lib, e0, evs, session), BlockKey(session, "", b.id);
    WholeWanSurvives(lib, e0.params.k, reg, w, d, acts, means, key, n, weights, st, picks, from, gone);
  }

  /** The encoder NewEncoder makes of a cross-path configuration at protection level 1 or more. */
  ghost function AtLevelOne(lib: Library, c: FecSizing.Config, wanPct: Option<real>): FecEncoder.Enc -> bool {
    (e: FecEncoder.Enc) =>
      && c.enabled && c.mode.CrossPath? && c.protectionLevel >= 1.0
      && FecEncoder.Fresh(lib, FecSizing.ParamsFor(c, wanPct).value) == Some(e)
  }

  lemma LevelOneCovers(lib: Library, c: FecSizing.Config, wanPct: Option<real>, e0: FecEncoder.Enc, paths: nat)
    requires ErasureContract(lib) && AtLevelOne(lib, c, wanPct)(e0) && paths >= 2
    ensures e0.params.k <= (paths - 1) * e0.params.parity
  {
    FullProtection(lib, c, wanPct, 0.0);
    AtLeastOnce(paths - 1, e0.params.parity);
  }

  /** At protection level 1 this covers any number of equal WANs from two on, for every geometry the library accepts. */
  lemma LevelOneProtects(lib: Library, c: FecSizing.Config, wanPct: Option<real>, e0: FecEncoder.Enc,
                         evs: seq<FecEncoder.Event>, session: U64, j: nat, b: Block, from: nat, weights: seq<real>,
                         st: seq<seq<real>>, picks: seq<nat>, gone: nat, w: World, d: Dec, acts: seq<Act>,
                         means: seq<FecRuns.Event>, n: nat)
    requires ErasureContract(lib) && AtLevelOne(lib, c, wanPct)(e0) && Dispatched(lib, e0, evs, session, j, b, from)
    requires EqualRun(weights, st, picks) && |weights| >= 2 && gone < |weights|
    requires |picks| >= |FecEncoder.Run(lib, e0, evs).emitted|
    requires Collected(lib, e0.params.k, RegistryFrom(lib, e0, evs, session), w, d, acts, means,
                       BlockKey(session, "", b.id), n)
    requires from + |b.data| + b.p <= |picks| ==>
               OthersArrive(means, BlockKey(session, "", b.id), n, picks, from, b, gone)
    ensures var reg, key := RegistryFrom(lib, e0, evs, session), BlockKey(session, "", b.id);
            key in reg && reg[key] == b && WholeAndOnce(lib, reg, d, acts, key, n)
  {
    hide *;
    LevelOneCovers(lib, c, wanPct, e0, |weights|);
    CrossPathProtects(lib, e0, evs, session, j, b, from, weights, st, picks, gone, w, d, acts, means, n);
  }

  lemma AtLeastOnce(n: nat, p: nat)
    requires n >= 1
    ensures n * p >= p
  {}
}
