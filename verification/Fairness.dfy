/** What smooth weighted round-robin gives each path, stated on the paths' own states and capacities. */
module Fairness {
  import opened Scheduler
  import opened SmoothWrr
  import Health

  /** How often an identifier is among the first n. */
  ghost function Chosen(ids: seq<string>, id: string, n: nat): nat
    requires n <= |ids|
  {
    if n == 0 then 0 else Chosen(ids, id, n - 1) + if ids[n - 1] == id then 1 else 0
  }

  /** Any `round` consecutive picks choose path i exactly m[i] times. */
  ghost predicate EveryRound(paths: seq<string>, m: seq<nat>, round: nat, ids: seq<string>) {
    |m| == |paths| && forall n: nat, i: nat ::
      n + round <= |ids| && i < |paths| ==> Chosen(ids, paths[i], n + round) == Chosen(ids, paths[i], n) + m[i]
  }

  /** The paths one after the other, over and over. */
  ghost predicate InRotation(paths: seq<string>, ids: seq<string>) {
    paths != [] && forall n :: 0 <= n < |ids| ==> ids[n] == paths[n % |paths|]
  }

  /** ids names the picked paths. */
  ghost predicate Names(paths: seq<string>, picks: seq<nat>, ids: seq<string>) {
    |ids| == |picks| && forall j :: 0 <= j < |picks| ==> picks[j] < |paths| && ids[j] == paths[picks[j]]
  }

  ghost predicate AllDiffer(paths: seq<string>) { forall i, j :: 0 <= i < j < |paths| ==> paths[i] != paths[j] }

  lemma {:induction false} ChosenIsCount(paths: seq<string>, picks: seq<nat>, ids: seq<string>, i: nat, n: nat)
    requires AllDiffer(paths) && Names(paths, picks, ids) && i < |paths| && n <= |ids|
    ensures Chosen(ids, paths[i], n) == Count(picks, i, n)
  {
    if n > 0 {
      ChosenIsCount(paths, picks, ids, i, n - 1);
      assert ids[n - 1] == paths[picks[n - 1]];
    }
  }

  lemma RoundsExact(paths: seq<string>, w: seq<real>, m: seq<nat>, round: nat, st: seq<seq<real>>, picks: seq<nat>,
                    ids: seq<string>)
    requires AllDiffer(paths) && Names(paths, picks, ids) && |w| == |paths|
    requires Weights(w) && Shares(w, m, round) && IsRun(w, st, picks)
    ensures EveryRound(paths, m, round, ids)
  {
    hide IsRun;
    hide Shares;
    assert |m| == |w| by { SharesLength(w, m, round); }
    forall n: nat, i: nat | n + round <= |ids| && i < |paths|
      ensures Chosen(ids, paths[i], n + round) == Chosen(ids, paths[i], n) + m[i]
    {
      EveryRoundExact(w, m, round, st, picks, n, i);
      ChosenIsCount(paths, picks, ids, i, n);
      ChosenIsCount(paths, picks, ids, i, n + round);
    }
  }

  lemma SharesLength(w: seq<real>, m: seq<nat>, round: nat)
    requires Shares(w, m, round)
    ensures |m| == |w|
  {}

  // ---------------------------------------------------------------------
  // Shares from the fields of the paths.

  /** Healthy paths whose capacities are the positive integers m; no capacity stands for one. */
  ghost predicate Capacities(ps: seq<Path>, m: seq<nat>)
    reads ps
  {
    |m| == |ps| && forall i :: 0 <= i < |ps| ==>
      && ps[i].state == Health.Healthy && m[i] > 0
      && if ps[i].capacity <= 0.0 then m[i] == 1 else ps[i].capacity == m[i] as real
  }

  /** Balanced by capacity, healthy paths get shares as their capacities. */
  lemma CapacityShares(ps: seq<Path>, balance: Balance, w: seq<real>, m: seq<nat>)
    requires ps != [] && balance != ByRound && WeightsOf(ps, balance, w) && Capacities(ps, m)
    ensures Weights(w) && Shares(w, m, Together(m, |m|))
  {
    IntegerShares(w, m);
  }

  /** Balanced by turns, healthy paths get one share each, whatever their capacities. */
  lemma TurnShares(ps: seq<Path>, w: seq<real>)
    requires ps != [] && WeightsOf(ps, ByRound, w) && AllHealthy(ps)
    ensures Weights(w) && Shares(w, seq(|ps|, _ => 1), |ps|)
  {
    EqualShares(w);
  }

  ghost predicate AllHealthy(ps: seq<Path>)
    reads ps
  {
    forall i :: 0 <= i < |ps| ==> ps[i].state == Health.Healthy
  }

  /** Shares in fifths: a degraded path has one, a healthy one five for each unit of its capacity. */
  ghost predicate Fifths(ps: seq<Path>, balance: Balance, m: seq<nat>)
    reads ps
  {
    |m| == |ps| && forall i :: 0 <= i < |ps| ==> ps[i].state != Health.Down && FifthsOf(ps[i], balance, m[i])
  }

  ghost predicate FifthsOf(p: Path, balance: Balance, m: nat)
    reads p
  {
    if p.state == Health.Degraded then m == 1
    else if balance == ByRound || p.capacity <= 0.0 then m == 5
    else m > 0 && m as real == 5.0 * p.capacity
  }

  lemma FifthIs(p: Path, balance: Balance, m: nat)
    requires p.state != Health.Down && FifthsOf(p, balance, m)
    ensures m > 0 && 5.0 * Weight(p.state, p.capacity, balance) == m as real
  {}

  /** Degraded or healthy, whatever the balance: the shares are the fifths. */
  lemma MixedShares(ps: seq<Path>, balance: Balance, w: seq<real>, m: seq<nat>)
    requires ps != [] && WeightsOf(ps, balance, w) && Fifths(ps, balance, m)
    ensures Weights(w) && Shares(w, m, Together(m, |m|))
  {
    hide FifthsOf;
    hide Weight;
    forall i | 0 <= i < |w| ensures m[i] > 0 && 5.0 * w[i] == m[i] as real { FifthIs(ps[i], balance, m[i]); }
    ScaledShares(w, m);
  }

  lemma {:induction false} SumScaled(w: seq<real>, m: seq<nat>, n: nat)
    requires |m| == |w| && n <= |w| && forall i :: 0 <= i < |w| ==> 5.0 * w[i] == m[i] as real
    ensures 5.0 * SumTo(w, n) == Together(m, n) as real
  {
    if n > 0 { SumScaled(w, m, n - 1); }
  }

  lemma ScaledShares(w: seq<real>, m: seq<nat>)
    requires w != [] && |m| == |w| && forall i :: 0 <= i < |w| ==> m[i] > 0 && 5.0 * w[i] == m[i] as real
    ensures Weights(w) && Shares(w, m, Together(m, |m|))
  {
    var round := Together(m, |m|);
    SumScaled(w, m, |w|);
    TotalPositive(w);
    forall i | 0 <= i < |w| ensures Times(round, w[i]) == Times(m[i], Sum(w)) {
      ScaledTimes(round, w[i], m[i], Sum(w));
    }
  }

  lemma ScaledTimes(a: nat, x: real, b: nat, y: real)
    requires 5.0 * x == b as real && 5.0 * y == a as real
    ensures Times(a, x) == Times(b, y)
  {
    hide Times;
    TimesIs(a, x);
    TimesIs(b, y);
    assert (5.0 * y) * x == (5.0 * x) * y;
  }

  // ---------------------------------------------------------------------
  // Runs of the scheduler.

  ghost predicate Rested(ps: seq<Path>)
    reads ps
  {
    forall i :: 0 <= i < |ps| ==> ps[i].rr == 0.0
  }

  lemma DifferentIds(ps: seq<Path>)
    requires Distinct(ps)
    ensures AllDiffer(Ids(ps))
  {}

  /** One more pick extends a run. */
  lemma RunMore(w: seq<real>, st: seq<seq<real>>, picks: seq<nat>, k: nat, next: seq<real>)
    requires IsRun(w, st, picks) && Step(w, st[|picks|], k, next)
    ensures IsRun(w, st + [next], picks + [k])
  {
    hide Step;
    var more, all := st + [next], picks + [k];
    forall t | 0 <= t < |all| ensures Step(w, more[t], all[t], more[t + 1]) {
      if t < |picks| { assert picks[t] == all[t]; }
    }
  }

  lemma NamesMore(paths: seq<string>, picks: seq<nat>, ids: seq<string>, k: nat)
    requires Names(paths, picks, ids) && k < |paths|
    ensures Names(paths, picks + [k], ids + [paths[k]])
  {}

  /** The picks made so far are a run from rest, and the accumulators of the paths are its last. */
  ghost predicate Ran(ps: seq<Path>, w: seq<real>, st: seq<seq<real>>, picks: seq<nat>, ids: seq<string>)
    reads ps`rr
  {
    && |w| == |ps| && IsRun(w, st, picks) && Accumulators(ps, st[|picks|]) && Names(Ids(ps), picks, ids)
  }

  lemma RanNone(ps: seq<Path>, w: seq<real>)
    requires |w| == |ps| && Rested(ps)
    ensures Ran(ps, w, [seq(|ps|, _ => 0.0)], [], [])
  {}

  lemma RanMore(ps: seq<Path>, w: seq<real>, st: seq<seq<real>>, picks: seq<nat>, ids: seq<string>, k: nat,
                next: seq<real>)
    requires |w| == |ps| && IsRun(w, st, picks) && Names(Ids(ps), picks, ids)
    requires k < |ps| && Step(w, st[|picks|], k, next) && Accumulators(ps, next)
    ensures Ran(ps, w, st + [next], picks + [k], ids + [ps[k].id])
  {
    hide IsRun;
    hide Step;
    hide Names;
    RunMore(w, st, picks, k, next);
    NamesMore(Ids(ps), picks, ids, k);
    assert (st + [next])[|picks + [k]|] == next by { RunLength(w, st, picks); }
  }

  lemma {:induction false} IsRegistered(ps: seq<Path>, n: nat, i: nat)
    requires n <= |ps| && i < |UsableTo(ps, n)|
    ensures UsableTo(ps, n)[i] in ps
  {
    if i < |UsableTo(ps, n - 1)| { IsRegistered(ps, n - 1, i); }
  }

  /** One more frame. */
  method PickNext(s: Scheduler, ghost w: seq<real>, ghost st: seq<seq<real>>, ghost picks: seq<nat>, ids: seq<string>)
    returns (more: seq<string>, ghost after: seq<seq<real>>, ghost longer: seq<nat>)
    requires s.Valid() && s.Usable() != [] && WeightsOf(s.Usable(), s.opts.balance, w) && Positive(w)
    requires Ran(s.Usable(), w, st, picks, ids)
    modifies s.Usable()`rr
    ensures s.Valid() && s.Usable() == old(s.Usable()) && |more| == |ids| + 1
    ensures WeightsOf(s.Usable(), s.opts.balance, w) && Ran(s.Usable(), w, after, longer, more)
  {
    hide IsRun;
    hide Step;
    hide Names;
    hide s.Valid;
    hide Sum;
    assert |st| == |picks| + 1 by { RunLength(w, st, picks); }
    ghost var us := s.Usable();
    assert us == UsableTo(s.paths, |s.paths|);
    forall i | 0 <= i < |us| ensures allocated(us[i]) { IsRegistered(s.paths, |s.paths|, i); }
    var id, ok;
    ghost var k, next;
    id, ok, k, next := s.PickWRR(w, st[|picks|]);
    RanMore(s.Usable(), w, st, picks, ids, k, next);
    more, after, longer := ids + [id], st + [next], picks + [k];
  }

  ghost predicate Positive(w: seq<real>) { Sum(w) > 0.0 }

  /**
   Healthy paths with integer capacities are chosen by capacity over any round; balanced by turns, N healthy paths are
   chosen in strict rotation, so that any N consecutive picks choose each once; and in any mix a degraded path counts
   for a fifth of a unit of capacity, whatever its own.
   */
  ghost predicate Fair(ps: seq<Path>, balance: Balance, ids: seq<string>)
    reads ps
  {
    && (forall m :: balance != ByRound && Capacities(ps, m) ==> EveryRound(Ids(ps), m, Together(m, |m|), ids))
    && (balance == ByRound && AllHealthy(ps) ==>
          EveryRound(Ids(ps), seq(|ps|, _ => 1), |ps|, ids) && InRotation(Ids(ps), ids))
    && (forall m :: Fifths(ps, balance, m) ==> EveryRound(Ids(ps), m, Together(m, |m|), ids))
  }

  lemma RunsAreFair(ps: seq<Path>, balance: Balance, w: seq<real>, st: seq<seq<real>>, picks: seq<nat>,
                    ids: seq<string>)
    requires ps != [] && Distinct(ps) && WeightsOf(ps, balance, w) && Ran(ps, w, st, picks, ids)
    ensures Fair(ps, balance, ids)
  {
    hide EveryRound;
    hide Capacities;
    hide Fifths;
    hide WeightsOf;
    hide IsRun;
    hide Names;
    hide Distinct;
    hide Together;
    assert |w| == |ps| by { WeightsLength(ps, balance, w); }
    DifferentIds(ps);
    hide AllDiffer;
    forall m | balance != ByRound && Capacities(ps, m) ensures EveryRound(Ids(ps), m, Together(m, |m|), ids) {
      CapacityShares(ps, balance, w, m);
      RoundsExact(Ids(ps), w, m, Together(m, |m|), st, picks, ids);
    }
    if balance == ByRound && AllHealthy(ps) {
      TurnShares(ps, w);
      RoundsExact(Ids(ps), w, seq(|ps|, _ => 1), |ps|, st, picks, ids);
      TurnsRotate(ps, w, st, picks, ids);
    }
    forall m | Fifths(ps, balance, m) ensures EveryRound(Ids(ps), m, Together(m, |m|), ids) {
      MixedShares(ps, balance, w, m);
      RoundsExact(Ids(ps), w, m, Together(m, |m|), st, picks, ids);
    }
  }

  lemma TurnsRotate(ps: seq<Path>, w: seq<real>, st: seq<seq<real>>, picks: seq<nat>, ids: seq<string>)
    requires ps != [] && WeightsOf(ps, ByRound, w) && AllHealthy(ps) && IsRun(w, st, picks)
    requires Names(Ids(ps), picks, ids)
    ensures InRotation(Ids(ps), ids)
  {
    hide IsRun;
    assert Weights(w) && forall i :: 0 <= i < |w| ==> w[i] == w[0];
    forall n | 0 <= n < |ids| ensures ids[n] == Ids(ps)[n % |ps|] { StrictRotation(w, st, picks, n); }
  }

  lemma WeightsLength(ps: seq<Path>, balance: Balance, w: seq<real>)
    requires WeightsOf(ps, balance, w)
    ensures |w| == |ps|
  {}

  lemma Ready(s: Scheduler, w: seq<real>)
    requires s.Valid() && s.Usable() != [] && WeightsOf(s.Usable(), s.opts.balance, w)
    ensures Distinct(s.Usable()) && Positive(w)
  {
    UsableDistinct(s.paths, |s.paths|);
    NoneDown(s.paths, |s.paths|);
    WeighedPositive(s.Usable(), s.opts.balance, w);
  }

  ghost predicate AllUsable(ps: seq<Path>)
    reads ps
  {
    forall i :: 0 <= i < |ps| ==> ps[i].state != Health.Down
  }

  lemma {:induction false} NoneDown(ps: seq<Path>, n: nat)
    requires n <= |ps|
    ensures AllUsable(UsableTo(ps, n))
  {
    if n > 0 { NoneDown(ps, n - 1); }
  }

  lemma WeighedPositive(ps: seq<Path>, balance: Balance, w: seq<real>)
    requires ps != [] && WeightsOf(ps, balance, w) && AllUsable(ps)
    ensures Positive(w)
  {
    UsableWeights(ps, balance, w);
  }

  /** n frames sent one after the other over paths that stay as they are, from rested accumulators. */
  method PickMany(s: Scheduler, n: nat, ghost w: seq<real>) returns (ids: seq<string>)
    requires s.Valid() && s.Usable() != [] && Rested(s.Usable()) && WeightsOf(s.Usable(), s.opts.balance, w)
    modifies s.Usable()`rr
    ensures s.Valid() && s.Usable() == old(s.Usable()) && |ids| == n
    ensures Fair(s.Usable(), s.opts.balance, ids)
  {
    hide Fair;
    hide Ran;
    ghost var us := s.Usable();
    Ready(s, w);
    hide s.Valid;
    hide Positive;
    hide Distinct;
    ghost var st, picks := [seq(|us|, _ => 0.0)], [];
    ids := [];
    RanNone(us, w);
    for i := 0 to n
      invariant s.Valid() && s.Usable() == us && |ids| == i
      invariant WeightsOf(us, s.opts.balance, w) && Ran(us, w, st, picks, ids)
    {
      ids, st, picks := PickNext(s, w, st, picks, ids);
    }
    RunsAreFair(us, s.opts.balance, w, st, picks, ids);
  }
}
