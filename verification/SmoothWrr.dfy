/**
 Smooth weighted round-robin over a fixed set of paths, started from zero accumulators:
 exact proportionality, periodicity, and exactly when a path can be picked twice running.

 Weights are positive reals. Where a statement counts picks over a whole round the weights are
 proportional to positive integers m, as any floating-point weights are.
 */
module SmoothWrr {
  import opened Modular

  // ---------------------------------------------------------------------
  // Sums.

  function Sum(s: seq<real>): real { SumTo(s, |s|) }

  function SumTo(s: seq<real>, n: nat): real
    requires n <= |s|
  {
    if n == 0 then 0.0 else SumTo(s, n - 1) + s[n - 1]
  }

  lemma {:induction false} SumToUpdate(s: seq<real>, i: nat, v: real, n: nat)
    requires i < |s| && n <= |s|
    ensures SumTo(s[i := v], n) == SumTo(s, n) + if i < n then v - s[i] else 0.0
  {
    if n > 0 { SumToUpdate(s, i, v, n - 1); }
  }

  lemma {:induction false} SumToAtLeast(s: seq<real>, c: real, n: nat)
    requires n <= |s| && forall i :: 0 <= i < n ==> s[i] >= c
    ensures SumTo(s, n) >= n as real * c
  {
    if n > 0 {
      SumToAtLeast(s, c, n - 1);
      Distribute((n - 1) as real, 1.0, c);
    }
  }

  /** A sum of entries, each above c, is above n*c. */
  lemma {:induction false} SumToAbove(s: seq<real>, c: real, n: nat)
    requires 0 < n <= |s| && forall i :: 0 <= i < n ==> s[i] > c
    ensures SumTo(s, n) > n as real * c
  {
    SumToAtLeast(s, c, n - 1);
    Distribute((n - 1) as real, 1.0, c);
  }

  lemma {:induction false} SumToNegate(s: seq<real>, n: nat)
    requires n <= |s|
    ensures SumTo(Negated(s), n) == -SumTo(s, n)
  {
    if n > 0 { SumToNegate(s, n - 1); }
  }

  function Negated(s: seq<real>): seq<real> {
    seq(|s|, i requires 0 <= i < |s| => -s[i])
  }

  lemma Distribute(a: real, b: real, c: real)
    ensures (a + b) * c == a * c + b * c
    ensures c * (a + b) == c * a + c * b
  {}

  /** One entry against the rest, each of which is above c. */
  lemma EntryAtMost(s: seq<real>, i: nat, c: real)
    requires i < |s|
    requires forall j :: 0 <= j < |s| ==> s[j] >= c
    ensures s[i] <= Sum(s) - (|s| - 1) as real * c
  {
    SumToUpdate(s, i, c, |s|);
    SumToAtLeast(s[i := c], c, |s|);
    Distribute((|s| - 1) as real, 1.0, c);
  }

  // ---------------------------------------------------------------------
  // Runs.

  ghost predicate Weights(w: seq<real>) {
    w != [] && forall i :: 0 <= i < |w| ==> w[i] > 0.0
  }

  lemma TotalPositive(w: seq<real>)
    requires Weights(w)
    ensures Sum(w) > 0.0
  {
    SumToAbove(w, 0.0, |w|);
  }

  /** After every path gained its weight, path b leads: strictly those before it, weakly the rest. */
  ghost predicate Leads(w: seq<real>, rr: seq<real>, b: nat)
    requires |rr| == |w| && b < |w|
  {
    forall j :: 0 <= j < |w| ==> rr[j] + w[j] < rr[b] + w[b] || (rr[j] + w[j] == rr[b] + w[b] && b <= j)
  }

  /** One pick: all gain their weight, the leader b is charged the total. */
  ghost predicate Step(w: seq<real>, rr: seq<real>, b: nat, next: seq<real>) {
    && |rr| == |next| == |w| && b < |w|
    && Leads(w, rr, b)
    && forall i :: 0 <= i < |w| ==> next[i] == rr[i] + w[i] - if i == b then Sum(w) else 0.0
  }

  ghost predicate Zero(rr: seq<real>) {
    forall i :: 0 <= i < |rr| ==> rr[i] == 0.0
  }

  /** st[t] are the accumulators before pick number t, picks[t] the path it chose. */
  ghost predicate IsRun(w: seq<real>, st: seq<seq<real>>, picks: seq<nat>) {
    && |st| == |picks| + 1
    && |st[0]| == |w| && Zero(st[0])
    && forall t {:trigger picks[t]} :: 0 <= t < |picks| ==> Step(w, st[t], picks[t], st[t + 1])
  }

  function Count(picks: seq<nat>, i: nat, n: nat): nat
    requires n <= |picks|
  {
    if n == 0 then 0 else Count(picks, i, n - 1) + if picks[n - 1] == i then 1 else 0
  }

  // ---------------------------------------------------------------------
  // Proportionality.

  /** n times x, by repeated addition. */
  function Times(n: nat, x: real): real {
    if n == 0 then 0.0 else Times(n - 1, x) + x
  }

  lemma {:induction false} TimesIs(n: nat, x: real)
    ensures Times(n, x) == n as real * x
  {
    if n > 0 {
      TimesIs(n - 1, x);
      Distribute((n - 1) as real, 1.0, x);
    }
  }

  lemma {:induction false} TimesSum(a: nat, b: nat, x: real)
    ensures Times(a + b, x) == Times(a, x) + Times(b, x)
  {
    if b > 0 { TimesSum(a, b - 1, x); }
  }

  /** A multiple of total above -total is not negative, and only the zeroth is zero. */
  lemma {:induction false} TimesAbove(a: nat, b: nat, total: real)
    requires total > 0.0
    ensures Times(a, total) - Times(b, total) > -total ==> a >= b
    ensures a >= b ==> Times(a, total) >= Times(b, total)
    ensures Times(a, total) == Times(b, total) ==> a == b
  {
    if a > 0 && b > 0 {
      TimesAbove(a - 1, b - 1, total);
    } else if a > 0 {
      TimesAbove(a - 1, 0, total);
    } else if b > 0 {
      TimesAbove(0, b - 1, total);
    }
  }

  /** At every prefix, path i is owed exactly n*w[i] - W*count(i), as repeated addition. */
  lemma {:induction false} Owed(w: seq<real>, st: seq<seq<real>>, picks: seq<nat>, n: nat, i: nat)
    requires IsRun(w, st, picks) && n <= |picks| && i < |w|
    ensures |st[n]| == |w|
    ensures st[n][i] == Times(n, w[i]) - Times(Count(picks, i, n), Sum(w))
  {
    if n > 0 {
      Owed(w, st, picks, n - 1, i);
      assert Step(w, st[n - 1], picks[n - 1], st[n]);
    }
  }

  /** The balance s of a path that earned x at each of n picks and paid y for each of its own m. */
  ghost predicate IsOwed(s: real, n: nat, x: real, m: nat, y: real) { s == n as real * x - m as real * y }

  /** At every prefix, the accumulator of path i is exactly n*w[i] - W*count(i). */
  lemma Proportional(w: seq<real>, st: seq<seq<real>>, picks: seq<nat>, n: nat, i: nat)
    requires IsRun(w, st, picks) && n <= |picks| && i < |w|
    ensures |st[n]| == |w|
    ensures IsOwed(st[n][i], n, w[i], Count(picks, i, n), Sum(w))
  {
    assert |st| == |picks| + 1;
    hide *;
    Owed(w, st, picks, n, i);
    Multiplied(n, w[i], Count(picks, i, n), Sum(w), st[n][i]);
  }

  lemma Multiplied(n: nat, x: real, m: nat, y: real, s: real)
    requires s == Times(n, x) - Times(m, y)
    ensures IsOwed(s, n, x, m, y)
  {
    hide Times;
    TimesIs(n, x);
    TimesIs(m, y);
  }

  /** The accumulators always sum to zero and stay in (-W, (N-1)*W]. */
  lemma {:induction false} Bounded(w: seq<real>, st: seq<seq<real>>, picks: seq<nat>, n: nat)
    requires Weights(w) && IsRun(w, st, picks) && n <= |picks|
    ensures |st[n]| == |w| && Sum(st[n]) == 0.0
    ensures forall i :: 0 <= i < |w| ==> -Sum(w) < st[n][i] <= (|w| - 1) as real * Sum(w)
  {
    hide IsRun;
    hide Step;
    hide Sum;
    TotalPositive(w);
    RunStarts(w, st, picks);
    if n > 0 {
      Bounded(w, st, picks, n - 1);
      RunSteps(w, st, picks, n - 1);
      StepBounded(w, st[n - 1], picks[n - 1], st[n]);
    }
    BelowOthers(st[n], Sum(w));
  }

  lemma RunStarts(w: seq<real>, st: seq<seq<real>>, picks: seq<nat>)
    requires Weights(w) && IsRun(w, st, picks)
    ensures |st| == |picks| + 1 && |st[0]| == |w| && Sum(st[0]) == 0.0
    ensures forall i :: 0 <= i < |w| ==> -Sum(w) < st[0][i]
  {
    TotalPositive(w);
    SumToZero(st[0], |w|);
  }

  lemma RunSteps(w: seq<real>, st: seq<seq<real>>, picks: seq<nat>, n: nat)
    requires IsRun(w, st, picks) && n < |picks|
    ensures |st| == |picks| + 1 && |st[n + 1]| == |w| && Step(w, st[n], picks[n], st[n + 1])
  {
    var b := picks[n];
    assert Step(w, st[n], b, st[n + 1]);
  }

  /** Entries that sum to zero and are all above -c are at most c for each of the others. */
  lemma BelowOthers(rr: seq<real>, c: real)
    requires Sum(rr) == 0.0 && forall i :: 0 <= i < |rr| ==> -c < rr[i]
    ensures forall i :: 0 <= i < |rr| ==> rr[i] <= (|rr| - 1) as real * c
  {
    hide Sum;
    forall i | 0 <= i < |rr| ensures rr[i] <= (|rr| - 1) as real * c {
      EntryAtMost(rr, i, -c);
      Opposite((|rr| - 1) as real, c);
    }
  }

  lemma Opposite(a: real, b: real)
    ensures -(a * -b) == a * b
  {}

  lemma {:induction false} SumToZero(s: seq<real>, n: nat)
    requires n <= |s| && Zero(s)
    ensures SumTo(s, n) == 0.0
  {
    if n > 0 { SumToZero(s, n - 1); }
  }

  lemma {:induction false} SumToStep(w: seq<real>, rr: seq<real>, b: nat, next: seq<real>, n: nat)
    requires Step(w, rr, b, next) && n <= |w|
    ensures SumTo(next, n) == SumTo(rr, n) + SumTo(w, n) - if b < n then Sum(w) else 0.0
  {
    if n > 0 { SumToStep(w, rr, b, next, n - 1); }
  }

  /** The raised accumulators sum to W, so the leader is positive and stays above -W once charged. */
  lemma StepBounded(w: seq<real>, rr: seq<real>, b: nat, next: seq<real>)
    requires Weights(w) && Step(w, rr, b, next) && Sum(rr) == 0.0
    requires forall i :: 0 <= i < |w| ==> -Sum(w) < rr[i]
    ensures Sum(next) == 0.0
    ensures forall i :: 0 <= i < |w| ==> -Sum(w) < next[i]
  {
    TotalPositive(w);
    SumToStep(w, rr, b, next, |w|);
    if rr[b] + w[b] <= 0.0 {
      var down := next[b := rr[b] + w[b]];
      SumToUpdate(next, b, rr[b] + w[b], |w|);
      SumToNegate(down, |w|);
      SumToAtLeast(Negated(down), 0.0, |w|);
      assert false;
    }
  }

  // ---------------------------------------------------------------------
  // Whole rounds.

  /** The weights w are proportional to the positive integers m, whose sum is the length of a round. */
  ghost predicate Shares(w: seq<real>, m: seq<nat>, round: nat) {
    && |m| == |w|
    && round > 0
    && forall i :: 0 <= i < |w| ==> m[i] > 0 && Times(round, w[i]) == Times(m[i], Sum(w))
  }

  /** After a whole round every accumulator is back at zero and path i was picked m[i] times. */
  lemma FullRound(w: seq<real>, m: seq<nat>, round: nat, st: seq<seq<real>>, picks: seq<nat>)
    requires Weights(w) && Shares(w, m, round) && IsRun(w, st, picks) && round <= |picks|
    ensures |st[round]| == |w| && Zero(st[round])
    ensures forall i :: 0 <= i < |w| ==> Count(picks, i, round) == m[i]
  {
    TotalPositive(w);
    Bounded(w, st, picks, round);
    var rr := st[round];
    forall i | 0 <= i < |w| ensures rr[i] >= 0.0 {
      RoundCount(w, m, round, st, picks, i);
    }
    forall i | 0 <= i < |w| ensures rr[i] == 0.0 && Count(picks, i, round) == m[i] {
      EntryAtMost(rr, i, 0.0);
      RoundCount(w, m, round, st, picks, i);
    }
  }

  lemma RoundCount(w: seq<real>, m: seq<nat>, round: nat, st: seq<seq<real>>, picks: seq<nat>, i: nat)
    requires Shares(w, m, round) && IsRun(w, st, picks) && round <= |picks| && i < |w| && Sum(w) > 0.0
    requires |st[round]| == |w| && st[round][i] > -Sum(w)
    ensures st[round][i] >= 0.0 && (st[round][i] == 0.0 ==> Count(picks, i, round) == m[i])
  {
    Owed(w, st, picks, round, i);
    TimesAbove(m[i], Count(picks, i, round), Sum(w));
  }

  lemma StepDetermined(w: seq<real>, rr: seq<real>, b: nat, next: seq<real>, c: nat, other: seq<real>)
    requires Step(w, rr, b, next) && Step(w, rr, c, other)
    ensures b == c && next == other
  {}

  lemma {:induction false} Periodic(w: seq<real>, m: seq<nat>, round: nat, st: seq<seq<real>>, picks: seq<nat>, n: nat)
    requires Weights(w) && Shares(w, m, round) && IsRun(w, st, picks) && n + round <= |picks|
    ensures st[n + round] == st[n]
  {
    if n == 0 {
      FullRound(w, m, round, st, picks);
    } else {
      Periodic(w, m, round, st, picks, n - 1);
      var t := n - 1 + round;
      assert Step(w, st[t], picks[t], st[t + 1]);
      assert Step(w, st[n - 1], picks[n - 1], st[n]);
      StepDetermined(w, st[t], picks[t], st[t + 1], picks[n - 1], st[n]);
    }
  }

  /** Every round of consecutive picks, wherever it starts, chooses path i exactly m[i] times. */
  lemma EveryRoundExact(w: seq<real>, m: seq<nat>, round: nat, st: seq<seq<real>>, picks: seq<nat>, n: nat, i: nat)
    requires Weights(w) && Shares(w, m, round) && IsRun(w, st, picks) && n + round <= |picks| && i < |w|
    ensures Count(picks, i, n + round) == Count(picks, i, n) + m[i]
  {
    TotalPositive(w);
    Periodic(w, m, round, st, picks, n);
    Owed(w, st, picks, n, i);
    Owed(w, st, picks, n + round, i);
    TimesSum(n, round, w[i]);
    TimesSum(Count(picks, i, n), m[i], Sum(w));
    TimesAbove(Count(picks, i, n) + m[i], Count(picks, i, n + round), Sum(w));
  }

  // ---------------------------------------------------------------------
  // Repeats.

  /** Path i never leads a path at least as heavy by more than the total. */
  lemma {:induction false} LeadAtMostTotal(w: seq<real>, st: seq<seq<real>>, picks: seq<nat>, n: nat, i: nat, j: nat)
    requires Weights(w) && IsRun(w, st, picks) && n <= |picks|
    requires i < |w| && j < |w| && i != j && w[i] <= w[j]
    ensures |st[n]| == |w|
    ensures var d := st[n][i] - st[n][j]; d < Sum(w) || (d == Sum(w) && j < i)
  {
    TotalPositive(w);
    if n > 0 {
      LeadAtMostTotal(w, st, picks, n - 1, i, j);
      assert Step(w, st[n - 1], picks[n - 1], st[n]);
    }
  }

  /** Some other path is at least as heavy as path i. */
  ghost predicate HasPeer(w: seq<real>, i: nat)
    requires i < |w|
  {
    exists j :: 0 <= j < |w| && j != i && w[i] <= w[j]
  }

  /** A path is not picked twice running while a path at least as heavy competes. */
  lemma NoRepeatAgainstPeer(w: seq<real>, st: seq<seq<real>>, picks: seq<nat>, n: nat)
    requires Weights(w) && IsRun(w, st, picks) && n + 1 < |picks|
    requires picks[n] < |w| ==> HasPeer(w, picks[n])
    ensures picks[n] != picks[n + 1]
  {
    var i := picks[n];
    assert Step(w, st[n], i, st[n + 1]);
    assert Step(w, st[n + 1], picks[n + 1], st[n + 2]);
    var j :| 0 <= j < |w| && j != i && w[i] <= w[j];
    LeadAtMostTotal(w, st, picks, n, i, j);
  }

  /** The largest weight is held by two paths or more. */
  ghost predicate TopShared(w: seq<real>) {
    forall i :: 0 <= i < |w| ==> HasPeer(w, i)
  }

  ghost predicate Repeats(w: seq<real>, st: seq<seq<real>>, picks: seq<nat>, n: nat) {
    IsRun(w, st, picks) && n + 1 < |picks| && picks[n] == picks[n + 1]
  }

  /** The heaviest path, when alone at the top, starts a round... */
  lemma LoneTopStarts(w: seq<real>, st: seq<seq<real>>, picks: seq<nat>, n: nat, top: nat)
    requires Weights(w) && IsRun(w, st, picks) && n < |picks| && Zero(st[n])
    requires top < |w| && !HasPeer(w, top)
    ensures picks[n] == top
  {
    assert Step(w, st[n], picks[n], st[n + 1]);
    assert w[top] <= w[picks[n]];
  }

  /** ... and ends it: any other path would have had to lead by a whole total. */
  lemma LoneTopEnds(w: seq<real>, st: seq<seq<real>>, picks: seq<nat>, n: nat, top: nat)
    requires Weights(w) && IsRun(w, st, picks) && n < |picks| && Zero(st[n + 1])
    requires top < |w| && !HasPeer(w, top)
    ensures picks[n] == top
  {
    var x := picks[n];
    assert Step(w, st[n], x, st[n + 1]);
    if x != top {
      assert w[x] < w[top];
      LeadAtMostTotal(w, st, picks, n, x, top);
      assert false;
    }
  }

  /** The first path with the largest value. */
  function Leader(s: seq<real>, n: nat): (b: nat)
    requires 0 < n <= |s|
    ensures b < n && forall j :: 0 <= j < n ==> s[j] < s[b] || (s[j] == s[b] && b <= j)
  {
    if n == 1 then 0
    else
      var b := Leader(s, n - 1);
      if s[n - 1] > s[b] then n - 1 else b
  }

  /** Every run goes on. */
  lemma {:induction false} ExtendRun(w: seq<real>, st: seq<seq<real>>, picks: seq<nat>, more: nat)
    returns (st': seq<seq<real>>, picks': seq<nat>)
    requires w != [] && IsRun(w, st, picks)
    ensures IsRun(w, st', picks') && |picks'| == |picks| + more && picks'[..|picks|] == picks
    decreases more
  {
    if more == 0 {
      st', picks' := st, picks;
    } else {
      var last := |picks|;
      var rr := st[last];
      assert last > 0 ==> Step(w, st[last - 1], picks[last - 1], rr);
      var b, next := OneMore(w, rr);
      var st1, picks1 := st + [next], picks + [b];
      forall t | 0 <= t < |picks1| ensures Step(w, st1[t], picks1[t], st1[t + 1]) {
        if t < last { assert Step(w, st[t], picks[t], st[t + 1]); }
      }
      st', picks' := ExtendRun(w, st1, picks1, more - 1);
      assert picks'[..last] == picks'[..last + 1][..last] == picks;
    }
  }

  lemma OneMore(w: seq<real>, rr: seq<real>) returns (b: nat, next: seq<real>)
    requires w != [] && |rr| == |w|
    ensures Step(w, rr, b, next)
  {
    var raised := seq(|w|, i requires 0 <= i < |w| => rr[i] + w[i]);
    b := Leader(raised, |w|);
    next := raised[b := raised[b] - Sum(w)];
    assert forall j :: 0 <= j < |w| ==> raised[j] == rr[j] + w[j];
  }

  /** No run ever picks a path twice in a row iff the largest weight is held by two paths or more. */
  lemma NeverTwiceIffTopShared(w: seq<real>, m: seq<nat>, round: nat)
    requires Weights(w) && Shares(w, m, round)
    ensures TopShared(w) <==> !exists st, picks, n: nat :: Repeats(w, st, picks, n)
  {
    if TopShared(w) {
      forall st, picks, n: nat | Repeats(w, st, picks, n) ensures false {
        NoRepeatAgainstPeer(w, st, picks, n);
      }
    } else {
      var top :| 0 <= top < |w| && !HasPeer(w, top);
      var st, picks := ExtendRun(w, [seq(|w|, _ => 0.0)], [], round + 1);
      FullRound(w, m, round, st, picks);
      LoneTopEnds(w, st, picks, round - 1, top);
      LoneTopStarts(w, st, picks, round, top);
      assert Repeats(w, st, picks, round - 1);
    }
  }

  /** Capacities 300 and 100: every run of two picks takes the first path twice. */
  lemma UnequalPairRepeats(st: seq<seq<real>>, picks: seq<nat>)
    requires IsRun([300.0, 100.0], st, picks) && |picks| >= 2
    ensures picks[0] == 0 && picks[1] == 0
  {
    var w := [300.0, 100.0];
    assert Sum(w) == 400.0 by { assert SumTo(w, 1) == 300.0; }
    assert Step(w, st[0], picks[0], st[1]);
    assert Step(w, st[1], picks[1], st[2]);
    assert w[0] == 300.0 && w[1] == 100.0;
  }

  // ---------------------------------------------------------------------
  // Shares of a window.

  lemma {:induction false} CountMonotone(picks: seq<nat>, i: nat, a: nat, b: nat)
    requires a <= b <= |picks|
    ensures Count(picks, i, a) <= Count(picks, i, b)
  {
    if a < b { CountMonotone(picks, i, a, b - 1); }
  }

  lemma {:induction false} CountPrefix(picks: seq<nat>, more: seq<nat>, i: nat, n: nat)
    requires n <= |picks| <= |more| && more[..|picks|] == picks
    ensures Count(picks, i, n) == Count(more, i, n)
  {
    if n > 0 {
      CountPrefix(picks, more, i, n - 1);
      assert more[..|picks|][n - 1] == more[n - 1];
    }
  }

  lemma PartRound(w: seq<real>, m: seq<nat>, round: nat, st: seq<seq<real>>, picks: seq<nat>, n: nat, len: nat, i: nat)
    requires Weights(w) && Shares(w, m, round) && IsRun(w, st, picks) && i < |w|
    requires n + len <= |picks| && len <= round
    ensures Count(picks, i, n + len) <= Count(picks, i, n) + m[i]
  {
    var st', picks' := ExtendRun(w, st, picks, round);
    EveryRoundExact(w, m, round, st', picks', n, i);
    PartCount(picks, picks', i, n, len, round);
  }

  lemma PartCount(picks: seq<nat>, more: seq<nat>, i: nat, n: nat, len: nat, round: nat)
    requires len <= round && n + len <= |picks| && n + round <= |more|
    requires |picks| <= |more| && more[..|picks|] == picks
    ensures Count(picks, i, n + len) - Count(picks, i, n) <= Count(more, i, n + round) - Count(more, i, n)
  {
    CountMonotone(more, i, n + len, n + round);
    CountPrefix(picks, more, i, n);
    CountPrefix(picks, more, i, n + len);
  }

  /** Any len consecutive picks that fit into q rounds take path i at most q*m[i] times. */
  lemma {:induction false} WindowShare(w: seq<real>, m: seq<nat>, round: nat, st: seq<seq<real>>, picks: seq<nat>,
                                       n: nat, len: nat, q: nat, i: nat)
    requires Weights(w) && Shares(w, m, round) && IsRun(w, st, picks) && i < |w|
    requires n + len <= |picks| && len <= q * round
    ensures Count(picks, i, n + len) <= Count(picks, i, n) + q * m[i]
    decreases q
  {
    hide Step;
    hide Times;
    hide Weights;
    hide Count;
    if q > 0 {
      var part := if len < round then len else round;
      PeelOne(q, round);
      PartRound(w, m, round, st, picks, n, part, i);
      WindowShare(w, m, round, st, picks, n + part, len - part, q - 1, i);
      PeelOne(q, m[i]);
    }
  }

  lemma PeelOne(q: nat, x: nat)
    requires q > 0
    ensures q * x == (q - 1) * x + x && (q - 1) * x >= 0
  {}

  function Together(m: seq<nat>, n: nat): nat
    requires n <= |m|
  {
    if n == 0 then 0 else Together(m, n - 1) + m[n - 1]
  }

  lemma {:induction false} SumIsTogether(w: seq<real>, m: seq<nat>, n: nat)
    requires |m| == |w| && n <= |w| && forall i :: 0 <= i < |w| ==> w[i] == m[i] as real
    ensures SumTo(w, n) == Together(m, n) as real
  {
    if n > 0 { SumIsTogether(w, m, n - 1); }
  }

  /** Positive integer weights are shares of themselves: a round is as long as they are together. */
  lemma IntegerShares(w: seq<real>, m: seq<nat>)
    requires Weights(w) && |m| == |w| && forall i :: 0 <= i < |w| ==> w[i] == m[i] as real
    ensures Shares(w, m, Together(m, |m|))
  {
    var round := Together(m, |m|);
    SumIsTogether(w, m, |w|);
    TotalPositive(w);
    forall i | 0 <= i < |w| ensures m[i] > 0 && Times(round, w[i]) == Times(m[i], Sum(w)) {
      TimesSwap(round, m[i]);
    }
  }

  lemma TimesSwap(a: nat, b: nat)
    ensures Times(a, b as real) == Times(b, a as real)
  {
    hide Times;
    TimesIs(a, b as real);
    TimesIs(b, a as real);
  }

  /** Equal weights are shares of one each. */
  lemma EqualShares(w: seq<real>)
    requires Weights(w) && forall i :: 0 <= i < |w| ==> w[i] == w[0]
    ensures Shares(w, seq(|w|, _ => 1), |w|)
  {
    SumToConst(w, |w|);
    forall i | 0 <= i < |w| ensures Times(|w|, w[i]) == Times(1, Sum(w)) {
      assert Times(1, Sum(w)) == Times(0, Sum(w)) + Sum(w);
    }
  }

  lemma {:induction false} SumToConst(w: seq<real>, n: nat)
    requires w != [] && n <= |w| && forall i :: 0 <= i < |w| ==> w[i] == w[0]
    ensures SumTo(w, n) == Times(n, w[0])
  {
    if n > 0 { SumToConst(w, n - 1); }
  }

  // ---------------------------------------------------------------------
  // Equal weights: strict rotation.

  /** After r picks of a round the first r paths are a round behind the others. */
  ghost predicate Rotated(rr: seq<real>, x: real, r: nat, total: real) {
    forall i :: 0 <= i < |rr| ==> rr[i] == Times(r, x) - if i < r then total else 0.0
  }

  lemma RotatedStep(w: seq<real>, rr: seq<real>, b: nat, next: seq<real>, r: nat)
    requires Weights(w) && (forall i :: 0 <= i < |w| ==> w[i] == w[0]) && Step(w, rr, b, next) && r < |w|
    requires Sum(w) == Times(|w|, w[0]) > 0.0 && Rotated(rr, w[0], r, Sum(w))
    ensures b == r
    ensures Rotated(next, w[0], if r + 1 == |w| then 0 else r + 1, Sum(w))
  {
    assert rr[r] + w[r] <= rr[b] + w[b];
    assert rr[b] + w[b] < rr[r] + w[r] || (rr[b] + w[b] == rr[r] + w[r] && r >= b) || b <= r;
    assert Times(r + 1, w[0]) == Times(r, w[0]) + w[0];
  }

  /** Whose turn pick n is, when they go round. */
  function Turn(n: nat, size: nat): (r: nat)
    requires size > 0
    ensures r < size
  {
    n % size
  }

  lemma NextTurn(n: nat, size: nat)
    requires size > 0
    ensures Turn(n + 1, size) == if Turn(n, size) + 1 == size then 0 else Turn(n, size) + 1
  {
    NextInRound(n, size);
  }

  /** All weights are the same. */
  ghost predicate Even(w: seq<real>) { Weights(w) && forall i :: 0 <= i < |w| ==> w[i] == w[0] }

  lemma EvenStep(w: seq<real>, st: seq<seq<real>>, picks: seq<nat>, n: nat, r: nat)
    requires Even(w) && IsRun(w, st, picks) && n < |picks| && r < |w| && Rotated(st[n], w[0], r, Sum(w))
    ensures picks[n] == r && |st[n + 1]| == |w|
    ensures Rotated(st[n + 1], w[0], if r + 1 == |w| then 0 else r + 1, Sum(w))
  {
    SumToConst(w, |w|);
    TotalPositive(w);
    assert Step(w, st[n], picks[n], st[n + 1]);
    hide IsRun;
    RotatedStep(w, st[n], picks[n], st[n + 1], r);
  }

  lemma {:induction false} RotatedAt(w: seq<real>, st: seq<seq<real>>, picks: seq<nat>, n: nat)
    requires Even(w) && IsRun(w, st, picks) && n <= |picks|
    ensures Rotated(st[n], w[0], Turn(n, |w|), Sum(w))
  {
    if n == 0 {
      RotatedFirst(w, st, picks);
    } else {
      RotatedAt(w, st, picks, n - 1);
      assert |w| > 0;
      RunLength(w, st, picks);
      hide Rotated;
      hide Even;
      hide Sum;
      hide IsRun;
      hide Turn;
      NextTurn(n - 1, |w|);
      EvenStep(w, st, picks, n - 1, Turn(n - 1, |w|));
    }
  }

  lemma RunLength(w: seq<real>, st: seq<seq<real>>, picks: seq<nat>)
    requires IsRun(w, st, picks)
    ensures |st| == |picks| + 1
  {}

  lemma RotatedFirst(w: seq<real>, st: seq<seq<real>>, picks: seq<nat>)
    requires Weights(w) && IsRun(w, st, picks)
    ensures Rotated(st[0], w[0], Turn(0, |w|), Sum(w))
  {
    assert Times(0, w[0]) == 0.0;
    Small(0, |w|);
  }

  /** Paths of equal weight are picked in strict rotation, in their order. */
  lemma StrictRotation(w: seq<real>, st: seq<seq<real>>, picks: seq<nat>, n: nat)
    requires Weights(w) && (forall i :: 0 <= i < |w| ==> w[i] == w[0]) && IsRun(w, st, picks) && n < |picks|
    ensures picks[n] == n % |w|
  {
    RotatedAt(w, st, picks, n);
    EvenStep(w, st, picks, n, Turn(n, |w|));
  }
}
