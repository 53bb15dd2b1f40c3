/** When a path changes state, told from the events of a run: missed probes, bad windows and sustained loss. */
module HealthLaws {
  import opened Bytes
  import opened Health

  // ---------------------------------------------------------------------
  // Missed probes.

  /** One past the last response before event n. */
  ghost function Quiet(evs: seq<Event>, n: nat): (r: nat)
    requires n <= |evs|
    ensures r <= n && (r > 0 ==> Response(evs[r - 1])) && forall j :: r <= j < n ==> !Response(evs[j])
  {
    if n == 0 || Response(evs[n - 1]) then n else Quiet(evs, n - 1)
  }

  /** The unanswered probes among the events from r up to n. */
  ghost function Misses(evs: seq<Event>, r: nat, n: nat): nat
    requires r <= n <= |evs|
  {
    if n == r then 0 else Misses(evs, r, n - 1) + if evs[n - 1].Unanswered? then 1 else 0
  }

  lemma StepMisses(t: Tuning, m: Mon, ev: Event)
    ensures Step(t, m, ev).misses ==
              if Response(ev) then 0 else m.misses + if ev.Unanswered? then 1 else 0
  {}

  /** In every run the miss counter is the number of unanswered probes since the last response. */
  lemma {:induction false} MissesCount(t: Tuning, evs: seq<Event>, n: nat)
    requires n <= |evs|
    ensures At(t, evs, n).misses == Misses(evs, Quiet(evs, n), n)
  {
    if n > 0 {
      MissesCount(t, evs, n - 1);
      StepMisses(t, At(t, evs, n - 1), evs[n - 1]);
    }
  }

  /** Event j is the unanswered probe that makes the misses since the last response before n reach the limit. */
  ghost predicate Reaches(t: Tuning, evs: seq<Event>, j: nat, n: nat)
    requires n <= |evs|
  {
    Quiet(evs, n) <= j < n && evs[j].Unanswered? && Misses(evs, Quiet(evs, n), j + 1) == t.downAftMiss
  }

  lemma {:induction false} MissesRise(evs: seq<Event>, r: nat, j: nat, n: nat)
    requires r <= j <= n <= |evs|
    ensures Misses(evs, r, j) <= Misses(evs, r, n)
    decreases n - j
  {
    if j < n { MissesRise(evs, r, j, n - 1); }
  }

  /** The limit is reached by exactly one probe, once there were enough. */
  lemma {:induction false} SomeReaches(t: Tuning, evs: seq<Event>, n: nat)
    requires Tuned(t) && n <= |evs|
    ensures (exists j: nat :: Reaches(t, evs, j, n)) <==> Misses(evs, Quiet(evs, n), n) >= t.downAftMiss
  {
    var r := Quiet(evs, n);
    if Misses(evs, r, n) >= t.downAftMiss {
      var j := FirstEnough(t, evs, r, n);
      assert Reaches(t, evs, j, n);
    }
    if j: nat :| Reaches(t, evs, j, n) { MissesRise(evs, r, j + 1, n); }
  }

  lemma {:induction false} FirstEnough(t: Tuning, evs: seq<Event>, r: nat, n: nat) returns (j: nat)
    requires Tuned(t) && r <= n <= |evs| && Misses(evs, r, n) >= t.downAftMiss
    ensures r <= j < n && evs[j].Unanswered? && Misses(evs, r, j + 1) == t.downAftMiss
    decreases n
  {
    if Misses(evs, r, n - 1) >= t.downAftMiss { j := FirstEnough(t, evs, r, n - 1); } else { j := n - 1; }
  }

  lemma OneReaches(t: Tuning, evs: seq<Event>, i: nat, j: nat, n: nat)
    requires n <= |evs| && Reaches(t, evs, i, n) && Reaches(t, evs, j, n)
    ensures i == j
  {
    if i < j { MissesRise(evs, Quiet(evs, n), i + 1, j); }
    if j < i { MissesRise(evs, Quiet(evs, n), j + 1, i); }
  }

  /** A probe takes a path down iff there is no grace period and it ends enough misses without a response. */
  lemma ProbeDownIff(t: Tuning, evs: seq<Event>, n: nat)
    requires Tuned(t) && n < |evs| && evs[n].Unanswered? && At(t, evs, n).state != Down
    ensures At(t, evs, n + 1).state == Down <==>
              t.downGrace == 0 && Misses(evs, Quiet(evs, n + 1), n + 1) >= t.downAftMiss
    ensures At(t, evs, n + 1).state != Down ==> At(t, evs, n + 1).state == At(t, evs, n).state
  {
    MissesCount(t, evs, n);
  }

  /** With a grace period, the miss timer runs from the probe that reached the limit. */
  ghost predicate TimedFromLimit(t: Tuning, evs: seq<Event>, n: nat)
    requires n <= |evs|
  {
    match At(t, evs, n).missSince
    case None => forall j: nat :: !Reaches(t, evs, j, n)
    case Some(at) => exists j: nat :: Reaches(t, evs, j, n) && evs[j].now == at
  }

  lemma ReachesLater(t: Tuning, evs: seq<Event>, j: nat, n: nat)
    requires n < |evs| && !Response(evs[n])
    ensures Reaches(t, evs, j, n + 1) <==>
              || Reaches(t, evs, j, n)
              || (j == n && evs[n].Unanswered? && Misses(evs, Quiet(evs, n), n) + 1 == t.downAftMiss)
  {}

  lemma StepTimesMisses(t: Tuning, m: Mon, ev: Event)
    requires Tuned(t) && t.downGrace > 0
    ensures Step(t, m, ev).missSince ==
              if Response(ev) then None
              else if ev.Unanswered? && m.misses + 1 >= t.downAftMiss && m.missSince.None? then Some(ev.now)
              else m.missSince
  {}

  lemma {:induction false} GraceTimer(t: Tuning, evs: seq<Event>, n: nat)
    requires Tuned(t) && t.downGrace > 0 && n <= |evs|
    ensures TimedFromLimit(t, evs, n)
  {
    if n > 0 {
      GraceTimer(t, evs, n - 1);
      GraceTimerStep(t, evs, n - 1);
    }
  }

  lemma GraceTimerStep(t: Tuning, evs: seq<Event>, n: nat)
    requires Tuned(t) && t.downGrace > 0 && n < |evs| && TimedFromLimit(t, evs, n)
    ensures TimedFromLimit(t, evs, n + 1)
  {
    var m, k := At(t, evs, n), n + 1;
    MissesCount(t, evs, n);
    SomeReaches(t, evs, n);
    StepTimesMisses(t, m, evs[n]);
    hide Step;
    if Response(evs[n]) {
    } else if m.missSince.Some? {
      var j: nat :| Reaches(t, evs, j, n) && evs[j].now == m.missSince.value;
      ReachesLater(t, evs, j, n);
      assert Reaches(t, evs, j, k);
    } else if evs[n].Unanswered? && m.misses + 1 >= t.downAftMiss {
      ReachesLater(t, evs, n, n);
      assert Reaches(t, evs, n, k);
    } else {
      forall j: nat ensures !Reaches(t, evs, j, k) { ReachesLater(t, evs, j, n); }
    }
  }

  /** At time now, probes have gone unanswered for long enough: the limit was reached, the grace period before now. */
  ghost predicate MissedOut(t: Tuning, evs: seq<Event>, n: nat, now: int)
    requires n <= |evs|
  {
    exists j: nat :: Reaches(t, evs, j, n) && (t.downGrace == 0 || now - evs[j].now >= t.downGrace)
  }

  lemma MissedOutIs(t: Tuning, evs: seq<Event>, n: nat, now: int)
    requires Tuned(t) && n <= |evs|
    ensures MissedDown(t, At(t, evs, n), now) <==> MissedOut(t, evs, n, now)
  {
    MissesCount(t, evs, n);
    SomeReaches(t, evs, n);
    if t.downGrace > 0 {
      GraceTimer(t, evs, n);
      GraceOutIs(t, evs, n, now);
    }
  }

  lemma GraceOutIs(t: Tuning, evs: seq<Event>, n: nat, now: int)
    requires Tuned(t) && t.downGrace > 0 && n <= |evs| && TimedFromLimit(t, evs, n)
    requires (exists j: nat :: Reaches(t, evs, j, n)) <==> At(t, evs, n).misses >= t.downAftMiss
    ensures MissedDown(t, At(t, evs, n), now) <==> MissedOut(t, evs, n, now)
  {
    hide Run;
    var m := At(t, evs, n);
    if m.missSince.Some? {
      var i: nat :| Reaches(t, evs, i, n) && evs[i].now == m.missSince.value;
      forall j: nat | Reaches(t, evs, j, n) ensures j == i { OneReaches(t, evs, i, j, n); }
    }
  }

  // ---------------------------------------------------------------------
  // Every move of a tick.

  /** The clock of the ticks does not go back. */
  ghost predicate Forward(evs: seq<Event>) {
    forall i, j :: 0 <= i < j < |evs| && evs[i].Ticked? && evs[j].Ticked? ==> evs[i].now <= evs[j].now
  }

  /** What a tick must see to start the timer or keep it running. */
  ghost predicate Wants(t: Tuning, m: Mon) {
    match m.state
    case Healthy => Over(t, m)
    case Degraded => Over(t, m) || Under(t, m)
    case Down => Under(t, m)
  }

  /** From event m to event n the state stays, each tick sees what keeps the timer, and no first response resets it. */
  ghost predicate Stretch(t: Tuning, evs: seq<Event>, m: nat, n: nat, state: State)
    requires n <= |evs|
  {
    && m <= n && At(t, evs, n).state == state && At(t, evs, m).revived == At(t, evs, n).revived
    && forall j :: m <= j < n ==> At(t, evs, j).state == state && (evs[j].Ticked? ==> Wants(t, At(t, evs, j)))
  }

  lemma StepKeepsTimer(t: Tuning, m: Mon, ev: Event)
    requires Tuned(t) && Step(t, m, ev).state == m.state && (ev.Ticked? ==> Wants(t, m))
    requires Step(t, m, ev).revived == m.revived
    ensures m.condSince.Some? ==> Step(t, m, ev).condSince == m.condSince
    ensures ev.Ticked? ==> Step(t, m, ev).condSince.Some?
    ensures ev.Ticked? && m.condSince.None? ==> Step(t, m, ev).condSince == Some(ev.now)
  {}

  lemma StepStaysRevived(t: Tuning, m: Mon, ev: Event)
    requires Step(t, m, ev).state == m.state
    ensures m.revived ==> Step(t, m, ev).revived
  {}

  lemma {:induction false} StretchRevived(t: Tuning, evs: seq<Event>, m: nat, n: nat, state: State)
    requires n <= |evs| && m <= n && forall j :: m <= j <= n ==> At(t, evs, j).state == state
    ensures At(t, evs, m).revived ==> At(t, evs, n).revived
    decreases n - m
  {
    if m < n {
      StretchRevived(t, evs, m, n - 1, state);
      assert At(t, evs, n).state == At(t, evs, n - 1).state;
      StepStaysRevived(t, At(t, evs, n - 1), evs[n - 1]);
    }
  }

  lemma StretchShorter(t: Tuning, evs: seq<Event>, m: nat, n: nat, state: State)
    requires m < n <= |evs| && Stretch(t, evs, m, n, state)
    ensures Stretch(t, evs, m, n - 1, state) && At(t, evs, n - 1).revived == At(t, evs, n).revived
  {
    hide Wants;
    assert At(t, evs, n - 1).state == state;
    forall j | m <= j <= n ensures At(t, evs, j).state == state {}
    StretchRevived(t, evs, m, n - 1, state);
    StepStaysRevived(t, At(t, evs, n - 1), evs[n - 1]);
  }

  /** The timer of a stretch that a tick begins has run since that tick, or longer. */
  lemma {:induction false} StretchTimes(t: Tuning, evs: seq<Event>, m: nat, n: nat, state: State)
    requires Tuned(t) && Forward(evs) && m < n <= |evs| && evs[m].Ticked? && Stretch(t, evs, m, n, state)
    ensures At(t, evs, n).condSince.Some? && At(t, evs, n).condSince.value <= evs[m].now
    decreases n
  {
    hide Step;
    hide Wants;
    StretchShorter(t, evs, m, n, state);
    assert At(t, evs, n - 1).state == state && (evs[n - 1].Ticked? ==> Wants(t, At(t, evs, n - 1)));
    StepKeepsTimer(t, At(t, evs, n - 1), evs[n - 1]);
    if m < n - 1 {
      StretchTimes(t, evs, m, n - 1, state);
    } else {
      AlwaysRunning(t, evs, m);
    }
  }

  /** The other way: a running timer was started by a tick that began a stretch. */
  lemma RunningStretch(t: Tuning, evs: seq<Event>, n: nat)
    requires Tuned(t) && n <= |evs| && At(t, evs, n).condSince.Some?
    ensures var m := Run(t, evs, n).since;
            && m < n && evs[m] == Ticked(At(t, evs, n).condSince.value)
            && Stretch(t, evs, m, n, At(t, evs, n).state)
  {
    AlwaysRunning(t, evs, n);
    RunningRevived(t, evs, n);
    hide Over;
    hide Under;
    var h := Run(t, evs, n);
    forall j | h.since <= j < n
      ensures At(t, evs, j).state == h.mon.state && (evs[j].Ticked? ==> Wants(t, At(t, evs, j)))
    {
      assert Held(t, evs, j, h.mon.state, h.mon.condSince.value);
    }
  }

  lemma StepTimedRevived(t: Tuning, m: Mon, ev: Event)
    requires Step(t, m, ev).condSince.Some?
    ensures Step(t, m, ev).revived == m.revived
  {}

  lemma {:induction false} RunningRevived(t: Tuning, evs: seq<Event>, n: nat)
    requires Tuned(t) && n <= |evs| && At(t, evs, n).condSince.Some?
    ensures Run(t, evs, n).since < n && At(t, evs, Run(t, evs, n).since).revived == At(t, evs, n).revived
  {
    hide Step;
    AlwaysRunning(t, evs, n);
    StepTimedRevived(t, At(t, evs, n - 1), evs[n - 1]);
    if At(t, evs, n - 1).condSince.Some? { RunningRevived(t, evs, n - 1); }
  }

  /** The tick at event n ends a stretch at least `long` long. */
  ghost predicate Lasted(t: Tuning, evs: seq<Event>, m: nat, n: nat, long: int)
    requires n < |evs|
  {
    && m < n && evs[m].Ticked? && evs[n].Ticked? && evs[n].now - evs[m].now >= long
    && Stretch(t, evs, m, n, At(t, evs, n).state)
  }

  /** The timer has run for `long` iff there is such a stretch. */
  lemma TimerIff(t: Tuning, evs: seq<Event>, n: nat, long: int)
    requires Tuned(t) && Forward(evs) && n < |evs| && evs[n].Ticked?
    ensures At(t, evs, n).condSince.Some? && evs[n].now - At(t, evs, n).condSince.value >= long <==>
              exists m: nat :: Lasted(t, evs, m, n, long)
  {
    hide Stretch;
    hide Run;
    var c := At(t, evs, n);
    if c.condSince.Some? && evs[n].now - c.condSince.value >= long {
      RunningStretch(t, evs, n);
      assert Lasted(t, evs, Run(t, evs, n).since, n, long);
    }
    if m: nat :| Lasted(t, evs, m, n, long) { StretchTimes(t, evs, m, n, c.state); }
  }

  /**
   A tick moves a healthy path down iff probes have gone unanswered for long enough, and otherwise to degraded iff the
   loss was over the cap at every tick of a stretch at least degradeAft long.
   */
  lemma HealthyMoves(t: Tuning, evs: seq<Event>, n: nat)
    requires Tuned(t) && Forward(evs) && n < |evs| && evs[n].Ticked? && At(t, evs, n).state == Healthy
    ensures At(t, evs, n + 1).state == Down <==> MissedOut(t, evs, n, evs[n].now)
    ensures At(t, evs, n + 1).state == Degraded <==>
              && !MissedOut(t, evs, n, evs[n].now) && Over(t, At(t, evs, n))
              && exists m: nat :: Lasted(t, evs, m, n, t.degradeAft)
  {
    hide Lasted;
    hide MissedOut;
    hide MissedDown;
    hide Over;
    MissedOutIs(t, evs, n, evs[n].now);
    TimerIff(t, evs, n, t.degradeAft);
  }

  /**
   A tick moves a degraded path down iff probes have gone unanswered for long enough, or the loss is over the cap and
   a stretch in which each tick saw it over the cap or under half of it has lasted degradeAft; to healthy iff probes
   are answered, the loss is under half the cap, and such a stretch has lasted recoverAft.
   */
  lemma DegradedMoves(t: Tuning, evs: seq<Event>, n: nat)
    requires Tuned(t) && Forward(evs) && n < |evs| && evs[n].Ticked? && At(t, evs, n).state == Degraded
    ensures At(t, evs, n + 1).state == Down <==>
              || MissedOut(t, evs, n, evs[n].now)
              || (Over(t, At(t, evs, n)) && exists m: nat :: Lasted(t, evs, m, n, t.degradeAft))
    ensures At(t, evs, n + 1).state == Healthy <==>
              && !MissedOut(t, evs, n, evs[n].now) && Under(t, At(t, evs, n))
              && exists m: nat :: Lasted(t, evs, m, n, t.recoverAft)
  {
    hide Lasted;
    hide MissedOut;
    hide MissedDown;
    MissedOutIs(t, evs, n, evs[n].now);
    TimerIff(t, evs, n, t.degradeAft);
    TimerIff(t, evs, n, t.recoverAft);
  }

  /**
   A tick moves a down path to healthy iff the loss was under half the cap at every tick of a stretch at least
   recoverAft long in which it did not first respond; nothing else moves it.
   */
  lemma DownMoves(t: Tuning, evs: seq<Event>, n: nat)
    requires Tuned(t) && Forward(evs) && n < |evs| && evs[n].Ticked? && At(t, evs, n).state == Down
    ensures At(t, evs, n + 1).state == Healthy <==>
              Under(t, At(t, evs, n)) && exists m: nat :: Lasted(t, evs, m, n, t.recoverAft)
    ensures At(t, evs, n + 1).state != Healthy ==> At(t, evs, n + 1).state == Down
  {
    hide Lasted;
    hide Under;
    TimerIff(t, evs, n, t.recoverAft);
  }

  // ---------------------------------------------------------------------
  // In-band windows.

  /** Event j is the last in-band window before event n. */
  ghost predicate LastWindow(evs: seq<Event>, j: nat, n: nat)
    requires n <= |evs|
  {
    j < n && evs[j].InBandSeen? && forall i :: j < i < n ==> !evs[i].InBandSeen?
  }

  lemma StepWindows(t: Tuning, m: Mon, ev: Event)
    ensures Step(t, m, ev).inBandBad ==
              if !ev.InBandSeen? then m.inBandBad else if ev.rate > t.maxLoss then m.inBandBad + 1 else 0
  {}

  /** The counter of bad windows is running iff the last window was bad. */
  lemma {:induction false} BadWindows(t: Tuning, evs: seq<Event>, n: nat)
    requires n <= |evs|
    ensures At(t, evs, n).inBandBad >= 1 <==> exists j: nat :: LastWindow(evs, j, n) && evs[j].rate > t.maxLoss
  {
    if n > 0 {
      BadWindows(t, evs, n - 1);
      StepWindows(t, At(t, evs, n - 1), evs[n - 1]);
      NextWindow(t, evs, n - 1);
    }
  }

  lemma NextWindow(t: Tuning, evs: seq<Event>, n: nat)
    requires n < |evs|
    ensures var k := n + 1;
            (exists j: nat :: LastWindow(evs, j, k) && evs[j].rate > t.maxLoss) <==>
              if evs[n].InBandSeen? then evs[n].rate > t.maxLoss
              else exists j: nat :: LastWindow(evs, j, n) && evs[j].rate > t.maxLoss
  {
    var k := n + 1;
    if evs[n].InBandSeen? {
      assert LastWindow(evs, n, k);
      forall j: nat | LastWindow(evs, j, k) ensures j >= n {}
    } else {
      forall j: nat ensures LastWindow(evs, j, k) <==> LastWindow(evs, j, n) {}
    }
  }

  /** A window degrades a healthy path at once iff it and the window before it were both over the cap. */
  lemma WindowDegradesIff(t: Tuning, evs: seq<Event>, n: nat)
    requires n < |evs| && evs[n].InBandSeen? && At(t, evs, n).state == Healthy
    ensures At(t, evs, n + 1).state == Degraded <==>
              evs[n].rate > t.maxLoss && exists j: nat :: LastWindow(evs, j, n) && evs[j].rate > t.maxLoss
    ensures At(t, evs, n + 1).state != Degraded ==> At(t, evs, n + 1).state == Healthy
  {
    BadWindows(t, evs, n);
  }

  // ---------------------------------------------------------------------
  // The estimate: fast up, slow down.

  ghost function Power(a: real, k: nat): real { if k == 0 then 1.0 else Scale(1.0 - a, Power(a, k - 1)) }

  lemma {:induction false} PowerPositive(a: real, k: nat)
    requires 0.0 < a < 1.0
    ensures Power(a, k) > 0.0
  {
    hide Scale;
    if k > 0 {
      PowerPositive(a, k - 1);
      SameSide(1.0 - a, Power(a, k - 1));
    }
  }

  /** One sample of rate s, off by what is left of the first distance: a further share of the distance goes. */
  lemma MixCloses(a: real, d: real, p: real, s: real)
    ensures Mix(a, s - Scale(d, p), s) == s - Scale(d, Scale(1.0 - a, p))
  {
    assert a * (d * p) == d * (a * p);
    assert d * ((1.0 - a) * p) == d * p - d * (a * p);
  }

  lemma SameSide(d: real, p: real)
    requires p > 0.0
    ensures d > 0.0 <==> Scale(d, p) > 0.0
  {}

  /** An observation of the loss alone, of rate s. */
  ghost predicate Observes(ev: Event, s: real) { ev == RawSeen(s) || ev == InBandSeen(s) || ev == Sampled(s, 0) }

  /** k observations of rate s in a row. */
  ghost predicate Constant(evs: seq<Event>, n: nat, k: nat, s: real) {
    n + k <= |evs| && forall i :: n <= i < n + k ==> Observes(evs[i], s)
  }

  /**
   Under a constant rate the estimate closes in on it geometrically: by the fast weight if the rate is above it, by
   the slow one if below.
   */
  lemma {:induction false} Converges(t: Tuning, evs: seq<Event>, n: nat, k: nat, s: real)
    requires Tuned(t) && Constant(evs, n, k, s)
    ensures var d := s - At(t, evs, n).loss;
            At(t, evs, n + k).loss == s - Scale(d, Power(if d > 0.0 then t.alphaFast else t.alphaSlow, k))
  {
    var d := s - At(t, evs, n).loss;
    var a := if d > 0.0 then t.alphaFast else t.alphaSlow;
    if k == 0 {
      assert Scale(d, 1.0) == d;
    } else {
      Converges(t, evs, n, k - 1, s);
      var m := At(t, evs, n + k - 1);
      PowerPositive(a, k - 1);
      ConvergesStep(t, m, evs[n + k - 1], s, d, Power(a, k - 1));
    }
  }

  lemma ConvergesStep(t: Tuning, m: Mon, ev: Event, s: real, d: real, p: real)
    requires p > 0.0 && m.loss == s - Scale(d, p)
    requires Observes(ev, s)
    ensures var a := if d > 0.0 then t.alphaFast else t.alphaSlow;
            Step(t, m, ev).loss == s - Scale(d, Scale(1.0 - a, p))
  {
    hide Scale;
    hide Mix;
    SameSide(d, p);
    MixCloses(if d > 0.0 then t.alphaFast else t.alphaSlow, d, p, s);
  }

  /**
   The first response of a down path forgets its past: the estimate starts again from nothing. Later responses leave
   the estimate to the samples.
   */
  lemma FirstResponseForgets(t: Tuning, evs: seq<Event>, n: nat)
    requires n < |evs| && Response(evs[n]) && At(t, evs, n).state == Down
    ensures At(t, evs, n + 1).state == Down
    ensures !RespondedSince(t, evs, n) ==> At(t, evs, n + 1).loss == 0.0
    ensures RespondedSince(t, evs, n) && evs[n].Answered? ==> At(t, evs, n + 1).loss == At(t, evs, n).loss
    ensures RespondedSince(t, evs, n) && At(t, evs, n).condSince.Some? ==> At(t, evs, n + 1).condSince.Some?
  {
    RevivedIffResponded(t, evs, n);
  }

  // ---------------------------------------------------------------------
  // Round trip.

  lemma MovesToward(a: real, x: int, y: int)
    requires 0.0 < a < 1.0
    ensures Distance(Drift(a, x, y), x) == Scale(a, Distance(x, y) as real).Floor
    ensures x <= y ==> x <= Drift(a, x, y) <= y
    ensures y <= x ==> y <= Drift(a, x, y) <= x
  {
    hide Scale;
    Part(a, (y - x) as real);
    Part(a, (x - y) as real);
    Opposite(a, (x - y) as real);
    assert (y - x) as real == -((x - y) as real);
    assert Distance(x, y) as real == if x < y then (y - x) as real else (x - y) as real;
  }

  /**
   The first measured round trip is taken over. Each later one moves the estimate towards it by the whole nanoseconds
   of its share of the distance; the jitter moves the same way towards that distance. No other event touches them.
   */
  lemma RoundTripMoves(t: Tuning, evs: seq<Event>, n: nat)
    requires Tuned(t) && n < |evs|
    ensures var m, k, ev := At(t, evs, n), At(t, evs, n + 1), evs[n];
            if ev.Sampled? && ev.rtt > 0 then
              && (m.rtt == 0 ==> k.rtt == ev.rtt)
              && (m.rtt != 0 ==> Toward(t.jitterAlpha, m.rtt, ev.rtt, k.rtt))
              && Toward(t.jitterAlpha, m.jitter, Distance(m.rtt, ev.rtt), k.jitter)
            else k.rtt == m.rtt && k.jitter == m.jitter
  {
    var m, ev := At(t, evs, n), evs[n];
    if ev.Sampled? && ev.rtt > 0 {
      MovesToward(t.jitterAlpha, m.rtt, ev.rtt);
      MovesToward(t.jitterAlpha, m.jitter, Distance(m.rtt, ev.rtt));
    }
  }

  /** From x towards y, by the whole part of the share a of their distance. */
  ghost predicate Toward(a: real, x: int, y: int, z: int) {
    Distance(z, x) == Scale(a, Distance(x, y) as real).Floor && (x <= z <= y || y <= z <= x)
  }
}
