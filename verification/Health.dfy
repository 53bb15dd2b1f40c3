/** The circuit breaker of one path: loss estimate, miss counter and state, with hysteresis. */
module Health {
  import opened Bytes

  datatype State = Healthy | Degraded | Down

  const SECOND := 1_000_000_000

  /** Times in nanoseconds. */
  datatype Tuning = Tuning(maxLoss: real, degradeAft: int, recoverAft: int, downAftMiss: int, downGrace: int,
                           alphaFast: real, alphaSlow: real, jitterAlpha: real)

  ghost predicate Tuned(t: Tuning) {
    && 0.0 < t.maxLoss < 1.0 && t.degradeAft > 0 && t.recoverAft > 0 && t.downAftMiss > 0 && t.downGrace >= 0
    && 0.0 < t.alphaFast < 1.0 && 0.0 < t.alphaSlow < 1.0 && 0.0 < t.jitterAlpha < 1.0
  }

  datatype Mon = Mon(loss: real, rtt: int, jitter: int, state: State, misses: nat, missSince: Option<int>,
                     condSince: Option<int>, revived: bool, inBandBad: nat)

  const FRESH := Mon(0.0, 0, 0, Healthy, 0, None, None, false, 0)

  /** The asymmetric moving average: fast up, slow down. */
  function Blend(t: Tuning, loss: real, sample: real): real {
    Mix(if sample > loss then t.alphaFast else t.alphaSlow, loss, sample)
  }

  function Mix(a: real, x: real, y: real): real { x + Scale(a, y - x) }

  function Scale(a: real, x: real): real { a * x }

  /** The plain moving average of a duration: the change is a float cut to whole nanoseconds, towards zero. */
  function Drift(a: real, x: int, y: int): int { x + Truncate(Scale(a, (y - x) as real)) }

  function Truncate(x: real): int { if x >= 0.0 then x.Floor else -(-x).Floor }

  function Distance(x: int, y: int): nat { if x < y then y - x else x - y }

  /** A measured round trip moves both estimates; the first one is taken over as it is. */
  function Timed(t: Tuning, m: Mon, rtt: int): Mon {
    m.(rtt := if m.rtt == 0 then rtt else Drift(t.jitterAlpha, m.rtt, rtt),
       jitter := Drift(t.jitterAlpha, m.jitter, Distance(m.rtt, rtt)))
  }

  function Enter(m: Mon, s: State): Mon { m.(state := s, condSince := None, revived := false) }

  function Alive(m: Mon): Mon {
    var n := m.(misses := 0, missSince := None);
    if m.state == Down && !m.revived then n.(revived := true, loss := 0.0, condSince := None) else n
  }

  function Missed(t: Tuning, m: Mon, now: int): Mon {
    var n := m.(misses := m.misses + 1);
    if n.misses < t.downAftMiss then n
    else if t.downGrace <= 0 then (if m.state != Down then Enter(n, Down) else n)
    else if m.missSince.None? then n.(missSince := Some(now))
    else n
  }

  function InBand(t: Tuning, m: Mon, rate: real): Mon {
    var n := m.(loss := Blend(t, m.loss, rate));
    if rate > t.maxLoss then
      var bad := n.(inBandBad := m.inBandBad + 1);
      if bad.inBandBad >= 2 && m.state == Healthy then Enter(bad, Degraded) else bad
    else n.(inBandBad := 0)
  }

  predicate Over(t: Tuning, m: Mon) { m.loss > t.maxLoss }

  predicate Under(t: Tuning, m: Mon) { m.loss < t.maxLoss * 0.5 }

  predicate MissedDown(t: Tuning, m: Mon, now: int) {
    m.misses >= t.downAftMiss && (t.downGrace <= 0 || (m.missSince.Some? && now - m.missSince.value >= t.downGrace))
  }

  /** A condition holds at this tick: start its timer, or move on once it has run for long enough. */
  function Persist(m: Mon, now: int, long: int, s: State): Mon {
    if m.condSince.None? then m.(condSince := Some(now))
    else if now - m.condSince.value >= long then Enter(m, s)
    else m
  }

  function Tick(t: Tuning, m: Mon, now: int): Mon {
    match m.state
    case Healthy =>
      if MissedDown(t, m, now) then Enter(m, Down)
      else if Over(t, m) then Persist(m, now, t.degradeAft, Degraded)
      else m.(condSince := None)
    case Degraded =>
      if MissedDown(t, m, now) then Enter(m, Down)
      else if Over(t, m) then Persist(m, now, t.degradeAft, Down)
      else if Under(t, m) then Persist(m, now, t.recoverAft, Healthy)
      else m.(condSince := None)
    case Down =>
      if Under(t, m) then Persist(m, now, t.recoverAft, Healthy)
      else m.(condSince := None)
  }

  datatype Event =
    | Sampled(loss: real, rtt: int)
    | Answered
    | Unanswered(now: int)
    | InBandSeen(rate: real)
    | RawSeen(rate: real)
    | Ticked(now: int)

  /** Samples and rates are fractions. */
  ghost predicate Fraction(ev: Event) {
    match ev
    case Sampled(loss, _) => 0.0 <= loss <= 1.0
    case InBandSeen(rate) => 0.0 <= rate <= 1.0
    case RawSeen(rate) => 0.0 <= rate <= 1.0
    case _ => true
  }

  function Step(t: Tuning, m: Mon, ev: Event): Mon {
    match ev
    case Sampled(loss, rtt) =>
      var n := m.(loss := Blend(t, m.loss, loss));
      if rtt > 0 then Alive(Timed(t, n, rtt)) else n
    case Answered => Alive(m)
    case Unanswered(now) => Missed(t, m, now)
    case InBandSeen(rate) => InBand(t, m, rate)
    case RawSeen(rate) => m.(loss := Blend(t, m.loss, rate))
    case Ticked(now) => Tick(t, m, now)
  }

  // ---------------------------------------------------------------------
  // Runs. since is the event at which the running condition timer was started.

  datatype History = History(mon: Mon, since: nat)

  ghost function Run(t: Tuning, evs: seq<Event>, n: nat): History
    requires n <= |evs|
  {
    if n == 0 then History(FRESH, 0)
    else
      var h := Run(t, evs, n - 1);
      var m := Step(t, h.mon, evs[n - 1]);
      History(m, if h.mon.condSince.None? && m.condSince.Some? then n - 1 else h.since)
  }

  ghost function At(t: Tuning, evs: seq<Event>, n: nat): Mon
    requires n <= |evs|
  {
    Run(t, evs, n).mon
  }

  // ---------------------------------------------------------------------
  // The estimate stays a fraction; revived means down.

  lemma BlendIsFraction(t: Tuning, loss: real, sample: real)
    requires Tuned(t) && 0.0 <= loss <= 1.0 && 0.0 <= sample <= 1.0
    ensures 0.0 <= Blend(t, loss, sample) <= 1.0
  {
    hide Mix;
    MixBetween(if sample > loss then t.alphaFast else t.alphaSlow, loss, sample, 0.0, 1.0);
  }

  /** An average of two numbers in a range stays in it. */
  lemma MixBetween(a: real, x: real, y: real, lo: real, hi: real)
    requires 0.0 < a < 1.0 && lo <= x <= hi && lo <= y <= hi
    ensures lo <= Mix(a, x, y) <= hi
  {
    hide Scale;
    Part(a, y - x);
    Part(a, x - y);
    Opposite(a, x - y);
  }

  lemma Part(a: real, x: real)
    requires 0.0 < a < 1.0
    ensures x >= 0.0 ==> 0.0 <= Scale(a, x) <= x
  {}

  lemma Opposite(a: real, x: real)
    ensures Scale(a, -x) == -Scale(a, x)
  {}

  ghost predicate Sound(m: Mon) { 0.0 <= m.loss <= 1.0 && (m.revived ==> m.state == Down) }

  lemma StepSound(t: Tuning, m: Mon, ev: Event)
    requires Tuned(t) && Sound(m) && Fraction(ev)
    ensures Sound(Step(t, m, ev))
  {
    match ev
    case Sampled(loss, rtt) => BlendIsFraction(t, m.loss, loss);
    case InBandSeen(rate) => BlendIsFraction(t, m.loss, rate);
    case RawSeen(rate) => BlendIsFraction(t, m.loss, rate);
    case _ =>
  }

  /** In every run the loss estimate is a fraction, and only a down path can be marked revived. */
  lemma {:induction false} AlwaysSound(t: Tuning, evs: seq<Event>, n: nat)
    requires Tuned(t) && n <= |evs| && forall i :: 0 <= i < |evs| ==> Fraction(evs[i])
    ensures Sound(At(t, evs, n))
  {
    if n > 0 {
      AlwaysSound(t, evs, n - 1);
      StepSound(t, At(t, evs, n - 1), evs[n - 1]);
    }
  }

  // ---------------------------------------------------------------------
  // Sustained conditions.

  /** What a tick may see, at time now, while the timer started at `start` goes on running. */
  ghost predicate Keeps(t: Tuning, m: Mon, start: int, now: int) {
    match m.state
    case Healthy => Over(t, m)
    case Degraded => (Over(t, m) && now - start < t.degradeAft) || (Under(t, m) && now - start < t.recoverAft)
    case Down => Under(t, m)
  }

  /** Event j, seen from the running timer of event n: the state is the same, and a tick kept the timer going. */
  ghost predicate Held(t: Tuning, evs: seq<Event>, j: nat, state: State, start: int)
    requires j < |evs|
  {
    At(t, evs, j).state == state && (evs[j].Ticked? ==> Keeps(t, At(t, evs, j), start, evs[j].now))
  }

  /** The timer running at n was started by a tick, and every event since has kept it. */
  ghost predicate Running(t: Tuning, evs: seq<Event>, n: nat)
    requires n <= |evs|
  {
    var h := Run(t, evs, n);
    h.mon.condSince.Some? ==>
      && h.since < n && evs[h.since] == Ticked(h.mon.condSince.value)
      && forall j :: h.since <= j < n ==> Held(t, evs, j, h.mon.state, h.mon.condSince.value)
  }

  lemma TimerStays(t: Tuning, m: Mon, ev: Event)
    requires Tuned(t) && Step(t, m, ev).condSince.Some?
    ensures Step(t, m, ev).state == m.state
    ensures m.condSince.Some? ==> Step(t, m, ev).condSince == m.condSince
    ensures m.condSince.None? ==> ev.Ticked? && Step(t, m, ev).condSince == Some(ev.now)
    ensures ev.Ticked? ==> Keeps(t, m, Step(t, m, ev).condSince.value, ev.now)
  {}

  lemma {:induction false} AlwaysRunning(t: Tuning, evs: seq<Event>, n: nat)
    requires Tuned(t) && n <= |evs|
    ensures Running(t, evs, n)
  {
    if n > 0 {
      AlwaysRunning(t, evs, n - 1);
      if At(t, evs, n).condSince.Some? { TimerStays(t, At(t, evs, n - 1), evs[n - 1]); }
    }
  }

  /** Every tick from event m up to event n-1 saw what ok says, in the given state. */
  ghost predicate AllTicks(t: Tuning, evs: seq<Event>, m: nat, n: nat, state: State, ok: Mon -> bool)
    requires n <= |evs|
  {
    forall j :: m <= j < n ==> At(t, evs, j).state == state && (evs[j].Ticked? ==> ok(At(t, evs, j)))
  }

  /**
   The tick at event n ends a condition that held at every tick of a stretch at least `long` long, from event m on.
   */
  ghost predicate Sustained(t: Tuning, evs: seq<Event>, m: nat, n: nat, state: State, long: int, ok: Mon -> bool)
    requires n < |evs|
  {
    && m < n && evs[m].Ticked? && evs[n].Ticked? && evs[n].now - evs[m].now >= long
    && AllTicks(t, evs, m, n + 1, state, ok)
  }

  /** A tick that leaves a state by its timer: the condition holds now and has run for long enough. */
  lemma TimerEnds(t: Tuning, m: Mon, now: int)
    requires Tick(t, m, now).state != m.state && !(MissedDown(t, m, now) && m.state != Down)
    ensures m.condSince.Some?
    ensures match m.state
            case Healthy => Over(t, m) && now - m.condSince.value >= t.degradeAft && Tick(t, m, now).state == Degraded
            case Degraded =>
              || (Over(t, m) && now - m.condSince.value >= t.degradeAft && Tick(t, m, now).state == Down)
              || (Under(t, m) && now - m.condSince.value >= t.recoverAft && Tick(t, m, now).state == Healthy)
            case Down => Under(t, m) && now - m.condSince.value >= t.recoverAft && Tick(t, m, now).state == Healthy
  {}

  /** A tick degrades a healthy path only after the loss was over the cap at every tick for degradeAft. */
  lemma DegradesOnlyAfter(t: Tuning, evs: seq<Event>, n: nat)
    requires Tuned(t) && n < |evs| && evs[n].Ticked?
    requires At(t, evs, n).state == Healthy && At(t, evs, n + 1).state == Degraded
    ensures Sustained(t, evs, Run(t, evs, n).since, n, Healthy, t.degradeAft, m => Over(t, m))
  {
    TimerEnds(t, At(t, evs, n), evs[n].now);
    AlwaysRunning(t, evs, n);
    HeldOver(t, evs, Run(t, evs, n).since, n);
  }

  lemma HeldOver(t: Tuning, evs: seq<Event>, m: nat, n: nat)
    requires m < n < |evs| && evs[m].Ticked? && evs[n].Ticked? && evs[n].now - evs[m].now >= t.degradeAft
    requires At(t, evs, n).state == Healthy && Over(t, At(t, evs, n))
    requires forall j :: m <= j < n ==> Held(t, evs, j, Healthy, evs[m].now)
    ensures Sustained(t, evs, m, n, Healthy, t.degradeAft, x => Over(t, x))
  {
    hide Run;
    hide Over;
    hide Under;
    forall j | m <= j < n
      ensures At(t, evs, j).state == Healthy && (evs[j].Ticked? ==> Over(t, At(t, evs, j)))
    {
      assert Held(t, evs, j, Healthy, evs[m].now);
    }
  }

  /** A down path leaves only for healthy, on a tick, and only after the loss was under half the cap for recoverAft. */
  lemma RecoversOnlyAfter(t: Tuning, evs: seq<Event>, n: nat)
    requires Tuned(t) && n < |evs| && At(t, evs, n).state == Down && At(t, evs, n + 1).state != Down
    ensures evs[n].Ticked? && At(t, evs, n + 1).state == Healthy
    ensures Sustained(t, evs, Run(t, evs, n).since, n, Down, t.recoverAft, m => Under(t, m))
  {
    Moves(t, At(t, evs, n), evs[n]);
    TimerEnds(t, At(t, evs, n), evs[n].now);
    AlwaysRunning(t, evs, n);
    hide Tick;
    hide Under;
    var m := Run(t, evs, n).since;
    forall j | m <= j < n
      ensures At(t, evs, j).state == Down && (evs[j].Ticked? ==> Under(t, At(t, evs, j)))
    {
      assert Held(t, evs, j, Down, evs[m].now);
    }
  }

  /** Event j of a degraded stretch that began at event m: what its tick may have seen. */
  ghost predicate LateUnder(t: Tuning, evs: seq<Event>, m: nat, j: nat)
    requires m < |evs| && j < |evs|
  {
    && At(t, evs, j).state == Degraded
    && (evs[j].Ticked? ==> Over(t, At(t, evs, j)) || Under(t, At(t, evs, j)))
    && (evs[j].Ticked? && evs[m].Ticked? && evs[j].now - evs[m].now >= t.degradeAft ==> Under(t, At(t, evs, j)))
  }

  /**
   A degraded path shares one timer between getting worse and getting better. It recovers on a tick at least
   recoverAft after the timer started, and from degradeAft after the start on every tick saw the loss under
   half the cap; before that, ticks may have seen it over the cap.
   */
  lemma DegradedRecovers(t: Tuning, evs: seq<Event>, n: nat)
    requires Tuned(t) && n < |evs| && At(t, evs, n).state == Degraded && At(t, evs, n + 1).state == Healthy
    ensures var m := Run(t, evs, n).since;
            && m < n && evs[m].Ticked? && evs[n].Ticked? && evs[n].now - evs[m].now >= t.recoverAft
            && Under(t, At(t, evs, n))
            && forall j :: m <= j < n ==> LateUnder(t, evs, m, j)
  {
    Moves(t, At(t, evs, n), evs[n]);
    TimerEnds(t, At(t, evs, n), evs[n].now);
    AlwaysRunning(t, evs, n);
    hide Tick;
    hide MissedDown;
    var m := Run(t, evs, n).since;
    forall j | m <= j < n ensures LateUnder(t, evs, m, j) {
      assert Held(t, evs, j, Degraded, evs[m].now);
    }
  }

  /** No tick from event m up to event n-1 saw what `bad` says. */
  ghost predicate NeverSeen(t: Tuning, evs: seq<Event>, m: nat, n: nat, bad: Mon -> bool)
    requires n <= |evs|
  {
    forall j :: m <= j < n && evs[j].Ticked? ==> !bad(At(t, evs, j))
  }

  /**
   The timer runs from event m to event n in the degraded state, and each of its ticks saw one of the two conditions.
   */
  ghost predicate Shared(t: Tuning, evs: seq<Event>, m: nat, n: nat)
    requires n < |evs|
  {
    && m < n && evs[m].Ticked? && evs[n].Ticked?
    && forall j :: m <= j <= n ==> SharedTick(t, evs[j], At(t, evs, j))
  }

  ghost predicate SharedTick(t: Tuning, ev: Event, m: Mon) {
    m.state == Degraded && (ev.Ticked? ==> Over(t, m) || Under(t, m)) && !(Over(t, m) && Under(t, m))
  }

  lemma SharedUnder(t: Tuning, evs: seq<Event>, m: nat, n: nat)
    requires n < |evs| && Shared(t, evs, m, n) && Under(t, At(t, evs, n)) && evs[n].now - evs[m].now >= t.recoverAft
    ensures Sustained(t, evs, m, n, Degraded, t.recoverAft, x => Under(t, x)) <==>
              NeverSeen(t, evs, m, n, x => Over(t, x))
  {
    hide Run;
    hide Over;
    hide Under;
    assert forall j :: m <= j <= n ==> SharedTick(t, evs[j], At(t, evs, j));
  }

  lemma SharedOver(t: Tuning, evs: seq<Event>, m: nat, n: nat)
    requires n < |evs| && Shared(t, evs, m, n) && Over(t, At(t, evs, n)) && evs[n].now - evs[m].now >= t.degradeAft
    ensures Sustained(t, evs, m, n, Degraded, t.degradeAft, x => Over(t, x)) <==>
              NeverSeen(t, evs, m, n, x => Under(t, x))
  {
    hide Run;
    hide Over;
    hide Under;
    assert forall j :: m <= j <= n ==> SharedTick(t, evs[j], At(t, evs, j));
  }

  /**
   A degraded path that leaves that state on a tick without missed probes: the timer was shared by both conditions.
   */
  lemma LeavesShared(t: Tuning, evs: seq<Event>, n: nat)
    requires Tuned(t) && n < |evs| && evs[n].Ticked? && !MissedDown(t, At(t, evs, n), evs[n].now)
    requires At(t, evs, n).state == Degraded && At(t, evs, n + 1).state != Degraded
    ensures Shared(t, evs, Run(t, evs, n).since, n)
    ensures At(t, evs, n + 1).state == Healthy ==>
              Under(t, At(t, evs, n)) && evs[n].now - evs[Run(t, evs, n).since].now >= t.recoverAft
    ensures At(t, evs, n + 1).state == Down ==>
              Over(t, At(t, evs, n)) && evs[n].now - evs[Run(t, evs, n).since].now >= t.degradeAft
  {
    TimerEnds(t, At(t, evs, n), evs[n].now);
    AlwaysRunning(t, evs, n);
    hide Tick;
    hide MissedDown;
    var m := Run(t, evs, n).since;
    forall j | m <= j < n ensures SharedTick(t, evs[j], At(t, evs, j)) {
      assert Held(t, evs, j, Degraded, evs[m].now);
    }
  }

  /**
   A recovery from degraded had the loss under half the cap for all of recoverAft iff no tick over the cap started or
   kept the timer.
   */
  lemma RecoverySustainedIff(t: Tuning, evs: seq<Event>, n: nat)
    requires Tuned(t) && n < |evs| && At(t, evs, n).state == Degraded && At(t, evs, n + 1).state == Healthy
    ensures var m := Run(t, evs, n).since;
            Sustained(t, evs, m, n, Degraded, t.recoverAft, x => Under(t, x)) <==>
              NeverSeen(t, evs, m, n, x => Over(t, x))
  {
    Moves(t, At(t, evs, n), evs[n]);
    LeavesShared(t, evs, n);
    SharedUnder(t, evs, Run(t, evs, n).since, n);
  }

  /**
   The mirror image: going down for loss had it over the cap for all of degradeAft iff no tick under half the cap
   started or kept the timer.
   */
  lemma EscalationSustainedIff(t: Tuning, evs: seq<Event>, n: nat)
    requires Tuned(t) && n < |evs| && evs[n].Ticked? && !MissedDown(t, At(t, evs, n), evs[n].now)
    requires At(t, evs, n).state == Degraded && At(t, evs, n + 1).state == Down
    ensures var m := Run(t, evs, n).since;
            Sustained(t, evs, m, n, Degraded, t.degradeAft, x => Over(t, x)) <==>
              NeverSeen(t, evs, m, n, x => Under(t, x))
  {
    LeavesShared(t, evs, n);
    SharedOver(t, evs, Run(t, evs, n).since, n);
  }

  /** The shared timer for real: one tick over the cap, and the first tick under it recovers at once. */
  lemma DegradedRecoversAtOnce()
    ensures var t := Tuning(0.2, 20, 10, 3, 0, 0.4, 0.9, 0.1);
            var evs := [InBandSeen(1.0), InBandSeen(1.0), Ticked(0), RawSeen(0.0), Ticked(10)];
            && Tuned(t) && Over(t, At(t, evs, 2)) && At(t, evs, 4).state == Degraded && At(t, evs, 5).state == Healthy
            && forall j :: 0 <= j < 4 && evs[j].Ticked? ==> Over(t, At(t, evs, j))
  {
    var t := Tuning(0.2, 20, 10, 3, 0, 0.4, 0.9, 0.1);
    var evs := [InBandSeen(1.0), InBandSeen(1.0), Ticked(0), RawSeen(0.0), Ticked(10)];
    assert At(t, evs, 0) == FRESH;
    assert At(t, evs, 1).loss == 0.4 && At(t, evs, 1).state == Healthy && At(t, evs, 1).inBandBad == 1;
    assert At(t, evs, 2).loss == 0.64 && At(t, evs, 2).state == Degraded && At(t, evs, 2).condSince.None?;
    assert At(t, evs, 2).misses == 0;
    assert At(t, evs, 3).condSince == Some(0) && At(t, evs, 3).loss == 0.64 && At(t, evs, 3).misses == 0;
    assert At(t, evs, 4).loss == 0.064 && At(t, evs, 4).condSince == Some(0) && At(t, evs, 4).misses == 0;
  }

  /** And the mirror image: one tick under half the cap, and the first tick over it takes the path down at once. */
  lemma DegradedFallsAtOnce()
    ensures var t := Tuning(0.2, 20, 10, 3, 0, 0.4, 0.9, 0.1);
            var evs := [InBandSeen(1.0), InBandSeen(1.0), RawSeen(0.0), Ticked(0), RawSeen(1.0), Ticked(20)];
            && Tuned(t) && Under(t, At(t, evs, 3)) && At(t, evs, 5).state == Degraded && At(t, evs, 6).state == Down
            && At(t, evs, 5).misses == 0 && forall j :: 0 <= j < 5 && evs[j].Ticked? ==> Under(t, At(t, evs, j))
  {
    var t := Tuning(0.2, 20, 10, 3, 0, 0.4, 0.9, 0.1);
    var evs := [InBandSeen(1.0), InBandSeen(1.0), RawSeen(0.0), Ticked(0), RawSeen(1.0), Ticked(20)];
    assert At(t, evs, 0) == FRESH;
    assert At(t, evs, 1) == FRESH.(loss := 0.4, inBandBad := 1);
    assert At(t, evs, 2) == FRESH.(loss := 0.64, inBandBad := 2, state := Degraded);
    assert At(t, evs, 3) == FRESH.(loss := 0.064, inBandBad := 2, state := Degraded);
    assert At(t, evs, 4) == FRESH.(loss := 0.064, inBandBad := 2, state := Degraded, condSince := Some(0));
    assert At(t, evs, 5) == FRESH.(loss := 0.4384, inBandBad := 2, state := Degraded, condSince := Some(0));
  }

  // ---------------------------------------------------------------------
  // Responses. A down path is promised to return once responses resume; the code looks at the loss estimate alone.

  predicate Response(ev: Event) { ev.Answered? || (ev.Sampled? && ev.rtt > 0) }

  /** The event after which the path has been down without a break. */
  ghost function WentDown(t: Tuning, evs: seq<Event>, n: nat): nat
    requires n <= |evs|
  {
    if n > 0 && At(t, evs, n - 1).state == Down then WentDown(t, evs, n - 1) else n
  }

  ghost predicate RespondedSince(t: Tuning, evs: seq<Event>, n: nat)
    requires n <= |evs|
  {
    exists j :: WentDown(t, evs, n) <= j < n && Response(evs[j])
  }

  lemma StepRevives(t: Tuning, m: Mon, ev: Event)
    requires Step(t, m, ev).state == Down
    ensures m.state == Down ==> (Step(t, m, ev).revived <==> m.revived || Response(ev))
    ensures m.state != Down ==> !Step(t, m, ev).revived
  {}

  /** In every run a down path is marked revived iff it has responded since it went down. */
  lemma {:induction false} RevivedIffResponded(t: Tuning, evs: seq<Event>, n: nat)
    requires n <= |evs| && At(t, evs, n).state == Down
    ensures WentDown(t, evs, n) <= n
    ensures At(t, evs, n).revived <==> RespondedSince(t, evs, n)
  {
    if n > 0 {
      StepRevives(t, At(t, evs, n - 1), evs[n - 1]);
      if At(t, evs, n - 1).state == Down { RevivedIffResponded(t, evs, n - 1); }
    }
  }

  /** A down path returns to healthy after a response iff it is marked revived at the tick that brings it back. */
  lemma ReturnsAnsweredIff(t: Tuning, evs: seq<Event>, n: nat)
    requires Tuned(t) && n < |evs| && At(t, evs, n).state == Down && At(t, evs, n + 1).state == Healthy
    ensures RespondedSince(t, evs, n) <==> At(t, evs, n).revived
    ensures Under(t, At(t, evs, n))
  {
    RevivedIffResponded(t, evs, n);
    RecoversOnlyAfter(t, evs, n);
  }

  /** Nothing was ever answered: a path whose estimate was low when it went down comes back by waiting. */
  lemma ReturnsUnanswered()
    ensures var t := Tuning(0.2, 20, 10, 1, 0, 0.4, 0.9, 0.1);
            var evs := [Unanswered(0), Ticked(1), Ticked(11)];
            && Tuned(t) && At(t, evs, 1).state == Down && At(t, evs, 3).state == Healthy
            && forall j :: 0 <= j < |evs| ==> !Response(evs[j])
  {
    var t := Tuning(0.2, 20, 10, 1, 0, 0.4, 0.9, 0.1);
    var evs := [Unanswered(0), Ticked(1), Ticked(11)];
    assert At(t, evs, 0) == FRESH;
    assert At(t, evs, 1) == FRESH.(misses := 1, state := Down);
    assert At(t, evs, 2) == FRESH.(misses := 1, state := Down, condSince := Some(1));
  }

  // ---------------------------------------------------------------------
  // Round trip and jitter.

  ghost predicate Within(m: Mon, most: int) { 0 <= m.rtt <= most && 0 <= m.jitter <= most }

  lemma DriftBetween(a: real, x: int, y: int, most: int)
    requires 0.0 < a < 1.0 && 0 <= x <= most && 0 <= y <= most
    ensures 0 <= Drift(a, x, y) <= most
  {
    hide Scale;
    Part(a, (y - x) as real);
    Part(a, (x - y) as real);
    Opposite(a, (x - y) as real);
    assert (y - x) as real == -((x - y) as real);
  }

  lemma StepWithin(t: Tuning, m: Mon, ev: Event, most: int)
    requires Tuned(t) && Within(m, most) && (ev.Sampled? ==> ev.rtt <= most)
    ensures Within(Step(t, m, ev), most)
  {
    if ev.Sampled? && ev.rtt > 0 {
      DriftBetween(t.jitterAlpha, m.rtt, ev.rtt, most);
      DriftBetween(t.jitterAlpha, m.jitter, Distance(m.rtt, ev.rtt), most);
    }
  }

  /** In every run the round-trip and jitter estimates are between 0 and the longest round trip measured. */
  lemma {:induction false} EstimatesBounded(t: Tuning, evs: seq<Event>, n: nat, most: nat)
    requires Tuned(t) && n <= |evs| && forall i :: 0 <= i < |evs| && evs[i].Sampled? ==> evs[i].rtt <= most
    ensures Within(At(t, evs, n), most)
  {
    if n > 0 {
      EstimatesBounded(t, evs, n - 1, most);
      StepWithin(t, At(t, evs, n - 1), evs[n - 1], most);
    }
  }

  /** The moves a step can make: a down path is never degraded, and only a tick brings a path back to healthy. */
  lemma Moves(t: Tuning, m: Mon, ev: Event)
    requires Tuned(t) && Step(t, m, ev).state != m.state
    ensures Step(t, m, ev).state == Healthy ==> ev.Ticked?
    ensures Step(t, m, ev).state == Degraded ==>
              m.state == Healthy && (ev.Ticked? || (ev.InBandSeen? && m.inBandBad >= 1))
    ensures Step(t, m, ev).state == Down ==>
              ev.Ticked? || (ev.Unanswered? && m.misses + 1 >= t.downAftMiss && t.downGrace == 0)
  {}

  // ---------------------------------------------------------------------
  // The object.

  class Monitor {
    const t: Tuning
    var loss: real
    var rtt: int
    var jitter: int
    var state: State
    var misses: nat
    var missSince: Option<int>
    var condSince: Option<int>
    var revived: bool
    var inBandBad: nat

    ghost function Abs(): Mon
      reads this
    {
      Mon(loss, rtt, jitter, state, misses, missSince, condSince, revived, inBandBad)
    }

    constructor (maxLoss: real, degradeAft: int, recoverAft: int, downAftMiss: int, downGrace: int,
                 alphaFast: real, alphaSlow: real, jitterAlpha: real)
      ensures Tuned(t) && Abs() == FRESH
      ensures t.maxLoss == (if 0.0 < maxLoss < 1.0 then maxLoss else 0.2)
      ensures t.degradeAft == (if degradeAft > 0 then degradeAft else 3 * SECOND)
      ensures t.recoverAft == (if recoverAft > 0 then recoverAft else 10 * SECOND)
      ensures t.downAftMiss == (if downAftMiss > 0 then downAftMiss else 3)
      ensures t.downGrace == (if downGrace >= 0 then downGrace else 0)
      ensures t.alphaFast == (if 0.0 < alphaFast < 1.0 then alphaFast else 0.4)
      ensures t.alphaSlow == (if 0.0 < alphaSlow < 1.0 then alphaSlow else 0.03)
      ensures t.jitterAlpha == (if 0.0 < jitterAlpha < 1.0 then jitterAlpha else 0.1)
    {
      t := Tuning(if maxLoss <= 0.0 || maxLoss >= 1.0 then 0.2 else maxLoss,
                  if degradeAft <= 0 then 3 * SECOND else degradeAft,
                  if recoverAft <= 0 then 10 * SECOND else recoverAft,
                  if downAftMiss <= 0 then 3 else downAftMiss,
                  if downGrace < 0 then 0 else downGrace,
                  if alphaFast <= 0.0 || alphaFast >= 1.0 then 0.4 else alphaFast,
                  if alphaSlow <= 0.0 || alphaSlow >= 1.0 then 0.03 else alphaSlow,
                  if jitterAlpha <= 0.0 || jitterAlpha >= 1.0 then 0.1 else jitterAlpha);
      loss, rtt, jitter, state := 0.0, 0, 0, Healthy;
      misses, missSince, condSince, revived, inBandBad := 0, None, None, false, 0;
    }

    method Average(sample: real)
      modifies this`loss
      ensures loss == Blend(t, old(loss), sample)
    {
      if sample > loss {
        loss := loss + Scale(t.alphaFast, sample - loss);
      } else {
        loss := loss + Scale(t.alphaSlow, sample - loss);
      }
    }

    method ObserveSample(sample: real, took: int)
      modifies this
      ensures Abs() == Step(t, old(Abs()), Sampled(sample, took))
    {
      hide Scale;
      Average(sample);
      if took > 0 {
        var delta := took - rtt;
        if delta < 0 { delta := -delta; }
        if rtt == 0 {
          rtt := took;
        } else {
          rtt := rtt + Truncate(Scale(t.jitterAlpha, (took - rtt) as real));
        }
        jitter := jitter + Truncate(Scale(t.jitterAlpha, (delta - jitter) as real));
        NoteAlive();
      }
    }

    method NoteAlive()
      modifies this
      ensures Abs() == Alive(old(Abs()))
    {
      misses, missSince := 0, None;
      if state == Down && !revived {
        revived, loss, condSince := true, 0.0, None;
      }
    }

    method NoteMissedProbe(now: int)
      modifies this
      ensures Abs() == Step(t, old(Abs()), Unanswered(now))
    {
      misses := misses + 1;
      if misses >= t.downAftMiss {
        if t.downGrace <= 0 {
          if state != Down { SetState(Down); }
        } else if missSince.None? {
          missSince := Some(now);
        }
      }
    }

    method ObserveInBand(rate: real)
      modifies this
      ensures Abs() == Step(t, old(Abs()), InBandSeen(rate))
    {
      Average(rate);
      if rate > t.maxLoss {
        inBandBad := inBandBad + 1;
        if inBandBad >= 2 && state == Healthy { SetState(Degraded); }
      } else {
        inBandBad := 0;
      }
    }

    method ObserveRaw(rate: real)
      modifies this
      ensures Abs() == Step(t, old(Abs()), RawSeen(rate))
    {
      Average(rate);
    }

    method Tick(now: int)
      modifies this
      ensures Abs() == Step(t, old(Abs()), Ticked(now))
    {
      var missedDown := misses >= t.downAftMiss
                        && (t.downGrace <= 0 || (missSince.Some? && now - missSince.value >= t.downGrace));
      match state
      case Healthy =>
        if missedDown { SetState(Down); return; }
        if loss > t.maxLoss {
          Hold(now, t.degradeAft, Degraded);
        } else {
          condSince := None;
        }
      case Degraded =>
        if missedDown { SetState(Down); return; }
        if loss > t.maxLoss {
          Hold(now, t.degradeAft, Down);
        } else if loss < t.maxLoss * 0.5 {
          Hold(now, t.recoverAft, Healthy);
        } else {
          condSince := None;
        }
      case Down =>
        if loss < t.maxLoss * 0.5 {
          Hold(now, t.recoverAft, Healthy);
        } else {
          condSince := None;
        }
    }

    method Hold(now: int, long: int, s: State)
      modifies this
      ensures Abs() == Persist(old(Abs()), now, long, s)
    {
      if condSince.None? {
        condSince := Some(now);
      } else if now - condSince.value >= long {
        SetState(s);
      }
    }

    method SetState(s: State)
      modifies this
      ensures Abs() == Enter(old(Abs()), s)
    {
      state, condSince, revived := s, None, false;
    }
  }
}
