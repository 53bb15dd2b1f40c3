/** When the path ledger books a counter, and as what, told from the events of a run. */
module LedgerLaws {
  import opened Bytes
  import opened PathLedger

  /** The run up to event n. */
  ghost function At(evs: seq<Event>, n: nat): Books
    requires n <= |evs|
  {
    Run(evs[..n])
  }

  lemma OneEvent(evs: seq<Event>, n: nat)
    requires n < |evs|
    ensures At(evs, n + 1) == Step(At(evs, n), evs[n]) && Invariant(At(evs, n))
  {
    assert evs[..n + 1][..n] == evs[..n] && evs[..n + 1][n] == evs[n];
    LedgerBalances(evs[..n]);
  }

  /** Some counter waits for the ones before it. */
  ghost predicate Waits(evs: seq<Event>, n: nat)
    requires n <= |evs|
  {
    At(evs, n).stat.pending != {}
  }

  /** Event n moved next. */
  ghost predicate Booked(evs: seq<Event>, n: nat)
    requires n < |evs|
  {
    At(evs, n + 1).stat.next != At(evs, n).stat.next
  }

  /** The event since which some counter has waited without a break and without a tick booking a gap. */
  ghost function OpenSince(evs: seq<Event>, n: nat): (m: nat)
    requires n <= |evs|
    ensures n > 0 ==> m < n
  {
    if n == 0 then 0
    else if Waits(evs, n - 1) && !(evs[n - 1].Ticked? && Booked(evs, n - 1)) then OpenSince(evs, n - 1)
    else n - 1
  }

  /** When the gap timer that runs after a step was started. */
  ghost predicate TimerStep(b: Books, ev: Event, a: Books) {
    a.stat.pending != {} ==>
      if b.stat.pending != {} && !(ev.Ticked? && a.stat.next != b.stat.next) then a.stat.gapSince == b.stat.gapSince
      else !ev.Taken? && a.stat.gapSince == Some(ev.now)
  }

  lemma DrainShrinks(s: Stat)
    ensures Drain(s).pending <= s.pending && Drain(s).gapSince == s.gapSince
    decreases |s.pending|
  {
    if s.next in s.pending {
      DrainShrinks(s.(pending := s.pending - {s.next}, received := s.received + 1, next := s.next + 1));
    }
  }

  lemma StepTimes(b: Books, ev: Event)
    requires Invariant(b)
    ensures TimerStep(b, ev, Step(b, ev))
  {
    hide Drain;
    var s := b.stat;
    match ev
    case Saw(c, now) => DrainShrinks(s.(received := s.received + 1, next := c + 1));
    case Ticked(now) => FlushIs(s, now);
    case Taken =>
  }

  /** A tick either leaves the stream alone, or books the gap below the lowest waiting counter. */
  lemma FlushIs(s: Stat, now: int)
    requires (forall c :: c in s.pending ==> c > s.next) && (s.gapSince.Some? <==> s.pending != {})
    ensures var d := FlushGap(s, now);
            if s.next == 0 || s.pending == {} || now - s.gapSince.value < PATH_GAP_WINDOW then d == s
            else d.next > s.next && d.gapSince == if d.pending == {} then None else Some(now)
  {
    if s.next != 0 && s.pending != {} && now - s.gapSince.value >= PATH_GAP_WINDOW {
      LeastExists(s.pending);
      var lo :| Least(lo, s.pending);
      LeastUnique(s.pending, lo);
      DrainBooks(s.(lost := s.lost + Sub(lo, s.next), next := lo));
    }
  }

  /** In every run the gap timer runs from there. */
  lemma {:induction false} TimerRuns(evs: seq<Event>, n: nat)
    requires n <= |evs| && Waits(evs, n)
    ensures var m := OpenSince(evs, n);
            m < n && !evs[m].Taken? && At(evs, n).stat.gapSince == Some(evs[m].now)
  {
    hide Step;
    hide Invariant;
    if n > 0 {
      OneEvent(evs, n - 1);
      StepTimes(At(evs, n - 1), evs[n - 1]);
      if Waits(evs, n - 1) { TimerRuns(evs, n - 1); }
    }
  }

  /** At time now, some counter has waited for the whole window of 40 ms. */
  ghost predicate Overdue(evs: seq<Event>, n: nat, now: int)
    requires n <= |evs|
  {
    var m := OpenSince(evs, n);
    Waits(evs, n) && m < n && !evs[m].Taken? && now - evs[m].now >= 40_000_000
  }

  /** A tick books a gap exactly when some counter has waited for the whole window; otherwise it changes nothing. */
  lemma TickBooksIff(evs: seq<Event>, n: nat)
    requires n < |evs| && evs[n].Ticked?
    ensures Booked(evs, n) <==> Overdue(evs, n, evs[n].now)
    ensures !Booked(evs, n) ==> At(evs, n + 1).stat == At(evs, n).stat
  {
    OneEvent(evs, n);
    FlushIs(At(evs, n).stat, evs[n].now);
    if Waits(evs, n) { TimerRuns(evs, n); }
  }

  /** What has arrived at or above next is waiting. */
  ghost predicate AllWait(b: Books) {
    if b.stat.next == 0 then b.arrived == {}
    else forall c :: c in b.arrived && c >= b.stat.next ==> c in b.stat.pending
  }

  /** The entries a step adds say of each counter whether it has arrived. */
  ghost predicate Truthful(b: Books, a: Books) {
    && |b.book| <= |a.book| && a.book[..|b.book|] == b.book
    && forall i :: |b.book| <= i < |a.book| ==> (a.book[i] <==> a.first + i in a.arrived)
  }

  /** Draining takes exactly the counters it passes. */
  lemma {:induction false} DrainTakes(s: Stat)
    ensures var d := Drain(s);
            d.next >= s.next && forall c :: c in s.pending && c !in d.pending ==> s.next <= c < d.next
    decreases |s.pending|
  {
    if s.next in s.pending {
      DrainTakes(s.(pending := s.pending - {s.next}, received := s.received + 1, next := s.next + 1));
    }
  }

  lemma SawTruthful(b: Books, c: U32, now: int)
    requires Invariant(b) && AllWait(b)
    ensures var a := Step(b, Saw(c, now)); AllWait(a) && Truthful(b, a)
    ensures var a := Step(b, Saw(c, now)); forall i :: |b.book| <= i < |a.book| ==> a.book[i]
  {
    if b.stat.next == c && c > 0 {
      SawNextTruthful(b, c, now);
    } else if b.stat.next > 0 {
      assert b.book + Entries(b.stat.next, b.stat.next, b.stat.pending + {c}) == b.book;
    }
  }

  lemma SawNextTruthful(b: Books, c: U32, now: int)
    requires Invariant(b) && AllWait(b) && b.stat.next == c > 0
    ensures var a := Step(b, Saw(c, now)); AllWait(a) && Truthful(b, a)
    ensures var a := Step(b, Saw(c, now)); forall i :: |b.book| <= i < |a.book| ==> a.book[i]
  {
    hide Drain;
    var s := b.stat;
    var t := s.(received := s.received + 1, next := c + 1);
    DrainBooks(t);
    DrainTakes(t);
  }

  lemma TickTruthful(b: Books, now: int)
    requires Invariant(b) && AllWait(b)
    ensures var a := Step(b, Ticked(now)); AllWait(a) && Truthful(b, a)
  {
    hide Drain;
    var s := b.stat;
    if s.next != 0 && s.gapSince.Some? && now - s.gapSince.value >= PATH_GAP_WINDOW {
      LeastExists(s.pending);
      var lo :| Least(lo, s.pending);
      LeastUnique(s.pending, lo);
      DrainTakes(s.(lost := s.lost + Sub(lo, s.next), next := lo));
    }
  }

  lemma StepTruthful(b: Books, ev: Event)
    requires Invariant(b) && AllWait(b)
    ensures AllWait(Step(b, ev)) && Truthful(b, Step(b, ev))
  {
    match ev
    case Saw(c, now) => SawTruthful(b, c, now);
    case Ticked(now) => TickTruthful(b, now);
    case Taken =>
  }

  lemma {:induction false} AlwaysWait(evs: seq<Event>, n: nat)
    requires n <= |evs|
    ensures AllWait(At(evs, n))
  {
    hide Step;
    if n > 0 {
      AlwaysWait(evs, n - 1);
      OneEvent(evs, n - 1);
      StepTruthful(At(evs, n - 1), evs[n - 1]);
    }
  }

  /** The counters seen by the first n events. */
  ghost predicate Seen(evs: seq<Event>, n: nat, c: nat)
    requires n <= |evs|
  {
    exists j :: 0 <= j < n && evs[j].Saw? && evs[j].c == c
  }

  lemma {:induction false} ArrivedIsSeen(evs: seq<Event>, n: nat, c: nat)
    requires n <= |evs|
    ensures c in At(evs, n).arrived <==> Seen(evs, n, c)
  {
    if n > 0 {
      ArrivedIsSeen(evs, n - 1, c);
      OneEvent(evs, n - 1);
    }
  }

  /**
   The fate of each counter: the event that books it books it as received exactly when it was seen by then, and as
   lost only on a tick that comes when some later counter has waited for the whole window.
   */
  lemma FateOf(evs: seq<Event>, n: nat, i: nat)
    requires n < |evs| && |At(evs, n).book| <= i < |At(evs, n + 1).book|
    ensures var a := At(evs, n + 1);
            && (a.book[i] <==> Seen(evs, n + 1, a.first + i))
            && (!a.book[i] ==> evs[n].Ticked? && Overdue(evs, n, evs[n].now))
  {
    OneEvent(evs, n);
    AlwaysWait(evs, n);
    var b, a := At(evs, n), At(evs, n + 1);
    ArrivedIsSeen(evs, n + 1, a.first + i);
    StepTruthful(b, evs[n]);
    match evs[n]
    case Saw(c, now) => SawTruthful(b, c, now);
    case Ticked(now) => TickBooksIff(evs, n);
    case Taken =>
  }
}
