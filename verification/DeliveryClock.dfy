/** When the delivery buffer gives up on a gap, and what each event does, told from the history of a run alone. */
module DeliveryClock {
  import opened Bytes
  import opened Frames
  import opened Delivery

  /** Something waits before event n. */
  ghost predicate Waits(evs: seq<Event>, n: nat, max: nat, timeout: int)
    requires n <= |evs|
  {
    Run(evs, n, max, timeout).buffer.pending != map[]
  }

  /** The event since which something has waited without a break. */
  ghost function WaitingSince(evs: seq<Event>, n: nat, max: nat, timeout: int): (m: nat)
    requires n <= |evs|
    ensures n > 0 ==> m < n
  {
    if n == 0 then 0 else if Waits(evs, n - 1, max, timeout) then WaitingSince(evs, n - 1, max, timeout) else n - 1
  }

  lemma {:induction false} DrainTimes(b: Buffer)
    ensures Drain(b).buffer.gapSince == if Drain(b).buffer.pending == map[] then None else b.gapSince
    ensures b.pending == map[] ==> Drain(b).buffer.pending == map[]
    decreases |b.pending|
  {
    if b.next in b.pending {
      DropShrinks(b.pending, b.next);
      DrainTimes(b.(pending := b.pending - {b.next}, next := b.next + 1));
    }
  }

  /** One step of the gap timer: it keeps its start as long as something waits, and starts with the first to wait. */
  lemma StepTimes(h: History, ev: Event, max: nat, timeout: int)
    requires Sane(h.buffer)
    ensures var b := Step(h, ev, max, timeout).buffer;
            b.pending != map[] ==>
              if h.buffer.pending != map[] then b.gapSince == h.buffer.gapSince
              else ev.Arrived? && b.gapSince == Some(ev.now)
  {
    hide Drain;
    match ev
    case Arrived(x, now) => DrainTimes(h.buffer.(next := h.buffer.next + 1));
    case Ticked(now) =>
      if Stale(h.buffer, now, timeout) { DrainTimes(h.buffer.(next := Lowest(h.buffer.pending.Keys))); }
  }

  /** While something waits, it does so since an arrival at an empty buffer. */
  lemma {:induction false} WaitsSinceArrival(evs: seq<Event>, n: nat, max: nat, timeout: int)
    requires n <= |evs| && Waits(evs, n, max, timeout)
    ensures var m := WaitingSince(evs, n, max, timeout);
            && m < n && evs[m].Arrived? && !Waits(evs, m, max, timeout)
            && (forall j :: m < j <= n ==> Waits(evs, j, max, timeout))
            && Run(evs, n, max, timeout).buffer.gapSince == Some(evs[m].now)
  {
    hide Step;
    if n > 0 {
      AlwaysSane(evs, n - 1, max, timeout);
      StepTimes(Run(evs, n - 1, max, timeout), evs[n - 1], max, timeout);
      if Waits(evs, n - 1, max, timeout) { WaitsSinceArrival(evs, n - 1, max, timeout); }
    }
  }

  /** The time for which something has waited when event n comes at time now. */
  ghost predicate WaitedFor(evs: seq<Event>, n: nat, max: nat, timeout: int, now: int, long: int)
    requires n <= |evs|
  {
    Waits(evs, n, max, timeout) && now - evs[WaitingSince(evs, n, max, timeout)].now >= long
  }

  lemma StaleIff(evs: seq<Event>, n: nat, max: nat, timeout: int, now: int)
    requires n <= |evs|
    ensures Stale(Run(evs, n, max, timeout).buffer, now, timeout) <==> WaitedFor(evs, n, max, timeout, now, timeout)
  {
    AlwaysSane(evs, n, max, timeout);
    if Waits(evs, n, max, timeout) { WaitsSinceArrival(evs, n, max, timeout); }
  }

  lemma TickStarts(b: Buffer, now: int, timeout: int)
    requires Sane(b) && Stale(b, now, timeout)
    ensures var out := Tick(b, now, timeout).out;
            && |out| > 0 && out[0].t in b.pending && out[0].f == b.pending[out[0].t]
            && forall t :: t in b.pending ==> out[0].t <= t
  {
    var lo := Lowest(b.pending.Keys);
    assert lo in b.pending;
  }

  /**
   In every run a tick releases frames exactly when something waits, and the arrival since which something has waited
   without a break lies at least the timeout before it. It then releases the lowest waiting frame first; otherwise it
   changes nothing.
   */
  lemma TickReleasesIff(evs: seq<Event>, n: nat, max: nat, timeout: int)
    requires n < |evs| && evs[n].Ticked?
    ensures var h, g := Run(evs, n, max, timeout), Run(evs, n + 1, max, timeout);
            && (g.out != h.out <==> WaitedFor(evs, n, max, timeout, evs[n].now, timeout))
            && (g.out == h.out ==> g.buffer == h.buffer)
            && (g.out != h.out ==>
                  && h.out < g.out && g.out[|h.out|].t in h.buffer.pending
                  && g.out[|h.out|].f == h.buffer.pending[g.out[|h.out|].t]
                  && forall t :: t in h.buffer.pending ==> g.out[|h.out|].t <= t)
  {
    hide WaitedFor;
    var h := Run(evs, n, max, timeout);
    AlwaysSane(evs, n, max, timeout);
    StaleIff(evs, n, max, timeout, evs[n].now);
    if Stale(h.buffer, evs[n].now, timeout) { TickStarts(h.buffer, evs[n].now, timeout); }
  }

  /** Every item is a waiting frame under its number. */
  ghost predicate Waited(was: map<nat, Frame>, out: seq<Item>) {
    forall i :: 0 <= i < |out| ==> out[i].t in was && was[out[i].t] == out[i].f
  }

  lemma {:induction false} DrainWaited(b: Buffer)
    ensures Waited(b.pending, Drain(b).out)
    decreases |b.pending|
  {
    if b.next in b.pending {
      DropShrinks(b.pending, b.next);
      var c := b.(pending := b.pending - {b.next}, next := b.next + 1);
      DrainWaited(c);
      WaitedMore(b.pending, b.next, Drain(c).out);
    }
  }

  lemma WaitedMore(was: map<nat, Frame>, t: nat, out: seq<Item>)
    requires t in was && Waited(was - {t}, out)
    ensures Waited(was, [Item(t, was[t])] + out)
  {}

  /** Numbered t, t + 1, and so on. */
  ghost predicate Consecutive(t: nat, out: seq<Item>) { forall i :: 0 <= i < |out| ==> out[i].t == t + i }

  lemma ConsecutiveMore(x: Item, out: seq<Item>)
    requires x.t >= 0 && Consecutive(x.t + 1, out)
    ensures Consecutive(x.t, [x] + out)
  {}

  /** What an arrival at next hands on: the frame, then frames that were waiting, under the numbers that follow. */
  ghost predicate HandsOn(was: map<nat, Frame>, x: Item, out: seq<Item>) {
    |out| > 0 && out[0] == x && x.t >= 0 && Consecutive(x.t, out) && Waited(was, out[1..])
  }

  lemma ArriveAtNext(b: Buffer, x: Item, now: int, max: nat)
    requires x.t == b.next
    ensures HandsOn(b.pending, x, Arrive(b, x, now, max).out)
  {
    var c := b.(next := b.next + 1);
    DrainWaited(c);
    DrainCounts(c);
    ConsecutiveMore(x, Drain(c).out);
    assert ([x] + Drain(c).out)[1..] == Drain(c).out;
  }

  /** What an arrival does to a history, by where its number lies. */
  ghost predicate ArrivalDoes(h: History, x: Item, max: nat, g: History) {
    if x.t == h.buffer.next then h.out <= g.out && HandsOn(h.buffer.pending, x, g.out[|h.out|..]) && x in g.taken
    else if x.t < h.buffer.next then
      g.out == h.out && g.buffer == h.buffer && g.taken == h.taken && g.evicted == h.evicted
    else
      && g.out == h.out && g.buffer.next == h.buffer.next && x.t in g.buffer.pending
      && if x.t in h.buffer.pending then g.buffer.pending == h.buffer.pending
         else
           && g.buffer.pending[x.t] == x.f && x in g.taken
           && OnlyLowestLeave(h.buffer.pending, g.buffer.pending)
           && (|h.buffer.pending| < max ==> h.buffer.pending.Keys <= g.buffer.pending.Keys)
  }

  /** Everything that waited still waits, but for what is lower than all that wait now. */
  ghost predicate OnlyLowestLeave(was: map<nat, Frame>, left: map<nat, Frame>) {
    forall t :: t in was ==> (t in left && left[t] == was[t]) || forall u :: u in left ==> t < u
  }

  lemma MakesRoom(b: Buffer, t: nat, f: Frame, max: nat)
    requires t !in b.pending
    ensures OnlyLowestLeave(b.pending, Bounded(b, t, max).pending[t := f])
    ensures !Full(b, max) ==> b.pending.Keys <= Bounded(b, t, max).pending.Keys
  {}

  lemma StepAtNext(h: History, x: Item, now: int, max: nat, timeout: int)
    requires Sane(h.buffer) && x.t == h.buffer.next
    ensures ArrivalDoes(h, x, max, Step(h, Arrived(x, now), max, timeout))
  {
    hide HandsOn;
    hide Arrive;
    ArriveAtNext(h.buffer, x, now, max);
    var out := Arrive(h.buffer, x, now, max).out;
    assert (h.out + out)[|h.out|..] == out;
  }

  lemma StepBeyond(h: History, x: Item, now: int, max: nat, timeout: int)
    requires x.t > h.buffer.next
    ensures ArrivalDoes(h, x, max, Step(h, Arrived(x, now), max, timeout))
  {
    hide OnlyLowestLeave;
    if x.t !in h.buffer.pending { MakesRoom(h.buffer, x.t, x.f, max); }
  }

  lemma StepBelow(h: History, x: Item, now: int, max: nat, timeout: int)
    requires x.t < h.buffer.next
    ensures ArrivalDoes(h, x, max, Step(h, Arrived(x, now), max, timeout))
  {
    assert h.out + [] == h.out;
    assert h.evicted + multiset{} == h.evicted;
  }

  lemma StepDoes(h: History, x: Item, now: int, max: nat, timeout: int)
    requires Sane(h.buffer)
    ensures ArrivalDoes(h, x, max, Step(h, Arrived(x, now), max, timeout))
  {
    hide *;
    if x.t == h.buffer.next {
      StepAtNext(h, x, now, max, timeout);
    } else if x.t > h.buffer.next {
      StepBeyond(h, x, now, max, timeout);
    } else {
      StepBelow(h, x, now, max, timeout);
    }
  }

  /**
   In every run a frame at next is released at once, with what waited right behind it. A frame below next changes
   nothing. A frame beyond next releases nothing and waits afterwards; if its number already waited nothing changes,
   and otherwise all that waited still waits, except that a full buffer may give up what is lower than all it keeps.
   */
  lemma ArrivalFate(evs: seq<Event>, n: nat, max: nat, timeout: int)
    requires n < |evs| && evs[n].Arrived?
    ensures ArrivalDoes(Run(evs, n, max, timeout), evs[n].x, max, Run(evs, n + 1, max, timeout))
  {
    hide ArrivalDoes;
    hide Step;
    AlwaysSane(evs, n, max, timeout);
    StepDoes(Run(evs, n, max, timeout), evs[n].x, evs[n].now, max, timeout);
    assert evs[n] == Arrived(evs[n].x, evs[n].now);
  }

  // ---------------------------------------------------------------------
  // How long the hole itself was missing. The timer belongs to the buffer, not to the hole at next.

  ghost function NextAt(evs: seq<Event>, n: nat, max: nat, timeout: int): nat
    requires n <= |evs|
  {
    Run(evs, n, max, timeout).buffer.next
  }

  /** The event since which next has been missing: something has waited for it, and it has not moved. */
  ghost function MissingSince(evs: seq<Event>, n: nat, max: nat, timeout: int): (m: nat)
    requires n <= |evs|
    ensures n > 0 ==> m < n
  {
    if n == 0 then 0
    else if Waits(evs, n - 1, max, timeout) && NextAt(evs, n - 1, max, timeout) == NextAt(evs, n, max, timeout)
    then MissingSince(evs, n - 1, max, timeout)
    else n - 1
  }

  lemma StepNextRises(h: History, ev: Event, max: nat, timeout: int)
    requires Sane(h.buffer)
    ensures h.buffer.next <= Step(h, ev, max, timeout).buffer.next
  {
    hide Drain;
    match ev
    case Arrived(x, now) => DrainCounts(h.buffer.(next := h.buffer.next + 1));
    case Ticked(now) =>
      if Stale(h.buffer, now, timeout) {
        var lo := Lowest(h.buffer.pending.Keys);
        assert lo in h.buffer.pending;
        DrainCounts(h.buffer.(next := lo));
      }
  }

  lemma {:induction false} NextRises(evs: seq<Event>, m: nat, n: nat, max: nat, timeout: int)
    requires m <= n <= |evs|
    ensures NextAt(evs, m, max, timeout) <= NextAt(evs, n, max, timeout)
    decreases n - m
  {
    hide Step;
    if m < n {
      NextRises(evs, m, n - 1, max, timeout);
      AlwaysSane(evs, n - 1, max, timeout);
      StepNextRises(Run(evs, n - 1, max, timeout), evs[n - 1], max, timeout);
    }
  }

  /** The hole has been missing since something began to wait exactly when next has not moved since. */
  lemma {:induction false} MissingFromStart(evs: seq<Event>, n: nat, max: nat, timeout: int)
    requires n <= |evs| && Waits(evs, n, max, timeout)
    ensures var m := WaitingSince(evs, n, max, timeout) + 1;
            && m <= n
            && (MissingSince(evs, n, max, timeout) == m - 1 <==>
                  NextAt(evs, m, max, timeout) == NextAt(evs, n, max, timeout))
            && MissingSince(evs, n, max, timeout) >= m - 1
  {
    hide Run;
    hide NextAt;
    WaitsSinceArrival(evs, n, max, timeout);
    var m := WaitingSince(evs, n, max, timeout) + 1;
    if m < n {
      assert Waits(evs, n - 1, max, timeout);
      MissingFromStart(evs, n - 1, max, timeout);
      NextRises(evs, m, n - 1, max, timeout);
      NextRises(evs, n - 1, n, max, timeout);
    }
  }

  /**
   A tick that skips a hole has given it the whole timeout if next has not moved since something began to wait;
   otherwise exactly if next last moved at least the timeout before.
   */
  lemma HoleGivenTimeIff(evs: seq<Event>, n: nat, max: nat, timeout: int)
    requires n < |evs| && evs[n].Ticked? && Run(evs, n + 1, max, timeout).out != Run(evs, n, max, timeout).out
    ensures var m, w := MissingSince(evs, n, max, timeout), WaitingSince(evs, n, max, timeout);
            && m < n && w < n
            && (NextAt(evs, w + 1, max, timeout) == NextAt(evs, n, max, timeout) ==> evs[n].now - evs[m].now >= timeout)
            && (NextAt(evs, w + 1, max, timeout) != NextAt(evs, n, max, timeout) ==>
                  m > w && NextAt(evs, m, max, timeout) != NextAt(evs, m + 1, max, timeout))
  {
    hide Run;
    hide NextAt;
    TickReleasesIff(evs, n, max, timeout);
    MissingFromStart(evs, n, max, timeout);
    var w := WaitingSince(evs, n, max, timeout);
    if NextAt(evs, w + 1, max, timeout) != NextAt(evs, n, max, timeout) {
      WaitsSinceArrival(evs, n, max, timeout);
      MovedThere(evs, n, max, timeout);
    }
  }

  lemma {:induction false} MovedThere(evs: seq<Event>, n: nat, max: nat, timeout: int)
    requires n <= |evs| && n > 0
    ensures var m := MissingSince(evs, n, max, timeout);
            && m < n && NextAt(evs, m + 1, max, timeout) == NextAt(evs, n, max, timeout)
            && (Waits(evs, m, max, timeout) && m > 0 ==>
                  NextAt(evs, m, max, timeout) != NextAt(evs, m + 1, max, timeout))
  {
    hide Run;
    hide NextAt;
    var m := MissingSince(evs, n, max, timeout);
    if n > 1 && m < n - 1 { MovedThere(evs, n - 1, max, timeout); }
  }

  /** A hole skipped early: 3 is missing since time 95, and the tick at 100 skips it although the timeout is 100. */
  lemma HoleSkippedEarly(a: Frame, b: Frame, d: Frame)
    ensures var evs := [Arrived(Item(2, b), 0), Arrived(Item(4, d), 90), Arrived(Item(1, a), 95), Ticked(100)];
            && Run(evs, 3, 16, 100).out == [Item(1, a), Item(2, b)]
            && NextAt(evs, 3, 16, 100) == 3 && MissingSince(evs, 3, 16, 100) == 2
            && Run(evs, 4, 16, 100).out == [Item(1, a), Item(2, b), Item(4, d)]
  {
    var evs := [Arrived(Item(2, b), 0), Arrived(Item(4, d), 90), Arrived(Item(1, a), 95), Ticked(100)];
    TwoWait(b, d, evs);
    DrainsOne(Buffer(2, map[2 := b, 4 := d], Some(0), 0), b, map[4 := d]);
    DrainsOne(Buffer(4, map[4 := d], Some(0), 0), d, map[]);
    hide Drain;
    assert Run(evs, 3, 16, 100).buffer == Buffer(3, map[4 := d], Some(0), 0);
    assert Least(4, Run(evs, 3, 16, 100).buffer.pending.Keys);
  }

  lemma TwoWait(b: Frame, d: Frame, evs: seq<Event>)
    requires |evs| >= 2 && evs[0] == Arrived(Item(2, b), 0) && evs[1] == Arrived(Item(4, d), 90)
    ensures var h := Run(evs, 2, 16, 100); h.out == [] && h.buffer == Buffer(1, map[2 := b, 4 := d], Some(0), 0)
  {
    hide Drain;
    assert Run(evs, 0, 16, 100).buffer == FRESH && Run(evs, 0, 16, 100).out == [];
    assert Run(evs, 1, 16, 100).buffer == Buffer(1, map[2 := b], Some(0), 0) && Run(evs, 1, 16, 100).out == [];
  }

  /** Only the frame at next leaves. */
  lemma DrainsOne(b: Buffer, f: Frame, rest: map<nat, Frame>)
    requires b.next in b.pending && b.pending[b.next] == f && b.pending - {b.next} == rest && b.next + 1 !in rest
    ensures Drain(b).out == [Item(b.next, f)]
    ensures Drain(b).buffer == Buffer(b.next + 1, rest, if rest == map[] then None else b.gapSince, b.drops)
  {
    var c := b.(pending := rest, next := b.next + 1);
    assert Drain(c).out == [];
  }

  // ---------------------------------------------------------------------
  // Ticks that come late enough empty the buffer, and what comes after them is lost.

  lemma TickShrinks(b: Buffer, now: int, timeout: int)
    requires Sane(b) && Stale(b, now, timeout)
    ensures |Tick(b, now, timeout).buffer.pending| < |b.pending|
  {
    hide Drain;
    var lo := Lowest(b.pending.Keys);
    assert lo in b.pending;
    DrainShrinks(b.(next := lo));
  }

  lemma DrainShrinks(b: Buffer)
    requires b.next in b.pending
    ensures |Drain(b).buffer.pending| < |b.pending|
  {
    var c := b.(pending := b.pending - {b.next}, next := b.next + 1);
    DropShrinks(b.pending, b.next);
    DrainOnce(b);
    hide Drain;
    DrainConserves(c);
  }

  /** As many ticks as frames wait, each the timeout or more after something began to wait, leave nothing waiting. */
  lemma {:induction false} TicksEmpty(evs: seq<Event>, n: nat, k: nat, max: nat, timeout: int)
    requires n + k <= |evs| && |Run(evs, n, max, timeout).buffer.pending| <= k
    requires forall i :: n <= i < n + k ==>
               evs[i].Ticked? && (Waits(evs, n, max, timeout) ==> WaitedFor(evs, n, max, timeout, evs[i].now, timeout))
    ensures !Waits(evs, n + k, max, timeout)
    decreases k
  {
    hide Step;
    if k > 0 {
      var h, g := Run(evs, n, max, timeout), Run(evs, n + 1, max, timeout);
      assert evs[n].Ticked?;
      AlwaysSane(evs, n, max, timeout);
      TickReleasesIff(evs, n, max, timeout);
      assert |g.buffer.pending| <= k - 1 by {
        if Waits(evs, n, max, timeout) {
          StaleIff(evs, n, max, timeout, evs[n].now);
          TickShrinks(h.buffer, evs[n].now, timeout);
          TickIsStep(evs, n, max, timeout);
        }
      }
      TicksEmpty(evs, n + 1, k - 1, max, timeout);
    }
  }

  lemma TickIsStep(evs: seq<Event>, n: nat, max: nat, timeout: int)
    requires n < |evs| && evs[n].Ticked?
    ensures Run(evs, n + 1, max, timeout).buffer == Tick(Run(evs, n, max, timeout).buffer, evs[n].now, timeout).buffer
  {}

  /** A gap given up is lost for real: 2 comes, the tick skips 1, and then 1 comes. */
  lemma LateIsLost(f: Frame, g: Frame)
    ensures var evs := [Arrived(Item(2, f), 0), Ticked(100), Arrived(Item(1, g), 100)];
            var h := Run(evs, 3, 16, 100);
            && h.out == [Item(2, f)] && h.buffer.pending == map[] && h.evicted == multiset{}
            && h.taken == multiset{Item(2, f)}
  {
    var evs := [Arrived(Item(2, f), 0), Ticked(100), Arrived(Item(1, g), 100)];
    var h := Run(evs, 1, 16, 100);
    assert Run(evs, 0, 16, 100) == History(FRESH, [], multiset{}, multiset{}, 0);
    assert h == History(Buffer(1, map[2 := f], Some(0), 0), [], multiset{Item(2, f)}, multiset{}, 0);
    assert Least(2, h.buffer.pending.Keys);
    var c := Buffer(2, map[2 := f], Some(0), 0);
    assert c.pending - {2} == map[];
    assert Drain(c).out == [Item(2, f)] && Drain(c).buffer == Buffer(3, map[], None, 0);
    assert Run(evs, 2, 16, 100)
        == History(Buffer(3, map[], None, 0), [Item(2, f)], multiset{Item(2, f)}, multiset{}, 0);
  }
}
