/**
 Raw per-path loss from the counters of pass-through frames: counters above the next expected one wait as
 reorder candidates, and a gap that outlives the window is booked as lost.
 */
module PathLedger {
  import opened Bytes

  const PATH_GAP_WINDOW := 40_000_000

  /** One stream: next == 0 means nothing was observed yet. */
  datatype Stat = Stat(next: nat, received: nat, lost: nat, pending: set<nat>, gapSince: Option<int>)

  const EMPTY := Stat(0, 0, 0, {}, None)

  // ---------------------------------------------------------------------
  // Steps.

  /** Consumes the run of waiting counters that starts at next. */
  function Drain(s: Stat): Stat
    decreases |s.pending|
  {
    if s.next in s.pending
    then Drain(s.(pending := s.pending - {s.next}, received := s.received + 1, next := s.next + 1))
    else s
  }

  function CloseGap(s: Stat): Stat { if s.pending == {} then s.(gapSince := None) else s }

  function Observe(s: Stat, c: U32, now: int): Stat {
    if s.next == 0 then s.(next := c + 1, received := s.received + 1)
    else if c < s.next then s
    else if c == s.next then CloseGap(Drain(s.(received := s.received + 1, next := c + 1)))
    else s.(pending := s.pending + {c}, gapSince := if s.gapSince.None? then Some(now) else s.gapSince)
  }

  predicate Least(lo: nat, pending: set<nat>) { lo in pending && forall c :: c in pending ==> lo <= c }

  lemma LeastExists(pending: set<nat>)
    requires pending != {}
    ensures exists lo :: Least(lo, pending)
  {
    var x :| x in pending;
    if pending == {x} {
      assert Least(x, pending);
    } else {
      LeastExists(pending - {x});
      var y :| Least(y, pending - {x});
      assert forall c :: c in pending ==> c == x || c in pending - {x};
      assert Least(if x < y then x else y, pending);
    }
  }

  /** The gap timer's step on one stream. */
  ghost function FlushGap(s: Stat, now: int): Stat {
    if s.next == 0 || s.gapSince.None? || now - s.gapSince.value < PATH_GAP_WINDOW then s
    else if s.pending == {} then s.(lost := s.lost + 1, next := s.next + 1, gapSince := None)
    else
      LeastExists(s.pending);
      var lo :| Least(lo, s.pending);
      var skipped := s.(lost := s.lost + Sub(lo, s.next), next := lo);
      var drained := Drain(skipped);
      drained.(gapSince := if drained.pending == {} then None else Some(now))
  }

  /** Unsigned subtraction; candidates always lie above next, see Invariant. */
  function Sub(a: nat, b: nat): nat { if a >= b then a - b else 0 }

  function Take(s: Stat): (Stat, (nat, nat)) {
    (s.(lost := 0, received := 0), (s.lost, s.received))
  }

  // ---------------------------------------------------------------------
  // Runs.

  datatype Event = Saw(c: U32, now: int) | Ticked(now: int) | Taken

  /**
   A run with its book: entry i says whether counter first + i was booked as received (true) or lost (false);
   the totals handed out by Take are kept beside it.
   */
  datatype Books = Books(stat: Stat, first: nat, book: seq<bool>, arrived: set<nat>, takenLost: nat, takenReceived: nat)

  /** One entry for each counter from a up to b: is it among those present? */
  function Entries(a: nat, b: nat, present: set<nat>): seq<bool> {
    seq(Sub(b, a), i requires 0 <= i => a + i in present)
  }

  ghost function Step(b: Books, ev: Event): Books {
    match ev
    case Saw(c, now) =>
      var s := Observe(b.stat, c, now);
      var arrived := b.arrived + {c};
      if b.stat.next == 0 then b.(stat := s, first := c, arrived := arrived, book := [true])
      else b.(stat := s, arrived := arrived, book := b.book + Entries(b.stat.next, s.next, b.stat.pending + {c}))
    case Ticked(now) =>
      var s := FlushGap(b.stat, now);
      b.(stat := s, book := b.book + Entries(b.stat.next, s.next, b.stat.pending))
    case Taken =>
      var (s, (lost, received)) := Take(b.stat);
      b.(stat := s, takenLost := b.takenLost + lost, takenReceived := b.takenReceived + received)
  }

  function Fresh(): Books { Books(EMPTY, 0, [], {}, 0, 0) }

  ghost function Run(evs: seq<Event>): Books {
    if evs == [] then Fresh() else Step(Run(evs[..|evs| - 1]), evs[|evs| - 1])
  }

  function Count(book: seq<bool>, n: nat, what: bool): nat
    requires n <= |book|
  {
    if n == 0 then 0 else Count(book, n - 1, what) + if book[n - 1] == what then 1 else 0
  }

  /**
   The ledger's invariant: candidates lie above next and the timer runs iff there are any; every counter
   from the first up to next has exactly one entry, the entries add up to the totals, and only counters
   that arrived are booked as received.
   */
  ghost predicate Invariant(b: Books) {
    var s := b.stat;
    && (forall c :: c in s.pending ==> c > s.next)
    && (s.gapSince.Some? <==> s.pending != {})
    && (s.next == 0 ==> s.pending == {} && b.book == [])
    && (s.next > 0 ==> b.first + |b.book| == s.next)
    && (forall i :: 0 <= i < |b.book| && b.book[i] ==> b.first + i in b.arrived)
    && s.pending <= b.arrived
    && Count(b.book, |b.book|, true) == b.takenReceived + s.received
    && Count(b.book, |b.book|, false) == b.takenLost + s.lost
  }

  /** Draining passes exactly waiting counters, and stops at the next hole. */
  lemma {:induction false} DrainBooks(s: Stat)
    requires forall c :: c in s.pending ==> c >= s.next
    ensures var d := Drain(s);
            && d.next >= s.next
            && (forall x :: s.next <= x < d.next ==> x in s.pending)
            && d.pending <= s.pending
            && (forall c :: c in d.pending ==> c > d.next)
            && d.received == s.received + (d.next - s.next) && d.lost == s.lost && d.gapSince == s.gapSince
    decreases |s.pending|
  {
    if s.next in s.pending {
      var t := s.(pending := s.pending - {s.next}, received := s.received + 1, next := s.next + 1);
      DrainBooks(t);
      assert Drain(s) == Drain(t);
      forall x | s.next <= x < Drain(t).next ensures x in s.pending {
        if x > s.next { assert x in t.pending; }
      }
    } else {
      assert Drain(s) == s;
    }
  }

  lemma {:induction false} CountConcat(a: seq<bool>, b: seq<bool>, n: nat, what: bool)
    requires n <= |b|
    ensures Count(a + b, |a| + n, what) == Count(a, |a|, what) + Count(b, n, what)
  {
    if n == 0 {
      CountPrefix(a, b, |a|, what);
    } else {
      CountConcat(a, b, n - 1, what);
    }
  }

  lemma {:induction false} CountPrefix(a: seq<bool>, b: seq<bool>, n: nat, what: bool)
    requires n <= |a|
    ensures Count(a + b, n, what) == Count(a, n, what)
  {
    if n > 0 { CountPrefix(a, b, n - 1, what); }
  }

  lemma {:induction false} CountSame(book: seq<bool>, n: nat, what: bool)
    requires n <= |book| && forall i :: 0 <= i < n ==> book[i] == what
    ensures Count(book, n, what) == n && Count(book, n, !what) == 0
  {
    if n > 0 { CountSame(book, n - 1, what); }
  }

  /** Appending a hole of lost counters and then a run of received ones. */
  lemma BookMore(book: seq<bool>, next: nat, lo: nat, to: nat, present: set<nat>)
    requires next <= lo <= to
    requires (forall x :: next <= x < lo ==> x !in present) && (forall x :: lo <= x < to ==> x in present)
    ensures var more := book + Entries(next, to, present);
            && Count(more, |more|, true) == Count(book, |book|, true) + (to - lo)
            && Count(more, |more|, false) == Count(book, |book|, false) + (lo - next)
  {
    hide Count;
    var hole, run := seq(lo - next, _ => false), seq(to - lo, _ => true);
    var entries := Entries(next, to, present);
    assert entries == hole + run;
    CountSame(hole, |hole|, false);
    CountSame(run, |run|, true);
    CountConcat(hole, run, |run|, true);
    CountConcat(hole, run, |run|, false);
    CountConcat(book, entries, |entries|, true);
    CountConcat(book, entries, |entries|, false);
  }

  lemma ObserveKeeps(b: Books, c: U32, now: int)
    requires Invariant(b)
    ensures Invariant(Step(b, Saw(c, now)))
  {
    var s := b.stat;
    if s.next == 0 {
      assert Count([true], 1, true) == 1 + Count([true], 0, true);
      assert Count([true], 1, false) == Count([true], 0, false);
    } else if c == s.next {
      InOrderKeeps(b, c, now);
    } else {
      assert b.book + Entries(s.next, s.next, s.pending + {c}) == b.book;
    }
  }

  lemma InOrderKeeps(b: Books, c: U32, now: int)
    requires Invariant(b) && b.stat.next == c > 0
    ensures Invariant(Step(b, Saw(c, now)))
  {
    var s := b.stat;
    var t := s.(received := s.received + 1, next := c + 1);
    DrainBooks(t);
    BookMore(b.book, c, c, Drain(t).next, s.pending + {c});
    assert Step(b, Saw(c, now)).book == b.book + Entries(c, Drain(t).next, s.pending + {c});
  }

  lemma TickKeeps(b: Books, now: int)
    requires Invariant(b)
    ensures Invariant(Step(b, Ticked(now)))
  {
    var s := b.stat;
    if s.next == 0 || s.gapSince.None? || now - s.gapSince.value < PATH_GAP_WINDOW {
      assert b.book + Entries(s.next, s.next, s.pending) == b.book;
    } else {
      LeastExists(s.pending);
      var lo :| Least(lo, s.pending);
      LeastUnique(s.pending, lo);
      var t := s.(lost := s.lost + Sub(lo, s.next), next := lo);
      DrainBooks(t);
      BookMore(b.book, s.next, lo, Drain(t).next, s.pending);
    }
  }

  lemma LeastUnique(pending: set<nat>, lo: nat)
    requires Least(lo, pending)
    ensures forall x :: Least(x, pending) ==> x == lo
  {}

  lemma {:induction false} CountBoth(book: seq<bool>, n: nat)
    requires n <= |book|
    ensures Count(book, n, true) + Count(book, n, false) == n
  {
    if n > 0 { CountBoth(book, n - 1); }
  }

  /**
   Over every run: received + lost, counted across the resets, equals next - first; each counter below next
   is booked exactly once; candidates lie above next; and the timer runs iff there are candidates, so the
   tick never meets a running timer without a candidate.
   */
  lemma {:induction false} LedgerBalances(evs: seq<Event>)
    ensures var b := Run(evs);
            && Invariant(b)
            && (b.stat.next > 0 ==>
                  b.takenReceived + b.stat.received + b.takenLost + b.stat.lost == b.stat.next - b.first)
  {
    if evs != [] {
      LedgerBalances(evs[..|evs| - 1]);
      StepKeeps(Run(evs[..|evs| - 1]), evs[|evs| - 1]);
    }
    CountBoth(Run(evs).book, |Run(evs).book|);
  }

  lemma StepKeeps(b: Books, ev: Event)
    requires Invariant(b)
    ensures Invariant(Step(b, ev))
  {
    match ev
    case Saw(c, now) => ObserveKeeps(b, c, now);
    case Ticked(now) => TickKeeps(b, now);
    case Taken =>
  }

  // ---------------------------------------------------------------------
  // The loops.

  method DrainPending(s: Stat) returns (d: Stat)
    ensures d == Drain(s)
  {
    d := s;
    while d.next in d.pending
      invariant Drain(d) == Drain(s)
      decreases |d.pending|
    {
      d := d.(pending := d.pending - {d.next}, received := d.received + 1, next := d.next + 1);
    }
  }

  method LowestPending(pending: set<nat>) returns (lo: nat)
    requires pending != {}
    ensures Least(lo, pending)
  {
    lo :| lo in pending;
    var todo := pending;
    while todo != {}
      invariant todo <= pending && lo in pending
      invariant forall c :: c in pending && c !in todo ==> lo <= c
      decreases |todo|
    {
      var c :| c in todo;
      if c < lo { lo := c; }
      todo := todo - {c};
    }
  }

  /** The body of the tick loop for one stream. */
  method FlushStream(s: Stat, now: int) returns (d: Stat)
    ensures d == FlushGap(s, now)
  {
    if s.next == 0 || s.gapSince.None? || now - s.gapSince.value < PATH_GAP_WINDOW {
      return s;
    }
    if s.pending == {} {
      return s.(lost := s.lost + 1, next := s.next + 1, gapSince := None);
    }
    var lo := LowestPending(s.pending);
    d := DrainPending(s.(lost := s.lost + Sub(lo, s.next), next := lo));
    d := d.(gapSince := if d.pending == {} then None else Some(now));
    LeastExists(s.pending);
    assert forall x :: Least(x, s.pending) ==> x == lo;
  }
}
