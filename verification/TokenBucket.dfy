/** The token bucket that paces a WAN: time in seconds, tokens in bytes, both real. */
module TokenBucket {

  // ---------------------------------------------------------------------
  // Levels: the bucket, given what each look at it earns.

  /** A look at the bucket that has earned some tokens since the last one and needs some. */
  datatype Look = Look(earned: real, need: nat)

  function Min(a: real, b: real): real { if a <= b then a else b }

  function Filled(burst: real, tokens: real, earned: real): real { Min(burst, tokens + earned) }

  function Left(burst: real, tokens: real, x: Look): real {
    var full := Filled(burst, tokens, x.earned);
    if full >= x.need as real then full - x.need as real else full
  }

  function Given(burst: real, tokens: real, x: Look): nat {
    if Filled(burst, tokens, x.earned) >= x.need as real then x.need else 0
  }

  ghost function Level(burst: real, tokens: real, xs: seq<Look>, n: nat): real
    requires n <= |xs|
  {
    if n == 0 then tokens else Left(burst, Level(burst, tokens, xs, n - 1), xs[n - 1])
  }

  /** Bytes granted by looks m .. n-1. */
  ghost function Total(burst: real, tokens: real, xs: seq<Look>, m: nat, n: nat): nat
    requires m <= n <= |xs|
  {
    if n == m then 0
    else Total(burst, tokens, xs, m, n - 1) + Given(burst, Level(burst, tokens, xs, n - 1), xs[n - 1])
  }

  /** What is earned after look m, up to look n-1. */
  ghost function Income(xs: seq<Look>, m: nat, n: nat): real
    requires m < n <= |xs|
  {
    if n == m + 1 then 0.0 else Income(xs, m, n - 1) + xs[n - 1].earned
  }

  lemma {:induction false} LevelInRange(burst: real, tokens: real, xs: seq<Look>, n: nat)
    requires 0.0 <= tokens <= burst && n <= |xs| && forall i :: 0 <= i < |xs| ==> xs[i].earned >= 0.0
    ensures 0.0 <= Level(burst, tokens, xs, n) <= burst
  {
    if n > 0 { LevelInRange(burst, tokens, xs, n - 1); }
  }

  lemma {:induction false} WithinIncome(burst: real, tokens: real, xs: seq<Look>, m: nat, n: nat)
    requires m < n <= |xs|
    ensures Total(burst, tokens, xs, m, n) as real + Level(burst, tokens, xs, n) <= burst + Income(xs, m, n)
  {
    if n == m + 1 {
      assert Total(burst, tokens, xs, m, m) == 0;
    } else {
      WithinIncome(burst, tokens, xs, m, n - 1);
    }
  }

  /** Look i would fill the bucket beyond its burst. */
  ghost predicate Overflows(burst: real, tokens: real, xs: seq<Look>, i: nat)
    requires i < |xs|
  {
    Level(burst, tokens, xs, i) + xs[i].earned > burst
  }

  /** While the bucket does not overflow, what is granted and what is left are exactly what was there and earned. */
  lemma {:induction false} NothingLostUnlessFull(burst: real, tokens: real, xs: seq<Look>, m: nat, n: nat)
    requires m < n <= |xs| && forall i :: m < i < n ==> !Overflows(burst, tokens, xs, i)
    ensures Total(burst, tokens, xs, m, n) as real + Level(burst, tokens, xs, n)
         == Filled(burst, Level(burst, tokens, xs, m), xs[m].earned) + Income(xs, m, n)
  {
    if n == m + 1 {
      assert Total(burst, tokens, xs, m, m) == 0;
    } else {
      NothingLostUnlessFull(burst, tokens, xs, m, n - 1);
      assert !Overflows(burst, tokens, xs, n - 1);
    }
  }

  // ---------------------------------------------------------------------
  // Runs in time.

  datatype Bucket = Bucket(rate: real, burst: real, tokens: real, lastRef: real)

  /** One pass of the wait loop at time now: refill, then grant if the need is met. */
  datatype Pass = Pass(now: real, need: nat)

  /** What dt seconds earn. */
  function Earns(dt: real, rate: real): real { dt * rate }

  function LookOf(b: Bucket, p: Pass): Look { Look(Earns(p.now - b.lastRef, b.rate), p.need) }

  function Refilled(b: Bucket, p: Pass): real { Filled(b.burst, b.tokens, LookOf(b, p).earned) }

  predicate Grants(b: Bucket, p: Pass) { Refilled(b, p) >= p.need as real }

  function After(b: Bucket, p: Pass): Bucket {
    b.(lastRef := p.now, tokens := Left(b.burst, b.tokens, LookOf(b, p)))
  }

  ghost predicate Sane(b: Bucket) { b.rate > 0.0 && 0.0 <= b.tokens <= b.burst }

  /** The bucket after the first n passes. */
  ghost function Run(b: Bucket, ps: seq<Pass>, n: nat): Bucket
    requires n <= |ps|
  {
    if n == 0 then b else After(Run(b, ps, n - 1), ps[n - 1])
  }

  /** Time does not run backwards. */
  ghost predicate Forward(b: Bucket, ps: seq<Pass>) {
    && (forall i :: 0 <= i < |ps| ==> b.lastRef <= ps[i].now)
    && (forall i, j :: 0 <= i < j < |ps| ==> ps[i].now <= ps[j].now)
  }

  /** The time of the look before pass i. */
  ghost function Since(b: Bucket, ps: seq<Pass>, i: nat): real
    requires i < |ps|
  {
    if i == 0 then b.lastRef else ps[i - 1].now
  }

  ghost function Looks(b: Bucket, ps: seq<Pass>): (xs: seq<Look>)
    ensures |xs| == |ps|
  {
    seq(|ps|, i requires 0 <= i < |ps| => Look(Earns(ps[i].now - Since(b, ps, i), b.rate), ps[i].need))
  }

  /** The bucket's tokens are the level after the looks. */
  lemma {:induction false} RunIsLevel(b: Bucket, ps: seq<Pass>, n: nat)
    requires n <= |ps|
    ensures var r := Run(b, ps, n);
            && r.rate == b.rate && r.burst == b.burst && r.lastRef == (if n == 0 then b.lastRef else ps[n - 1].now)
            && r.tokens == Level(b.burst, b.tokens, Looks(b, ps), n)
  {
    hide Earns;
    hide Left;
    if n > 0 {
      RunIsLevel(b, ps, n - 1);
      assert LookOf(Run(b, ps, n - 1), ps[n - 1]) == Looks(b, ps)[n - 1];
    }
  }

  lemma Earned(dt: real, rate: real)
    requires dt >= 0.0 && rate > 0.0
    ensures Earns(dt, rate) >= 0.0
  {}

  lemma LooksEarn(b: Bucket, ps: seq<Pass>)
    requires b.rate > 0.0 && Forward(b, ps)
    ensures forall i :: 0 <= i < |ps| ==> Looks(b, ps)[i].earned >= 0.0
  {
    hide Earns;
    forall i | 0 <= i < |ps| ensures Looks(b, ps)[i].earned >= 0.0 {
      Earned(ps[i].now - Since(b, ps, i), b.rate);
    }
  }

  /** 0 <= tokens <= burst at every point of every run. */
  lemma AlwaysSane(b: Bucket, ps: seq<Pass>, n: nat)
    requires Sane(b) && Forward(b, ps) && n <= |ps|
    ensures Sane(Run(b, ps, n))
  {
    RunIsLevel(b, ps, n);
    LooksEarn(b, ps);
    LevelInRange(b.burst, b.tokens, Looks(b, ps), n);
  }

  lemma Scaled(a: real, b: real, c: real, rate: real)
    ensures Earns(b - a, rate) + Earns(c - b, rate) == Earns(c - a, rate)
  {}

  lemma {:induction false} IncomeIs(b: Bucket, ps: seq<Pass>, m: nat, n: nat)
    requires m < n <= |ps|
    ensures Income(Looks(b, ps), m, n) == Earns(ps[n - 1].now - ps[m].now, b.rate)
  {
    hide Earns;
    Nothing(b.rate);
    if n > m + 1 {
      IncomeIs(b, ps, m, n - 1);
      Scaled(ps[m].now, ps[n - 2].now, ps[n - 1].now, b.rate);
    }
  }

  lemma Nothing(rate: real)
    ensures Earns(0.0, rate) == 0.0
  {}

  /** Grants from pass m to pass n-1 never exceed one bucket plus what the time between them earns. */
  lemma GrantsBounded(b: Bucket, ps: seq<Pass>, m: nat, n: nat)
    requires Sane(b) && Forward(b, ps) && m < n <= |ps|
    ensures Total(b.burst, b.tokens, Looks(b, ps), m, n) as real <= b.burst + Earns(ps[n - 1].now - ps[m].now, b.rate)
  {
    hide Earns;
    var xs := Looks(b, ps);
    WithinIncome(b.burst, b.tokens, xs, m, n);
    LooksEarn(b, ps);
    LevelInRange(b.burst, b.tokens, xs, n);
    IncomeIs(b, ps, m, n);
  }

  /** A need above the burst is never granted, at any time. */
  lemma TooMuchWaitsForever(b: Bucket, p: Pass)
    requires p.need as real > b.burst
    ensures !Grants(b, p)
  {}

  /** After waiting out the deficit, a need within the burst is granted. */
  lemma WaitingSuffices(b: Bucket, now: real, need: nat, later: real)
    requires b.rate > 0.0 && need as real <= b.burst && !Grants(b, Pass(now, need))
    requires later >= now + (need as real - Refilled(b, Pass(now, need))) / b.rate
    ensures Grants(After(b, Pass(now, need)), Pass(later, need))
  {
    hide Earns;
    var short := need as real - Refilled(b, Pass(now, need));
    Cleared(short / b.rate, later - now, b.rate, short);
  }

  lemma Cleared(deficit: real, dt: real, rate: real, short: real)
    requires rate > 0.0 && deficit == short / rate && dt >= deficit
    ensures Earns(dt, rate) >= short
  {
    assert deficit * rate == short;
    Grows(deficit, dt, rate);
  }

  lemma Grows(x: real, y: real, rate: real)
    requires rate > 0.0 && y >= x
    ensures y * rate >= x * rate
  {}

  class Limiter {
    const rate: real
    const burst: real
    var tokens: real
    var lastRef: real

    ghost function Abs(): Bucket
      reads this
    {
      Bucket(rate, burst, tokens, lastRef)
    }

    constructor (rate: real, maxBytes: nat, now: real)
      ensures Abs() == Bucket(rate, maxBytes as real, maxBytes as real, now)
    {
      this.rate, burst := rate, maxBytes as real;
      tokens, lastRef := maxBytes as real, now;
    }

    /**
     Waits until n bytes are granted. now is the time of the first look; wake is when the timer set for a given
     deficit is seen to have fired, which is never early. The context is cancelled during wait number `patience`,
     counted from 0; late says that it is cancelled when the bytes are granted. A need within the burst takes one wait
     at most; one above it waits for the cancellation.
     */
    method TakeTokens(n: nat, now: real, wake: (real, real) -> real, patience: nat, late: bool)
      returns (ok: bool, ghost waits: nat)
      requires rate > 0.0 ==> Sane(Abs()) && lastRef <= now
      requires forall t, d :: wake(t, d) >= t + d
      modifies this
      ensures rate <= 0.0 ==> ok == !late && Abs() == old(Abs()) && waits == 0
      ensures rate > 0.0 ==> Sane(Abs())
      ensures rate > 0.0 && Grants(old(Abs()), Pass(now, n)) ==>
                ok == !late && waits == 0 && Abs() == After(old(Abs()), Pass(now, n))
      ensures rate > 0.0 && n as real <= burst && !Grants(old(Abs()), Pass(now, n)) ==>
                var looked := After(old(Abs()), Pass(now, n));
                if patience == 0 then !ok && waits == 0 && Abs() == looked
                else ok == !late && waits == 1 && Grants(looked, Pass(lastRef, n))
                     && Abs() == After(looked, Pass(lastRef, n))
      ensures rate > 0.0 && n as real > burst ==> !ok && waits == patience
    {
      waits := 0;
      if rate <= 0.0 { return !late, waits; }
      var t, left := now, patience;
      ghost var first, c := Abs(), Abs();
      while true
        invariant t >= lastRef && c == Abs() && Sane(c) && waits + left == patience
        invariant waits == 0 ==> t == now && c == first
        invariant n as real <= burst ==> waits <= 1
        invariant n as real <= burst && waits == 1 ==>
                    !Grants(first, Pass(now, n)) && c == After(first, Pass(now, n)) && Grants(c, Pass(t, n))
        invariant n as real > burst ==> !Grants(first, Pass(now, n))
        decreases left
      {
        PassSane(c, Pass(t, n));
        var granted := TryTake(n, t);
        if granted { return !late, waits; }
        var deficit := (n as real - tokens) / rate;
        Positive(n as real - tokens, rate);
        if left == 0 { return false, waits; }
        if n as real <= burst { WaitingSuffices(first, now, n, wake(t, deficit)); }
        t := wake(t, deficit);
        c, waits, left := Abs(), waits + 1, left - 1;
      }
    }

    /** One pass of the loop, under the lock. */
    method TryTake(n: nat, now: real) returns (ok: bool)
      modifies this
      ensures ok <==> Grants(old(Abs()), Pass(now, n))
      ensures Abs() == After(old(Abs()), Pass(now, n))
      ensures !ok ==> tokens == Refilled(old(Abs()), Pass(now, n)) < n as real
    {
      var elapsed := now - lastRef;
      ghost var earned := LookOf(Abs(), Pass(now, n)).earned;
      assert earned == Earns(elapsed, rate);
      lastRef := now;
      tokens := Min(burst, tokens + Earns(elapsed, rate));
      assert tokens == Refilled(old(Abs()), Pass(now, n));
      if tokens >= n as real {
        tokens := tokens - n as real;
        return true;
      }
      return false;
    }
  }

  lemma PassSane(b: Bucket, p: Pass)
    requires Sane(b) && b.lastRef <= p.now
    ensures Sane(After(b, p))
  {
    hide Earns;
    Earned(p.now - b.lastRef, b.rate);
  }

  lemma Positive(x: real, rate: real)
    requires x > 0.0 && rate > 0.0
    ensures x / rate > 0.0
  {}
}
