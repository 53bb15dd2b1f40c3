/** Codec parameters, and how much parity the encoder adds for a measured loss. */
module FecSizing {
  import opened Bytes
  import opened FecBlock

  const DEFAULT_DATA_SHARDS := 10
  const DEFAULT_BLOCK_TIMEOUT := 8_000_000
  const MAX_SHARDS := 256
  const PATH_MTU := 1500
  const FRAME_OVERHEAD := 28 + 16
  const SAFETY := 1.3

  datatype Adaptive = Adaptive(onPct: real, offPct: real, hold: int, maxPct: real, safety: real)

  datatype Params = Params(k: int, parity: nat, timeout: int, adaptive: Option<Adaptive>, crossPath: bool,
                           crossMin: int)

  predicate Enabled(p: Params) { p.parity > 0 }

  /** The defaults NewEncoder and NewDecoder fill in. */
  function Normalized(p: Params): (q: Params)
    ensures q.k > 0 && q.timeout > 0
  {
    p.(k := if p.k <= 0 then DEFAULT_DATA_SHARDS else p.k,
       timeout := if p.timeout <= 0 then DEFAULT_BLOCK_TIMEOUT else p.timeout)
  }

  function Ceil(x: real): int { -((-x).Floor) }

  /** Lost frames per surviving frame at loss rate l. */
  function Odds(l: real): real
    requires l != 1.0
  {
    l / (1.0 - l)
  }

  /** The adaptive redundancy target: odds times safety, cut at the ceiling. A loss of 1 has infinite odds. */
  function Target(a: Adaptive, loss: real): real
    requires a.maxPct < 100.0
  {
    var cap := Odds(a.maxPct / 100.0);
    if loss == 1.0 || Odds(loss) * a.safety > cap then cap else Odds(loss) * a.safety
  }

  ghost predicate Sane(p: Params) {
    p.adaptive.Some? ==> 0.0 < p.adaptive.value.maxPct < 100.0 && p.adaptive.value.safety >= 1.0
  }

  /** Shards wanted before any bound: ceil(k*target). */
  function Wanted(p: Params, loss: real): int
    requires p.adaptive.Some? ==> p.adaptive.value.maxPct < 100.0
  {
    Ceil(p.k as real * if p.adaptive.Some? then Target(p.adaptive.value, loss) else 0.0)
  }

  /** At least one, at least the cross-path floor, at most the field bound, at most the configured parity. */
  function Fit(p: Params, wanted: int): int {
    var atLeastOne := if wanted < 1 then 1 else wanted;
    var floored := if p.crossMin > atLeastOne then p.crossMin else atLeastOne;
    var bounded := if p.k + floored > MAX_SHARDS then MAX_SHARDS - p.k else floored;
    if !p.crossPath && bounded > p.parity then p.parity else bounded
  }

  function ParityForLoss(p: Params, loss: real): int
    requires p.adaptive.Some? ==> p.adaptive.value.maxPct < 100.0
  {
    Fit(p, Wanted(p, loss))
  }

  // ---------------------------------------------------------------------
  // From configuration to parameters.

  datatype Mode = Off | Fixed | AdaptiveMode | CrossPath

  datatype Config = Config(enabled: bool, mode: Mode, dataShards: int, maxLossPct: real, fixedOverheadPct: real,
                           protectionLevel: real, timeout: int, onPct: real, offPct: real, hold: int, mtu: int)

  function ShardCount(c: Config): int {
    if c.dataShards > 0 then c.dataShards else DEFAULT_DATA_SHARDS
  }

  /** ceil(k*x), at least one. */
  function AtLeastOne(k: int, x: real): (n: int)
    ensures n >= 1
  {
    var n := Ceil(k as real * x);
    if n < 1 then 1 else n
  }

  /** The loss ceiling of one WAN: its own override, or the global one. */
  function Ceiling(c: Config, wanPct: Option<real>): real {
    (if wanPct.Some? then wanPct.value else c.maxLossPct) / 100.0
  }

  /** Parameters for one WAN; None is a configuration error. */
  function ParamsFor(c: Config, wanPct: Option<real>): Option<Params> {
    var k := ShardCount(c);
    if !c.enabled || c.mode.Off? then Some(Params(0, 0, c.timeout, None, false, 0))
    else if c.mode.CrossPath? then
      var min := AtLeastOne(k, c.protectionLevel);
      Some(Params(k, min, c.timeout, None, true, min))
    else
      var l := Ceiling(c, wanPct);
      if c.mode.AdaptiveMode? && (l <= 0.0 || l >= 1.0) then None
      else
        var parity := AtLeastOne(k, if c.mode.Fixed? then c.fixedOverheadPct / 100.0 else Odds(l));
        var adaptive := if c.mode.Fixed? then None
                        else Some(Adaptive(c.onPct, c.offPct, c.hold, c.maxLossPct, SAFETY));
        if k + parity > MAX_SHARDS || c.mtu > PATH_MTU - FRAME_OVERHEAD - ParityHeaderSize(k) then None
        else Some(Params(k, parity, c.timeout, adaptive, false, 0))
  }

  // ---------------------------------------------------------------------
  // Redundancy suffices.

  lemma CeilBounds(x: real)
    ensures Ceil(x) as real >= x > (Ceil(x) - 1) as real
  {}

  lemma CeilMonotone(x: real, y: real)
    requires x <= y
    ensures Ceil(x) <= Ceil(y)
  {}

  lemma MulMonotone(a: real, x: real, y: real)
    requires a >= 0.0 && x <= y
    ensures a * x <= a * y
  {}

  lemma OddsMonotone(x: real, y: real)
    requires x <= y < 1.0
    ensures Odds(x) <= Odds(y)
    ensures x >= 0.0 ==> Odds(x) >= 0.0
  {
    var u, v := 1.0 - x, 1.0 - y;
    assert x / u == 1.0 / u - 1.0 by { assert (1.0 - u) / u == 1.0 / u - u / u; }
    assert y / v == 1.0 / v - 1.0 by { assert (1.0 - v) / v == 1.0 / v - v / v; }
    Reciprocal(u, v);
  }

  lemma Reciprocal(u: real, v: real)
    requires u >= v > 0.0
    ensures 1.0 / u <= 1.0 / v
  {
    assert 1.0 / v - 1.0 / u == (u - v) / (u * v);
  }

  /** Parity worth k*odds(l) covers a loss of l among all k+p shards. */
  lemma OddsCover(k: real, l: real, p: real)
    requires l < 1.0 && p >= k * Odds(l)
    ensures p >= l * (k + p)
  {
    var u := 1.0 - l;
    assert k * Odds(l) == (k * l) / u;
    MulMonotone(u, (k * l) / u, p);
    assert u * ((k * l) / u) == k * l;
    assert l * (k + p) == k * l + p - u * p;
  }

  /** The target is at least the odds of any loss under the ceiling, and grows with the loss. */
  lemma TargetCovers(a: Adaptive, loss: real)
    requires 0.0 < a.maxPct < 100.0 && a.safety >= 1.0 && 0.0 <= loss <= a.maxPct / 100.0
    ensures Target(a, loss) >= Odds(loss)
  {
    OddsMonotone(loss, a.maxPct / 100.0);
    MulMonotone(Odds(loss), 1.0, a.safety);
  }

  lemma TargetMonotone(a: Adaptive, x: real, y: real)
    requires 0.0 < a.maxPct < 100.0 && a.safety >= 1.0 && 0.0 <= x <= y <= 1.0
    ensures Target(a, x) <= Target(a, y)
  {
    if y < 1.0 {
      OddsMonotone(x, y);
      MulMonotone(a.safety, Odds(x), Odds(y));
    }
  }

  lemma WantedMonotone(p: Params, x: real, y: real)
    requires Sane(p) && p.k >= 0 && 0.0 <= x <= y <= 1.0
    ensures Wanted(p, x) <= Wanted(p, y)
  {
    if p.adaptive.Some? {
      var a := p.adaptive.value;
      var k, s, t := p.k as real, Target(a, x), Target(a, y);
      TargetMonotone(a, x, y);
      MulMonotone(k, s, t);
      CeilMonotone(k * s, k * t);
    }
  }

  /** More loss never means less parity. */
  lemma ParityMonotone(p: Params, x: real, y: real)
    requires Sane(p) && p.k >= 0 && 0.0 <= x <= y <= 1.0
    ensures ParityForLoss(p, x) <= ParityForLoss(p, y)
  {
    WantedMonotone(p, x, y);
    FitMonotone(p, Wanted(p, x), Wanted(p, y));
  }

  lemma FitMonotone(p: Params, x: int, y: int)
    requires x <= y
    ensures Fit(p, x) <= Fit(p, y)
  {}

  lemma WantedCovers(p: Params, loss: real)
    requires p.adaptive.Some? && Sane(p) && p.k >= 0 && 0.0 <= loss <= p.adaptive.value.maxPct / 100.0
    ensures Wanted(p, loss) as real >= p.k as real * Odds(loss)
  {
    var k, t := p.k as real, Target(p.adaptive.value, loss);
    TargetCovers(p.adaptive.value, loss);
    MulMonotone(k, Odds(loss), t);
    CeilBounds(k * t);
  }

  /** The parity configured for a ceiling covers every loss below it. */
  lemma CeilingCovers(k: int, loss: real, ceiling: real)
    requires k >= 0 && 0.0 <= loss <= ceiling < 1.0
    ensures AtLeastOne(k, Odds(ceiling)) as real >= k as real * Odds(loss)
  {
    OddsMonotone(loss, ceiling);
    var x, y := Odds(loss), Odds(ceiling);
    MulMonotone(k as real, x, y);
    CeilBounds(k as real * y);
  }

  /**
   In adaptive mode, for every loss up to the smaller of the global and the per-WAN ceiling, the parity
   chosen is a share of at least that loss among the k+p shards, and stays within both bounds.
   */
  lemma RedundancySuffices(c: Config, wanPct: Option<real>, loss: real)
    requires c.enabled && c.mode.AdaptiveMode? && 0.0 < c.maxLossPct < 100.0 && ParamsFor(c, wanPct).Some?
    requires 0.0 <= loss <= c.maxLossPct / 100.0 && loss <= Ceiling(c, wanPct)
    ensures var p := ParamsFor(c, wanPct).value;
            var n := ParityForLoss(p, loss);
            && 1 <= n <= p.parity && p.k + n <= MAX_SHARDS
            && n as real >= loss * (p.k + n) as real
  {
    hide ParamsFor;
    hide ParityForLoss;
    hide Ceiling;
    hide Shaped;
    AdaptiveShape(c, wanPct);
    ShapeSuffices(ParamsFor(c, wanPct).value, Ceiling(c, wanPct), loss);
  }

  /** Adaptive parameters built for a ceiling. */
  ghost predicate Shaped(p: Params, ceiling: real) {
    && p.k > 0 && !p.crossPath && p.crossMin == 0 && p.adaptive.Some? && Sane(p)
    && 0.0 < ceiling < 1.0 && p.parity == AtLeastOne(p.k, Odds(ceiling)) && p.k + p.parity <= MAX_SHARDS
  }

  lemma AdaptiveShape(c: Config, wanPct: Option<real>)
    requires c.enabled && c.mode.AdaptiveMode? && 0.0 < c.maxLossPct < 100.0 && ParamsFor(c, wanPct).Some?
    ensures Shaped(ParamsFor(c, wanPct).value, Ceiling(c, wanPct))
    ensures ParamsFor(c, wanPct).value.adaptive.value.maxPct == c.maxLossPct
  {}

  lemma ShapeSuffices(p: Params, ceiling: real, loss: real)
    requires Shaped(p, ceiling) && 0.0 <= loss <= p.adaptive.value.maxPct / 100.0 && loss <= ceiling
    ensures var n := ParityForLoss(p, loss);
            1 <= n <= p.parity && p.k + n <= MAX_SHARDS && n as real >= loss * (p.k + n) as real
  {
    WantedCovers(p, loss);
    CeilingCovers(p.k, loss, ceiling);
    FitMeets(p, Wanted(p, loss), p.k as real * Odds(loss));
    ShareCovers(p.k, ParityForLoss(p, loss), loss);
  }

  lemma ShareCovers(k: int, n: int, loss: real)
    requires loss < 1.0 && n as real >= k as real * Odds(loss)
    ensures n as real >= loss * (k + n) as real
  {
    OddsCover(k as real, loss, n as real);
  }

  lemma FitMeets(p: Params, wanted: int, need: real)
    requires !p.crossPath && p.crossMin == 0 && p.parity >= 1 && p.k + p.parity <= MAX_SHARDS
    requires wanted as real >= need && p.parity as real >= need
    ensures 1 <= Fit(p, wanted) <= p.parity && Fit(p, wanted) as real >= need
  {}

  /** n parity shards are to the survivors of k at loss l what the lost ones are, times s. */
  ghost predicate Covers(n: real, k: real, l: real, s: real) { (1.0 - l) * n >= (k * l) * s }

  /** q parity shards meet the floors, and the safety target of the loss or else that of the ceiling. */
  ghost predicate MeetsTarget(p: Params, loss: real, q: int)
    requires p.adaptive.Some?
  {
    q >= 1 && q >= p.crossMin && Reaches(p.adaptive.value, p.k as real, loss, q as real)
  }

  ghost predicate Reaches(a: Adaptive, k: real, loss: real, n: real) {
    (loss < 1.0 && Covers(n, k, loss, a.safety)) || Covers(n, k, a.maxPct / 100.0, 1.0)
  }

  lemma OverOdds(n: real, k: real, l: real, s: real)
    requires l < 1.0
    ensures n >= k * (Odds(l) * s) <==> Covers(n, k, l, s)
  {
    var u, o := 1.0 - l, Odds(l);
    assert u * o == l;
    Rearranged(u, o, k, s);
    SameOrder(u, n, k * (o * s));
  }

  lemma Rearranged(u: real, o: real, k: real, s: real)
    ensures u * (k * (o * s)) == (k * (u * o)) * s
  {}

  lemma SameOrder(u: real, x: real, y: real)
    requires u > 0.0
    ensures x >= y <==> u * x >= u * y
  {}

  lemma OverTarget(a: Adaptive, k: real, loss: real, n: real)
    requires 0.0 < a.maxPct < 100.0 && k >= 0.0 && 0.0 <= loss <= 1.0
    ensures n >= k * Target(a, loss) <==> Reaches(a, k, loss, n)
  {
    hide Odds;
    hide Covers;
    var cap := Odds(a.maxPct / 100.0);
    OverOdds(n, k, a.maxPct / 100.0, 1.0);
    assert cap * 1.0 == cap;
    if loss < 1.0 {
      OverOdds(n, k, loss, a.safety);
      LesserTimes(n, k, cap, Odds(loss) * a.safety);
    }
  }

  lemma LesserTimes(n: real, k: real, x: real, y: real)
    requires k >= 0.0
    ensures n >= k * (if y > x then x else y) <==> n >= k * x || n >= k * y
  {
    if y > x { MulMonotone(k, x, y); } else { MulMonotone(k, y, x); }
  }

  /** The most parity there is room for. */
  function Room(p: Params): int {
    if !p.crossPath && p.parity < MAX_SHARDS - p.k then p.parity else MAX_SHARDS - p.k
  }

  lemma FitLeast(p: Params, wanted: int, q: int)
    ensures Fit(p, wanted) <= Room(p)
    ensures Fit(p, wanted) < Room(p) ==> Fit(p, wanted) >= 1 && Fit(p, wanted) >= p.crossMin && Fit(p, wanted) >= wanted
    ensures q < Fit(p, wanted) ==> q < 1 || q < p.crossMin || q < wanted
  {}

  lemma CeilLeast(x: real, n: int)
    ensures n >= Ceil(x) <==> n as real >= x
  {}

  lemma WantedIs(p: Params, loss: real, n: int)
    requires p.adaptive.Some? && Sane(p) && p.k >= 0 && 0.0 <= loss <= 1.0
    ensures n >= Wanted(p, loss) <==> Reaches(p.adaptive.value, p.k as real, loss, n as real)
  {
    hide Target;
    hide Reaches;
    var a, k := p.adaptive.value, p.k as real;
    assert Wanted(p, loss) == Ceil(k * Target(a, loss));
    hide Wanted;
    hide Ceil;
    CeilLeast(k * Target(a, loss), n);
    OverTarget(a, k, loss, n as real);
  }

  /** The parity chosen is the least that meets the safety target, or all there is room for if that is less. */
  lemma LeastParity(p: Params, loss: real, q: int)
    requires p.adaptive.Some? && Sane(p) && p.k >= 0 && 0.0 <= loss <= 1.0
    ensures ParityForLoss(p, loss) <= Room(p)
    ensures ParityForLoss(p, loss) < Room(p) ==> MeetsTarget(p, loss, ParityForLoss(p, loss))
    ensures q < ParityForLoss(p, loss) ==> !MeetsTarget(p, loss, q)
  {
    hide Fit;
    hide Wanted;
    hide Reaches;
    hide Room;
    FitLeast(p, Wanted(p, loss), q);
    WantedIs(p, loss, q);
    WantedIs(p, loss, ParityForLoss(p, loss));
  }

  /** Cross-path coding always uses its floor, whatever the loss. */
  lemma CrossPathFloor(c: Config, wanPct: Option<real>, loss: real)
    requires c.enabled && c.mode.CrossPath?
    ensures var p := ParamsFor(c, wanPct).value;
            && ParityForLoss(p, loss) == (if p.k + p.crossMin > MAX_SHARDS then MAX_SHARDS - p.k else p.parity)
            && p.parity >= 1
            && (c.protectionLevel >= 1.0 ==> p.parity >= p.k)
  {
    var p := ParamsFor(c, wanPct).value;
    assert Wanted(p, loss) == 0;
    LevelFloor(p.k, c.protectionLevel);
  }

  lemma LevelFloor(k: int, level: real)
    requires k >= 0
    ensures level >= 1.0 ==> AtLeastOne(k, level) >= k
  {
    CeilBounds(k as real * level);
    if level >= 1.0 { MulMonotone(k as real, 1.0, level); }
  }
}
