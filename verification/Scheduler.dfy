/**
 The scheduler object: registered paths, smooth weighted round-robin, standby order, weighted choice, and the
 lazily rebuilt consistent-hash ring.
 */
module Scheduler {
  import opened Bytes
  import opened Ring
  import Health
  import SmoothWrr

  datatype Mode = LoadBalance | Standby
  datatype Affinity = PerPacket | PerFlow
  datatype Balance = ByCapacity | ByFec | ByRound

  datatype Options = Options(mode: Mode, affinity: Affinity, balance: Balance)

  const WEIGHT_DEGRADED := 0.2

  class Path {
    const id: string
    var capacity: real
    var state: Health.State
    var loss: real
    var rr: real

    constructor (id: string, capacity: real)
      ensures this.id == id && this.capacity == capacity && state == Health.Healthy && loss == 0.0 && rr == 0.0
    {
      this.id, this.capacity, state, loss, rr := id, capacity, Health.Healthy, 0.0, 0.0;
    }
  }

  /** The paths among the first n that are not down, in registration order. */
  ghost function UsableTo(ps: seq<Path>, n: nat): (us: seq<Path>)
    requires n <= |ps|
    reads ps`state
  {
    if n == 0 then []
    else UsableTo(ps, n - 1) + if ps[n - 1].state != Health.Down then [ps[n - 1]] else []
  }

  /** The usable paths are the registered ones that are not down. */
  lemma {:induction false} UsableAre(ps: seq<Path>, n: nat)
    requires n <= |ps|
    ensures var us := UsableTo(ps, n);
            && (forall i :: 0 <= i < |us| ==> us[i] in ps[..n] && us[i].state != Health.Down)
            && (forall i :: 0 <= i < n && ps[i].state != Health.Down ==> ps[i] in us)
  {
    if n > 0 {
      UsableAre(ps, n - 1);
      assert ps[..n] == ps[..n - 1] + [ps[n - 1]];
    }
  }

  function Ids(ps: seq<Path>): (ids: seq<string>)
    ensures |ids| == |ps|
  {
    seq(|ps|, i requires 0 <= i < |ps| => ps[i].id)
  }

  /** rr lists the accumulators of the paths. */
  ghost predicate Accumulators(ps: seq<Path>, rr: seq<real>)
    reads ps`rr
  {
    |rr| == |ps| && forall i :: 0 <= i < |ps| ==> ps[i].rr == rr[i]
  }

  /** weightLocked */
  function Weight(state: Health.State, capacity: real, balance: Balance): (w: real)
    ensures w > 0.0 <==> state != Health.Down
    ensures w >= 0.0
  {
    match state
    case Down => 0.0
    case Degraded => WEIGHT_DEGRADED
    case Healthy => if balance == ByRound || capacity <= 0.0 then 1.0 else capacity
  }

  /** w lists the weights of the paths. */
  ghost predicate WeightsOf(ps: seq<Path>, balance: Balance, w: seq<real>)
    reads ps`state, ps`capacity
  {
    |w| == |ps| && forall i :: 0 <= i < |ps| ==> w[i] == Weight(ps[i].state, ps[i].capacity, balance)
  }

  /** Every usable path has a positive weight, so a pick always charges the leader the positive total. */
  lemma UsableWeights(ps: seq<Path>, balance: Balance, w: seq<real>)
    requires ps != [] && WeightsOf(ps, balance, w) && forall i :: 0 <= i < |ps| ==> ps[i].state != Health.Down
    ensures SmoothWrr.Weights(w) && SmoothWrr.Sum(w) > 0.0
  {
    SmoothWrr.TotalPositive(w);
  }

  /** What one pick does: a step of smooth weighted round-robin; without weight, the leader is not charged. */
  ghost function Pick(w: seq<real>, rr: seq<real>, k: nat): seq<real> -> bool {
    next =>
      if SmoothWrr.Sum(w) > 0.0 then SmoothWrr.Step(w, rr, k, next)
      else
        && |rr| == |next| == |w| && k < |w| && SmoothWrr.Leads(w, rr, k)
        && forall i :: 0 <= i < |w| ==> next[i] == rr[i] + w[i]
  }

  ghost predicate Distinct(ps: seq<Path>) {
    forall i, j :: 0 <= i < j < |ps| ==> ps[i] != ps[j] && ps[i].id != ps[j].id
  }

  lemma {:induction false} UsableDistinct(ps: seq<Path>, n: nat)
    requires Distinct(ps) && n <= |ps|
    ensures Distinct(UsableTo(ps, n))
  {
    if n > 0 {
      UsableDistinct(ps, n - 1);
      UsableAre(ps, n - 1);
      var us, last := UsableTo(ps, n - 1), ps[n - 1];
      forall i | 0 <= i < |us| ensures us[i] != last && us[i].id != last.id {
        var j :| 0 <= j < n - 1 && ps[..n - 1][j] == us[i];
        assert ps[j] == us[i];
      }
    }
  }

  /** Of two usable paths, the one registered earlier comes first. */
  lemma {:induction false} UsableOrder(ps: seq<Path>, n: nat, i: nat, j: nat, a: nat, b: nat)
    requires Distinct(ps) && n <= |ps| && a < n && b < n && i < j < |UsableTo(ps, n)|
    requires UsableTo(ps, n)[i] == ps[a] && UsableTo(ps, n)[j] == ps[b]
    ensures a < b
  {
    var us := UsableTo(ps, n - 1);
    UsableAre(ps, n - 1);
    assert us[i] in ps[..n - 1];
    var c :| 0 <= c < n - 1 && ps[..n - 1][c] == us[i];
    assert ps[c] == ps[a];
    if j < |us| {
      assert us[j] in ps[..n - 1];
      var d :| 0 <= d < n - 1 && ps[..n - 1][d] == us[j];
      assert ps[d] == ps[b];
      UsableOrder(ps, n - 1, i, j, a, b);
    }
  }

  /** Paths are registered once, and the index by identifier holds exactly them. */
  ghost predicate Registered(ps: seq<Path>, byID: map<string, Path>) {
    && Distinct(ps)
    && (forall i :: 0 <= i < |ps| ==> ps[i].id in byID && byID[ps[i].id] == ps[i])
    && (forall id :: id in byID ==> byID[id] in ps && byID[id].id == id)
  }

  // The three predicates below as values, which a proof can carry around without unfolding them.

  ghost function Registry(): (seq<Path>, map<string, Path>) -> bool { (ps, byID) => Registered(ps, byID) }

  ghost function Current(): (seq<string>, seq<U32>, map<U32, string>) -> bool {
    (ids, ring, owners) => Built(FnvPlace, ids, ring, owners)
  }

  /** The flow with hash h is on path id of the ring. */
  ghost function Carried(): (seq<string>, U32, string) -> bool { (ids, h: U32, id) => OnPath(FnvPlace, ids, h, id) }

  class Scheduler {
    const opts: Options
    var paths: seq<Path>
    var byID: map<string, Path>
    var ring: Option<seq<U32>>
    var ringPaths: map<U32, string>
    var lastRingVer: nat
    var ringVer: nat

    ghost function Usable(): seq<Path>
      reads this, paths`state
    {
      UsableTo(paths, |paths|)
    }

    /** The cached ring is in use. */
    predicate Cached()
      reads this
    {
      ring.Some? && lastRingVer == ringVer
    }

    /** Paths are registered once; a ring in use is the fresh build over the usable paths. */
    ghost predicate Valid()
      reads this, paths`state
    {
      && Registry()(paths, byID) && lastRingVer <= ringVer
      && (Cached() ==> Current()(Ids(Usable()), ring.value, ringPaths))
    }

    constructor (opts: Options)
      ensures Valid() && paths == [] && this.opts == opts && !Cached()
    {
      this.opts := opts;
      paths, byID, ring, ringPaths, lastRingVer, ringVer := [], map[], None, map[], 0, 0;
    }

    method AddPath(id: string, capacity: real)
      requires Valid()
      modifies this, paths`capacity
      ensures Valid() && id in byID && byID[id].capacity == capacity
      ensures id in old(byID) ==> paths == old(paths) && byID == old(byID)
      ensures id !in old(byID) ==>
                && fresh(byID[id]) && paths == old(paths) + [byID[id]] && byID == old(byID)[id := byID[id]]
                && byID[id].state == Health.Healthy && byID[id].rr == 0.0 && !Cached()
      ensures forall i :: 0 <= i < |old(paths)| && old(paths[i].id) != id ==>
                old(paths)[i].capacity == old(paths[i].capacity)
    {
      if id in byID {
        byID[id].capacity := capacity;
        return;
      }
      var p := new Path(id, capacity);
      paths := paths + [p];
      byID := byID[id := p];
      ringVer := ringVer + 1;
    }

    method RemovePath(id: string)
      requires Valid()
      modifies this
      ensures Valid() && byID == old(byID) - {id}
      ensures id !in old(byID) ==> paths == old(paths)
      ensures id in old(byID) ==> Ids(paths) == Without(old(Ids(paths)), id) && !Cached()
    {
      if id !in byID { return; }
      var i := IndexOf(paths, byID, id);
      Removed(paths, byID, i);
      byID := byID - {id};
      paths := paths[..i] + paths[i + 1..];
      ringVer := ringVer + 1;
    }

    /** A state change may change the usable set: it always retires the ring. */
    method OnState(id: string, st: Health.State, loss: real)
      requires Valid()
      modifies this`ringVer, paths`state, paths`loss
      ensures Valid() && (id in byID ==> byID[id].state == st && byID[id].loss == loss && !Cached())
      ensures forall i :: 0 <= i < |paths| && paths[i].id != id ==>
                paths[i].state == old(paths[i].state) && paths[i].loss == old(paths[i].loss)
    {
      if id in byID {
        byID[id].state := st;
        byID[id].loss := loss;
        ringVer := ringVer + 1;
      }
    }

    method UsableLocked() returns (usable: seq<Path>)
      requires Registry()(paths, byID)
      ensures usable == Usable() && Distinct(usable)
    {
      UsableDistinct(paths, |paths|);
      usable := [];
      for i := 0 to |paths|
        invariant usable == UsableTo(paths, i)
      {
        if paths[i].state != Health.Down { usable := usable + [paths[i]]; }
      }
    }

    /**
     The next path of the interleaving: w and rr are the weights and accumulators of the usable paths, k is
     the place of the chosen one among them, and next are their accumulators afterwards.
     */
    method PickWRR(ghost w: seq<real>, ghost rr: seq<real>)
      returns (id: string, ok: bool, ghost k: nat, ghost next: seq<real>)
      requires Valid() && WeightsOf(Usable(), opts.balance, w) && Accumulators(Usable(), rr)
      modifies Usable()`rr
      ensures Valid() && Usable() == old(Usable()) && (ok <==> Usable() != [])
      ensures ok ==> k < |Usable()| && id == Usable()[k].id && Accumulators(Usable(), next) && Pick(w, rr, k)(next)
    {
      k, next := 0, [];
      var usable := UsableKept(w, rr);
      if |usable| == 0 { return "", false, 0, []; }
      var best;
      best, k, next := Interleave(usable, opts.balance, w, rr);
      return best.id, true, k, next;
    }

    method UsableKept(ghost w: seq<real>, ghost rr: seq<real>) returns (usable: seq<Path>)
      requires Registry()(paths, byID) && WeightsOf(Usable(), opts.balance, w)
      ensures usable == Usable() && Distinct(usable) && WeightsOf(usable, opts.balance, w)
      ensures old(Accumulators(Usable(), rr)) ==> Accumulators(usable, rr)
    {
      ghost var us := Usable();
      UsableAre(paths, |paths|);
      forall i | 0 <= i < |us| ensures allocated(us[i]) {
        assert us[i] in paths[..|paths|];
      }
      usable := UsableLocked();
      assert usable == us;
    }

    /**
     The path for the next frame. flow: the inner flow's hash when there is one; drawn: the random fraction drawn
     for a weighted choice; w: the weights of the usable paths.
     */
    method PickPath(flow: Option<U32>, drawn: real, ghost w: seq<real>) returns (id: string, ok: bool)
      requires Valid() && 0.0 <= drawn < 1.0 && WeightsOf(Usable(), opts.balance, w)
      modifies this`ring, this`ringPaths, this`lastRingVer
      ensures Valid() && (ok <==> Usable() != [])
      ensures ok ==> id in Ids(Usable())
      ensures ok && opts.mode == Standby ==> Preferred(Usable(), id)
      ensures ok && opts.mode == LoadBalance && opts.affinity == PerFlow && flow.Some? ==>
                Carried()(Ids(Usable()), flow.value, id)
      ensures ok && opts.mode == LoadBalance && !(opts.affinity == PerFlow && flow.Some?) ==>
                DrawnFrom(Ids(Usable()), w, Fraction(drawn, SmoothWrr.Sum(w)), id)
    {
      hide DrawnFrom;
      hide Preferred;
      hide Distinct;
      hide Fraction;
      var usable := UsableKept(w, []);
      if |usable| == 0 { return "", false; }
      if opts.mode == Standby {
        id := FirstHealthy(usable);
        return id, true;
      }
      if opts.affinity == PerFlow && flow.Some? {
        id := PickRingLocked(flow.value, usable);
        return id, true;
      }
      id := PickWeighted(usable, opts.balance, drawn, w);
      return id, true;
    }

    method Rebuild(ids: seq<string>)
      modifies this`ring, this`ringPaths, this`lastRingVer
      ensures Cached() && Current()(ids, ring.value, ringPaths)
    {
      var nodes, owners := FreshRing(ids);
      ring, ringPaths, lastRingVer := Some(nodes), owners, ringVer;
    }

    /** The ring is rebuilt when the usable set may have changed, and otherwise reused as it is. */
    method PickRingLocked(h: U32, usable: seq<Path>) returns (id: string)
      requires Valid() && usable == Usable() && usable != []
      modifies this`ring, this`ringPaths, this`lastRingVer
      ensures Valid() && Cached() && Carried()(Ids(usable), h, id) && id in Ids(usable)
      ensures old(Cached()) ==> ring == old(ring) && ringPaths == old(ringPaths)
    {
      if ring.None? || lastRingVer != ringVer {
        Rebuild(Ids(usable));
      }
      id := Lookup(Ids(usable), ring.value, ringPaths, h);
    }
  }

  /** Strict preference: the first healthy path, or the first usable one when none is healthy. */
  ghost predicate Preferred(usable: seq<Path>, id: string)
    reads usable`state
  {
    exists i :: 0 <= i < |usable| && usable[i].id == id
      && (forall j :: 0 <= j < i ==> usable[j].state != Health.Healthy)
      && (usable[i].state == Health.Healthy
          || (i == 0 && forall j :: 0 <= j < |usable| ==> usable[j].state != Health.Healthy))
  }

  method FirstHealthy(usable: seq<Path>) returns (id: string)
    requires usable != []
    ensures Preferred(usable, id) && id in Ids(usable)
  {
    for i := 0 to |usable|
      invariant forall j :: 0 <= j < i ==> usable[j].state != Health.Healthy
    {
      if usable[i].state == Health.Healthy {
        assert Ids(usable)[i] == usable[i].id;
        return usable[i].id;
      }
    }
    assert Ids(usable)[0] == usable[0].id;
    return usable[0].id;
  }

  /** r falls into the stretch of weight k, with all the weights laid end to end. */
  ghost predicate LandsOn(w: seq<real>, r: real, k: nat) {
    k < |w| && (k == 0 || SmoothWrr.SumTo(w, k) < r) && r <= SmoothWrr.SumTo(w, k + 1)
  }

  /** The path was drawn: r falls into the stretch of its weight, so its share of the draws is that of its weight. */
  ghost predicate DrawnFrom(ids: seq<string>, w: seq<real>, r: real, id: string) {
    |w| == |ids| && exists k: nat :: LandsOn(w, r, k) && ids[k] == id
  }

  function Fraction(x: real, total: real): real { x * total }

  method PickWeighted(usable: seq<Path>, balance: Balance, drawn: real, ghost w: seq<real>) returns (id: string)
    requires usable != [] && 0.0 <= drawn < 1.0 && WeightsOf(usable, balance, w)
    ensures DrawnFrom(Ids(usable), w, Fraction(drawn, SmoothWrr.Sum(w)), id) && id in Ids(usable)
  {
    hide DrawnFrom;
    hide SmoothWrr.Sum;
    hide Fraction;
    var total := Total(usable, balance, w);
    LessThanWhole(drawn, total);
    if total <= 0.0 {
      assert Ids(usable)[0] == usable[0].id;
      FirstDrawn(usable, balance, w);
      return usable[0].id;
    }
    id := Landing(usable, balance, Fraction(drawn, total), w);
  }

  lemma FirstDrawn(ps: seq<Path>, balance: Balance, w: seq<real>)
    requires ps != [] && WeightsOf(ps, balance, w)
    ensures DrawnFrom(Ids(ps), w, 0.0, ps[0].id)
  {
    assert SmoothWrr.SumTo(w, 1) == SmoothWrr.SumTo(w, 0) + w[0];
    assert LandsOn(w, 0.0, 0);
  }

  method Total(usable: seq<Path>, balance: Balance, ghost w: seq<real>) returns (total: real)
    requires WeightsOf(usable, balance, w)
    ensures total == SmoothWrr.Sum(w) >= 0.0
  {
    total := 0.0;
    for i := 0 to |usable|
      invariant total == SmoothWrr.SumTo(w, i) >= 0.0
    {
      total := total + Weight(usable[i].state, usable[i].capacity, balance);
    }
  }

  lemma LessThanWhole(x: real, total: real)
    requires x < 1.0
    ensures (total > 0.0 ==> Fraction(x, total) < total) && (total == 0.0 ==> Fraction(x, total) == 0.0)
  {}

  /** Where r lands among the weights laid end to end; beyond them all, on the last path. */
  method Landing(usable: seq<Path>, balance: Balance, r: real, ghost w: seq<real>) returns (id: string)
    requires usable != [] && WeightsOf(usable, balance, w)
    ensures id in Ids(usable) && (r <= SmoothWrr.Sum(w) ==> DrawnFrom(Ids(usable), w, r, id))
  {
    var left := r;
    for i := 0 to |usable|
      invariant left == r - SmoothWrr.SumTo(w, i) && (i > 0 ==> left > 0.0)
    {
      left := left - Weight(usable[i].state, usable[i].capacity, balance);
      if left <= 0.0 {
        assert LandsOn(w, r, i) && Ids(usable)[i] == usable[i].id;
        return usable[i].id;
      }
    }
    assert Ids(usable)[|usable| - 1] == usable[|usable| - 1].id;
    return usable[|usable| - 1].id;
  }

  method FreshRing(ids: seq<string>) returns (nodes: seq<U32>, owners: map<U32, string>)
    ensures Current()(ids, nodes, owners)
  {
    nodes, owners := BuildRing(FnvPlace, ids);
  }

  method Lookup(ids: seq<string>, nodes: seq<U32>, owners: map<U32, string>, h: U32) returns (id: string)
    requires Current()(ids, nodes, owners) && ids != []
    ensures Carried()(ids, h, id) && id in ids
  {
    id := PickRing(FnvPlace, ids, nodes, owners, h);
  }

  method Interleave(usable: seq<Path>, balance: Balance, ghost w: seq<real>, ghost rr: seq<real>)
    returns (best: Path, ghost k: nat, ghost next: seq<real>)
    requires usable != [] && Distinct(usable) && WeightsOf(usable, balance, w) && Accumulators(usable, rr)
    modifies usable`rr
    ensures k < |usable| && best == usable[k] && Accumulators(usable, next) && Pick(w, rr, k)(next)
  {
    hide Distinct;
    hide WeightsOf;
    hide SmoothWrr.Sum;
    hide Pick;
    var total;
    best, total, k, next := GainAll(usable, balance, w, rr);
    PickDone(w, rr, next, k);
    if total <= 0.0 { return; }
    Credit(usable, k, best, -total, next);
    next := next[k := next[k] + -total];
  }

  /** p.rr += x, p being the i-th of the paths. */
  method Credit(ghost usable: seq<Path>, ghost i: nat, p: Path, x: real, ghost rr: seq<real>)
    requires Distinct(usable) && i < |usable| && p == usable[i] && Accumulators(usable, rr)
    modifies p`rr
    ensures Accumulators(usable, rr[i := rr[i] + x])
  {
    p.rr := p.rr + x;
  }

  method GainAll(usable: seq<Path>, balance: Balance, ghost w: seq<real>, ghost rr: seq<real>)
    returns (best: Path, total: real, ghost k: nat, ghost now: seq<real>)
    requires usable != [] && Distinct(usable) && WeightsOf(usable, balance, w) && Accumulators(usable, rr)
    modifies usable`rr
    ensures k < |usable| && best == usable[k] && Accumulators(usable, now)
    ensures Gain(w, rr)(now, |usable|, k) && total == SmoothWrr.Sum(w)
  {
    best, k, now, total := usable[0], 0, rr, 0.0;
    GainNone(w, rr);
    for i := 0 to |usable|
      invariant k < |usable| && best == usable[k] && Accumulators(usable, now) && WeightsOf(usable, balance, w)
      invariant Gain(w, rr)(now, i, k) && total == SmoothWrr.SumTo(w, i)
    {
      best, total, k, now := GainOne(usable, balance, i, best, total, w, rr, k, now);
    }
  }

  /** The i-th path gains its weight and may take the lead. */
  method GainOne(usable: seq<Path>, balance: Balance, i: nat, best: Path, total: real, ghost w: seq<real>,
                 ghost rr: seq<real>, ghost k: nat, ghost now: seq<real>)
    returns (leader: Path, sum: real, ghost m: nat, ghost after: seq<real>)
    requires Distinct(usable) && WeightsOf(usable, balance, w) && Accumulators(usable, now)
    requires i < |usable| && k < |usable| && best == usable[k] && Gain(w, rr)(now, i, k)
    requires total == SmoothWrr.SumTo(w, i)
    modifies usable`rr
    ensures m < |usable| && leader == usable[m] && Accumulators(usable, after) && WeightsOf(usable, balance, w)
    ensures Gain(w, rr)(after, i + 1, m) && sum == SmoothWrr.SumTo(w, i + 1)
  {
    var p := usable[i];
    var weight := Weight(p.state, p.capacity, balance);
    sum := total + weight;
    Credit(usable, i, p, weight, now);
    GainMore(w, rr, now, i, k);
    after := now[i := now[i] + w[i]];
    if p.rr > best.rr { return p, sum, i, after; }
    return best, sum, k, after;
  }

  lemma GainNone(w: seq<real>, rr: seq<real>)
    requires |w| == |rr|
    ensures Gain(w, rr)(rr, 0, 0)
  {
    assert rr == Raised(w, rr, 0);
  }

  /** The accumulators with the first n paths' weights added. */
  ghost function Raised(w: seq<real>, rr: seq<real>, n: nat): (now: seq<real>)
    requires |w| == |rr|
    ensures |now| == |w|
  {
    seq(|w|, i requires 0 <= i < |w| => if i < n then rr[i] + w[i] else rr[i])
  }

  /** The first n paths have gained their weight, and k leads them. */
  ghost function Gain(w: seq<real>, rr: seq<real>): (seq<real>, nat, nat) -> bool {
    (now, n: nat, k: nat) => |w| == |rr| && n <= |w| && now == Raised(w, rr, n) && Ahead(now, n, k)
  }

  ghost predicate Ahead(now: seq<real>, n: nat, k: nat) {
    && n <= |now| && (n > 0 ==> k < n) && (n == 0 ==> k == 0)
    && (forall j {:trigger now[j]} :: 0 <= j < n ==> now[j] < now[k] || (now[j] == now[k] && k <= j))
  }

  lemma GainMore(w: seq<real>, rr: seq<real>, now: seq<real>, n: nat, k: nat)
    requires Gain(w, rr)(now, n, k) && n < |w| && k < |w|
    ensures var after := now[n := now[n] + w[n]];
            Gain(w, rr)(after, n + 1, if after[n] > after[k] then n else k)
  {
    var after := now[n := now[n] + w[n]];
    assert after == Raised(w, rr, n + 1);
    assert Ahead(after, n + 1, if after[n] > after[k] then n else k) by {
      assert forall j :: 0 <= j < n ==> after[j] == now[j];
    }
  }

  lemma PickDone(w: seq<real>, rr: seq<real>, now: seq<real>, k: nat)
    requires Gain(w, rr)(now, |w|, k) && w != []
    ensures SmoothWrr.Sum(w) <= 0.0 ==> Pick(w, rr, k)(now)
    ensures SmoothWrr.Sum(w) > 0.0 ==> Pick(w, rr, k)(now[k := now[k] + -SmoothWrr.Sum(w)])
  {
    assert forall j :: 0 <= j < |w| ==> now[j] == rr[j] + w[j];
    assert SmoothWrr.Leads(w, rr, k);
  }

  method IndexOf(ps: seq<Path>, ghost byID: map<string, Path>, id: string) returns (i: nat)
    requires Registry()(ps, byID) && id in byID
    ensures i < |ps| && ps[i].id == id
  {
    i := 0;
    while ps[i].id != id
      invariant i < |ps| && exists j :: i <= j < |ps| && ps[j].id == id
      decreases |ps| - i
    {
      i := i + 1;
    }
  }

  /** Taking the i-th path out of the list and of the index. */
  lemma Removed(ps: seq<Path>, byID: map<string, Path>, i: nat)
    requires Registry()(ps, byID) && i < |ps|
    ensures Registry()(ps[..i] + ps[i + 1..], byID - {ps[i].id})
    ensures Ids(ps[..i] + ps[i + 1..]) == Without(Ids(ps), ps[i].id)
  {
    RemovedIds(ps, i);
    RemovedIndex(ps, byID, i);
  }

  lemma RemovedIds(ps: seq<Path>, i: nat)
    requires Distinct(ps) && i < |ps|
    ensures Ids(ps[..i] + ps[i + 1..]) == Without(Ids(ps), ps[i].id)
  {
    WithoutOne(Ids(ps), i);
    assert Ids(ps[..i] + ps[i + 1..]) == Ids(ps)[..i] + Ids(ps)[i + 1..];
  }

  lemma RemovedIndex(ps: seq<Path>, byID: map<string, Path>, i: nat)
    requires Registered(ps, byID) && i < |ps|
    ensures Registered(ps[..i] + ps[i + 1..], byID - {ps[i].id})
  {
    var left, rest := ps[..i] + ps[i + 1..], byID - {ps[i].id};
    forall id | id in rest ensures rest[id] in left && rest[id].id == id {
      var j :| 0 <= j < |ps| && ps[j] == byID[id];
      assert j != i;
      assert left[if j < i then j else j - 1] == ps[j];
    }
  }

  lemma {:induction false} WithoutOne(ids: seq<string>, i: nat)
    requires i < |ids| && forall j :: 0 <= j < |ids| && j != i ==> ids[j] != ids[i]
    ensures Without(ids, ids[i]) == ids[..i] + ids[i + 1..]
    decreases |ids|
  {
    var init := ids[..|ids| - 1];
    if i == |ids| - 1 {
      WithoutNone(init, ids[i]);
    } else {
      WithoutOne(init, i);
      assert init[..i] == ids[..i] && init[i + 1..] + [ids[|ids| - 1]] == ids[i + 1..];
    }
  }

  lemma {:induction false} WithoutNone(ids: seq<string>, gone: string)
    requires forall j :: 0 <= j < |ids| ==> ids[j] != gone
    ensures Without(ids, gone) == ids
    decreases |ids|
  {
    if ids != [] { WithoutNone(ids[..|ids| - 1], gone); }
  }
}
