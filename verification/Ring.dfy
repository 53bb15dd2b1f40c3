/**
 Consistent hashing: 64 virtual nodes per usable path on a ring of 2^32 places, for any placement of the
 nodes. Colliding nodes belong to the path placed last.
 */
module Ring {
  import opened Bytes
  import opened Sorting
  import opened Modular
  import opened Xors

  const VNODES := 64

  /** Where virtual node v of a path goes. */
  type Placing = (string, nat) -> U32

  /** The path owning a place: the last of the list with a node there. */
  function Owner(at: Placing, ids: seq<string>, node: U32): (r: Option<string>)
    ensures r.Some? ==> r.value in ids && Places(at, r.value, node)
    ensures r.None? ==> forall id :: id in ids ==> !Places(at, id, node)
  {
    if ids == [] then None
    else if Places(at, ids[|ids| - 1], node) then Some(ids[|ids| - 1])
    else Owner(at, ids[..|ids| - 1], node)
  }

  predicate Places(at: Placing, id: string, node: U32) { exists v: nat :: v < VNODES && at(id, v) == node }

  /** node is the first of the nodes at or after h, going round. */
  ghost predicate Successor(at: Placing, ids: seq<string>, h: U32, node: U32) {
    && Owner(at, ids, node).Some?
    && (node >= h || forall n: U32 :: Owner(at, ids, n).Some? ==> n < h)
    && (forall n: U32 :: Owner(at, ids, n).Some? && (n >= h || node < h) ==> node <= n)
  }

  /** The path a flow with this hash is on. */
  ghost predicate OnPath(at: Placing, ids: seq<string>, h: U32, id: string) {
    exists node: U32 :: Successor(at, ids, h, node) && Owner(at, ids, node) == Some(id)
  }

  lemma SuccessorUnique(at: Placing, ids: seq<string>, h: U32, m: U32, n: U32)
    requires Successor(at, ids, h, m) && Successor(at, ids, h, n)
    ensures m == n
  {}

  // ---------------------------------------------------------------------
  // Taking a path out.

  /** The list without one path, in the same order. */
  function Without(ids: seq<string>, gone: string): (r: seq<string>)
    ensures forall id :: id in r <==> id in ids && id != gone
  {
    if ids == [] then []
    else Without(ids[..|ids| - 1], gone) + if ids[|ids| - 1] == gone then [] else [ids[|ids| - 1]]
  }

  lemma {:induction false} OwnerWithout(at: Placing, ids: seq<string>, gone: string, node: U32)
    ensures Owner(at, Without(ids, gone), node).Some? ==> Owner(at, ids, node).Some?
    ensures Owner(at, ids, node).Some? && Owner(at, ids, node).value != gone ==>
              Owner(at, Without(ids, gone), node) == Owner(at, ids, node)
    decreases |ids|
  {
    if ids != [] {
      var init, last := ids[..|ids| - 1], ids[|ids| - 1];
      OwnerWithout(at, init, gone, node);
      if last == gone {
        assert Without(ids, gone) == Without(init, gone);
      } else {
        assert Without(ids, gone) == Without(init, gone) + [last];
        assert (Without(init, gone) + [last])[..|Without(init, gone)|] == Without(init, gone);
      }
    }
  }

  /** Taking a path out moves only the flows that were on it, whatever nodes collide. */
  lemma OnlyItsFlowsMove(at: Placing, ids: seq<string>, gone: string, h: U32, id: string)
    requires OnPath(at, ids, h, id) && id != gone
    ensures OnPath(at, Without(ids, gone), h, id)
  {
    var node: U32 :| Successor(at, ids, h, node) && Owner(at, ids, node) == Some(id);
    forall n: U32
      ensures Owner(at, Without(ids, gone), n).Some? ==> Owner(at, ids, n).Some?
    {
      OwnerWithout(at, ids, gone, n);
    }
    OwnerWithout(at, ids, gone, node);
    assert Successor(at, Without(ids, gone), h, node);
  }

  /** Bringing a path in moves flows only onto it. */
  lemma FlowsMoveOnlyToIt(at: Placing, ids: seq<string>, added: string, h: U32, before: string, after: string)
    requires OnPath(at, Without(ids, added), h, before) && OnPath(at, ids, h, after)
    ensures after == added || after == before
  {
    if after != added {
      OnlyItsFlowsMove(at, ids, added, h, after);
      OnPathUnique(at, Without(ids, added), h, before, after);
    }
  }

  lemma OnPathUnique(at: Placing, ids: seq<string>, h: U32, a: string, b: string)
    requires OnPath(at, ids, h, a) && OnPath(at, ids, h, b)
    ensures a == b
  {
    var m: U32 :| Successor(at, ids, h, m) && Owner(at, ids, m) == Some(a);
    var n: U32 :| Successor(at, ids, h, n) && Owner(at, ids, n) == Some(b);
    SuccessorUnique(at, ids, h, m, n);
  }

  // ---------------------------------------------------------------------
  // The table: sorted nodes and their owners.

  function NodesOf(at: Placing, id: string, n: nat): (s: seq<U32>)
    ensures |s| == n
  {
    seq(n, v requires 0 <= v < n => at(id, v))
  }

  /** Every node placed, path by path. */
  function Nodes(at: Placing, ids: seq<string>): (s: seq<U32>)
    ensures |s| == VNODES * |ids|
  {
    if ids == [] then [] else Nodes(at, ids[..|ids| - 1]) + NodesOf(at, ids[|ids| - 1], VNODES)
  }

  ghost predicate Owns(at: Placing, ids: seq<string>, paths: map<U32, string>, node: U32) {
    && (node in paths <==> Owner(at, ids, node).Some?)
    && (node in paths ==> Owner(at, ids, node) == Some(paths[node]))
  }

  /** A fresh build over ids: it fixes the ring and the owners completely. */
  ghost predicate Built(at: Placing, ids: seq<string>, ring: seq<U32>, paths: map<U32, string>) {
    && SortedUpTo(ring, |ring|) && multiset(ring) == multiset(Nodes(at, ids))
    && forall node: U32 :: Owns(at, ids, paths, node)
  }

  /** A ring has 64 nodes for each path. */
  lemma SixtyFourEach(at: Placing, ids: seq<string>, ring: seq<U32>, paths: map<U32, string>)
    requires Built(at, ids, ring, paths)
    ensures |ring| == 64 * |ids|
  {
    assert |multiset(ring)| == |multiset(Nodes(at, ids))|;
  }

  lemma {:induction false} NodesOwned(at: Placing, ids: seq<string>, node: U32)
    ensures node in Nodes(at, ids) <==> Owner(at, ids, node).Some?
    decreases |ids|
  {
    if ids != [] {
      var init, last := ids[..|ids| - 1], ids[|ids| - 1];
      NodesOwned(at, init, node);
      PlacedNode(at, last, node);
    }
  }

  lemma RingOwned(at: Placing, ids: seq<string>, ring: seq<U32>, paths: map<U32, string>, node: U32)
    requires Built(at, ids, ring, paths)
    ensures node in ring <==> Owner(at, ids, node).Some?
    ensures node in ring ==> node in paths && Owner(at, ids, node) == Some(paths[node])
  {
    NodesOwned(at, ids, node);
    assert node in ring <==> node in multiset(ring);
    assert node in Nodes(at, ids) <==> node in multiset(Nodes(at, ids));
    assert Owns(at, ids, paths, node);
  }

  /** Two builds over the same paths are equal: a cached table that is Built is the fresh one. */
  lemma BuiltUnique(at: Placing, ids: seq<string>, ring: seq<U32>, paths: map<U32, string>, ring2: seq<U32>,
                    paths2: map<U32, string>)
    requires Built(at, ids, ring, paths) && Built(at, ids, ring2, paths2)
    ensures ring == ring2 && paths == paths2
  {
    SortedUnique(ring, ring2);
    forall node: U32 ensures node in paths <==> node in paths2 {
      assert Owns(at, ids, paths, node) && Owns(at, ids, paths2, node);
    }
    forall node: U32 | node in paths ensures paths[node] == paths2[node] {
      assert Owns(at, ids, paths, node) && Owns(at, ids, paths2, node);
    }
  }

  lemma {:induction false} SortedUnique(a: seq<U32>, b: seq<U32>)
    requires SortedUpTo(a, |a|) && SortedUpTo(b, |b|) && multiset(a) == multiset(b)
    ensures a == b
  {
    SameSize(a, b);
    if a != [] {
      SameLast(a, b);
      LastOf(a);
      LastOf(b);
      SortedUnique(a[..|a| - 1], b[..|b| - 1]);
    }
  }

  lemma SameLast(a: seq<U32>, b: seq<U32>)
    requires a != [] && |a| == |b| && SortedUpTo(a, |a|) && SortedUpTo(b, |b|) && multiset(a) == multiset(b)
    ensures a[|a| - 1] == b[|b| - 1]
  {
    NotAboveLast(a, b[|b| - 1]);
    NotAboveLast(b, a[|a| - 1]);
  }

  lemma NotAboveLast(s: seq<U32>, x: U32)
    requires s != [] && SortedUpTo(s, |s|)
    ensures x in multiset(s) ==> x <= s[|s| - 1]
  {}

  lemma SameSize(a: seq<U32>, b: seq<U32>)
    requires multiset(a) == multiset(b)
    ensures |a| == |b|
  {
    assert |a| == |multiset(a)| && |b| == |multiset(b)|;
  }

  lemma LastOf(s: seq<U32>)
    requires s != [] && SortedUpTo(s, |s|)
    ensures var init, x := s[..|s| - 1], s[|s| - 1];
            && SortedUpTo(init, |init|) && multiset(init) == multiset(s) - multiset{x} && s == init + [x]
            && forall y :: y in multiset(s) ==> y <= x
  {
    var init, x := s[..|s| - 1], s[|s| - 1];
    assert s == init + [x];
    assert multiset(s) == multiset(init) + multiset{x};
    forall y | y in multiset(s) ensures y <= x {
      assert y in s;
    }
  }

  /** The nodes of one path, over whatever stood there. */
  method PlacePath(at: Placing, id: string, nodes: seq<U32>, paths: map<U32, string>, ghost ids: seq<string>)
    returns (more: seq<U32>, placed: map<U32, string>)
    requires nodes == Nodes(at, ids) && forall node: U32 :: Owns(at, ids, paths, node)
    ensures more == Nodes(at, ids + [id]) && forall node: U32 :: Owns(at, ids + [id], placed, node)
  {
    more, placed := nodes, paths;
    for v := 0 to VNODES
      invariant more == nodes + NodesOf(at, id, v)
      invariant forall node: U32 :: Overlaid(paths, placed, id, NodesOf(at, id, v), node)
    {
      var node := at(id, v);
      ghost var was := placed;
      more, placed := more + [node], placed[node := id];
      assert NodesOf(at, id, v + 1) == NodesOf(at, id, v) + [node];
      ghost var upTo, now := NodesOf(at, id, v), NodesOf(at, id, v + 1);
      forall n: U32 ensures Overlaid(paths, placed, id, now, n) {
        assert Overlaid(paths, was, id, upTo, n);
      }
    }
    assert (ids + [id])[..|ids|] == ids;
    forall node: U32 ensures Owns(at, ids + [id], placed, node) {
      assert Owns(at, ids, paths, node) && Overlaid(paths, placed, id, NodesOf(at, id, VNODES), node);
      PlacedNode(at, id, node);
    }
  }

  ghost predicate Overlaid(paths: map<U32, string>, placed: map<U32, string>, id: string, mine: seq<U32>, node: U32) {
    if node in mine then node in placed && placed[node] == id
    else (node in placed <==> node in paths) && (node in paths ==> placed[node] == paths[node])
  }

  lemma PlacedNode(at: Placing, id: string, node: U32)
    ensures node in NodesOf(at, id, VNODES) <==> Places(at, id, node)
  {
    var mine := NodesOf(at, id, VNODES);
    if Places(at, id, node) {
      var v: nat :| v < VNODES && at(id, v) == node;
      assert mine[v] == node;
    }
    if node in mine {
      var v :| 0 <= v < |mine| && mine[v] == node;
      assert at(id, v) == node;
    }
  }

  method BuildRing(at: Placing, ids: seq<string>) returns (ring: seq<U32>, paths: map<U32, string>)
    ensures Built(at, ids, ring, paths)
  {
    var nodes := [];
    paths := map[];
    for i := 0 to |ids|
      invariant nodes == Nodes(at, ids[..i])
      invariant forall node: U32 :: Owns(at, ids[..i], paths, node)
    {
      nodes, paths := PlacePath(at, ids[i], nodes, paths, ids[..i]);
      assert ids[..i] + [ids[i]] == ids[..i + 1];
    }
    assert ids[..|ids|] == ids;
    var a := new U32[|nodes|](i requires 0 <= i < |nodes| => nodes[i]);
    assert a[..] == nodes;
    SortUint32(a);
    ring := a[..];
  }

  /** sort.Search: the first index whose entry is at least h. */
  method Search(ring: seq<U32>, h: U32) returns (i: nat)
    requires SortedUpTo(ring, |ring|)
    ensures i <= |ring|
    ensures (forall j :: 0 <= j < i ==> ring[j] < h) && (forall j :: i <= j < |ring| ==> ring[j] >= h)
  {
    i := 0;
    var j := |ring|;
    while i < j
      invariant i <= j <= |ring|
      invariant forall x :: 0 <= x < i ==> ring[x] < h
      invariant forall x :: j <= x < |ring| ==> ring[x] >= h
      decreases j - i
    {
      var mid := (i + j) / 2;
      if ring[mid] >= h { j := mid; } else { i := mid + 1; }
    }
  }

  method PickRing(ghost at: Placing, ghost ids: seq<string>, ring: seq<U32>, paths: map<U32, string>, h: U32)
    returns (id: string)
    requires Built(at, ids, ring, paths) && ids != []
    ensures OnPath(at, ids, h, id) && id in ids
  {
    var i := Search(ring, h);
    RingFull(at, ids, ring, paths);
    if i == |ring| { i := 0; }
    RingOwned(at, ids, ring, paths, ring[i]);
    id := paths[ring[i]];
    ghost var node := ring[i];
    forall n: U32 ensures Owner(at, ids, n).Some? <==> n in ring {
      RingOwned(at, ids, ring, paths, n);
    }
    assert Successor(at, ids, h, node);
  }

  lemma RingFull(at: Placing, ids: seq<string>, ring: seq<U32>, paths: map<U32, string>)
    requires Built(at, ids, ring, paths)
    ensures |ring| == VNODES * |ids|
  {
    assert |ring| == |multiset(ring)| && |Nodes(at, ids)| == |multiset(Nodes(at, ids))|;
  }

  // ---------------------------------------------------------------------
  // The placing the scheduler uses: FNV-1a over the identifier and the node's index.

  const FNV_OFFSET: U32 := 2166136261
  const FNV_PRIME := 16777619

  /** h ^= x; h *= prime, where x fits in the low byte of h. */
  function FnvStep(h: U32, x: Byte): U32 {
    var low: int := Xor(h % 0x100, x);
    (h / 0x100 * 0x100 + low) * FNV_PRIME % 0x1_0000_0000
  }

  /** A character of an identifier is one byte. */
  function Octet(c: char): Byte { c as int % 0x100 }

  function FnvTo(id: string, n: nat): U32
    requires n <= |id|
  {
    if n == 0 then FNV_OFFSET else FnvStep(FnvTo(id, n - 1), Octet(id[n - 1]))
  }

  function FnvPlace(id: string, v: nat): U32 { FnvStep(FnvTo(id, |id|), v % 0x100) }

  method Fnv1a(id: string, v: nat) returns (node: U32)
    ensures node == FnvPlace(id, v)
  {
    node := FNV_OFFSET;
    for i := 0 to |id|
      invariant node == FnvTo(id, i)
    {
      node := FnvStep(node, Octet(id[i]));
    }
    node := FnvStep(node, v % 0x100);
  }

  /** The published hashes of the empty text and of "a" under 32-bit FNV-1a. */
  lemma FnvPublished()
    ensures FnvTo("", 0) == 0x811c9dc5 && FnvTo("a", 1) == 0xe40c292c
  {
    hide FnvStep;
    hide Xor;
    LowOctet();
    StepIs(0x811c9d, 0xc5, 0x61, 0xa4, 8461672, 0xe40c292c);
  }

  lemma LowOctet()
    ensures Xor(0xc5, 0x61) == 0xa4
  {
    Unfold(1, 1, 0);
    Unfold(2, 3, 1);
    Unfold(3, 6, 3);
    Unfold(4, 0xc, 6);
    Unfold(5, 0x18, 0xc);
    Unfold(6, 0x31, 0x18);
    Unfold(7, 0x62, 0x30);
    Unfold(8, 0xc5, 0x61);
    assert XorBits(0, 0, 0) == 0;
    hide XorBits;
  }

  lemma StepIs(high: nat, h: Byte, x: Byte, low: Byte, q: nat, next: U32)
    requires high < 0x100_0000 && Xor(h, x) == low && (high * 0x100 + low) * FNV_PRIME == q * 0x1_0000_0000 + next
    ensures FnvStep(high * 0x100 + h, x) == next
  {
    hide FnvStep;
    hide Mixed;
    hide Xor;
    MixedIs(high, h, x);
    StepOfMixed(high * 0x100 + h, x);
    ModAdd(next, q, 0x1_0000_0000);
  }

  function Mixed(h: U32, x: Byte): U32 { h / 0x100 * 0x100 + Xor(h % 0x100, x) as int }

  lemma StepOfMixed(h: U32, x: Byte)
    ensures FnvStep(h, x) == Mixed(h, x) * FNV_PRIME % 0x1_0000_0000
  {
    hide Xor;
  }

  lemma MixedIs(high: nat, h: Byte, x: Byte)
    requires high < 0x100_0000
    ensures Mixed(high * 0x100 + h, x) == high * 0x100 + Xor(h, x) as int
  {
    hide Xor;
  }

  // Multiplying by the prime is undone by multiplying by its inverse modulo 2^32.

  const FNV_INVERSE := 899433627

  lemma TimesPrimeUndone(y: U32)
    ensures (y * FNV_PRIME % 0x1_0000_0000) * FNV_INVERSE % 0x1_0000_0000 == y
  {
    ModTimes(y * FNV_PRIME, FNV_INVERSE, 0x1_0000_0000);
    assert FNV_PRIME * FNV_INVERSE == 3513497 * 0x1_0000_0000 + 1;
    assert y * FNV_PRIME * FNV_INVERSE == y * 3513497 * 0x1_0000_0000 + y;
    ModAdd(y, y * 3513497, 0x1_0000_0000);
  }

  /** One step of the hash loses nothing: it is injective in the hash so far, and in the octet. */
  lemma FnvStepInjective(g: U32, h: U32, x: Byte, y: Byte)
    requires FnvStep(g, x) == FnvStep(h, y)
    ensures x == y ==> g == h
    ensures g == h ==> x == y
  {
    var a, b := Mixed(g, x), Mixed(h, y);
    StepOfMixed(g, x);
    StepOfMixed(h, y);
    hide FnvStep;
    hide Mixed;
    TimesPrimeUndone(a);
    TimesPrimeUndone(b);
    assert a == b;
    MixedInjective(g, h, x, y);
  }

  lemma MixedInjective(g: U32, h: U32, x: Byte, y: Byte)
    requires Mixed(g, x) == Mixed(h, y)
    ensures x == y ==> g == h
    ensures g == h ==> x == y
  {
    hide Xor;
    var p: Byte, q: Byte := g % 0x100, h % 0x100;
    XorGroup(p, x, x);
    XorGroup(q, y, y);
    XorGroup(x, p, p);
    XorGroup(y, q, q);
    Digits(g / 0x100, Xor(p, x), h / 0x100, Xor(q, y));
  }

  lemma Digits(a: nat, x: Byte, b: nat, y: Byte)
    requires a * 0x100 + x == b * 0x100 + y
    ensures a == b && x == y
  {}

  /** The nodes of one path never collide with each other. */
  lemma OwnNodesDiffer(id: string, u: nat, v: nat)
    requires u < v < 0x100
    ensures FnvPlace(id, u) != FnvPlace(id, v)
  {
    hide FnvStep;
    if FnvPlace(id, u) == FnvPlace(id, v) {
      FnvStepInjective(FnvTo(id, |id|), FnvTo(id, |id|), u, v);
    }
  }
}
