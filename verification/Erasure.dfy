/**
 The Reed-Solomon library as the codec sees it: a family of codes indexed by (k, p), used only through
 the erasure contract "any k of the k+p shards determine the rest". The single-parity XOR code below
 satisfies the contract.
 */
module Erasure {
  import opened Bytes
  import opened Xors

  type Shard = seq<Byte>

  /** What reedsolomon.New(k, p) returned: the code's behaviour is fixed by its shape. */
  datatype Code = Code(k: nat, p: nat)

  /**
   supports(k, p): New(k, p) succeeds; parity: what Encode writes into the parity shards;
   rebuild: what Reconstruct makes of a list with holes (None is an error).
   */
  datatype Library = Library(
    supports: (nat, nat) -> bool,
    parity: (Code, seq<Shard>) -> seq<Shard>,
    rebuild: (Code, seq<Option<Shard>>) -> Option<seq<Shard>>)

  ghost predicate Uniform(shards: seq<Shard>, size: nat) {
    forall i :: 0 <= i < |shards| ==> |shards[i]| == size
  }

  /** `have` is the codeword with holes. */
  ghost predicate Fragment(have: seq<Option<Shard>>, word: seq<Shard>) {
    |have| == |word| && forall i :: 0 <= i < |have| && have[i].Some? ==> have[i].value == word[i]
  }

  ghost function Present(have: seq<Option<Shard>>): set<nat> {
    set i: nat | i < |have| && have[i].Some?
  }

  function New(lib: Library, k: nat, p: int): Option<Code> {
    if p >= 0 && lib.supports(k, p) then Some(Code(k, p)) else None
  }

  /** Encode of k shards of one positive size gives p shards of that size... */
  ghost predicate EncodesTo(lib: Library, c: Code, data: seq<Shard>, size: nat) {
    lib.supports(c.k, c.p) && |data| == c.k && size > 0 && Uniform(data, size) ==>
      |lib.parity(c, data)| == c.p && Uniform(lib.parity(c, data), size)
  }

  /** ... and any k shards of the codeword bring back all of it. */
  ghost predicate Recovers(lib: Library, c: Code, data: seq<Shard>, size: nat, have: seq<Option<Shard>>) {
    && (lib.supports(c.k, c.p) && |data| == c.k && size > 0 && Uniform(data, size)
        && Fragment(have, data + lib.parity(c, data)) && |Present(have)| >= c.k
        ==> lib.rebuild(c, have) == Some(data + lib.parity(c, data)))
    && (|have| != c.k + c.p ==> lib.rebuild(c, have) == None)
  }

  /** The field of the code has 256 elements. */
  ghost predicate Shape(lib: Library, k: nat, p: nat) {
    lib.supports(k, p) ==> k >= 1 && k + p <= 256
  }

  ghost predicate ErasureContract(lib: Library) {
    && (forall k, p :: Shape(lib, k, p))
    && (forall c, data, size :: EncodesTo(lib, c, data, size))
    && (forall c, data, size, have :: Recovers(lib, c, data, size, have))
  }

  // ---------------------------------------------------------------------
  // The XOR code: one parity shard, the bytewise exclusive or of the data.

  /** Byte j of every shard, exclusive-ored; a hole counts as zero. */
  function Column(have: seq<Option<Shard>>, j: nat, n: nat): Byte
    requires n <= |have|
  {
    if n == 0 then 0 else Xor(Column(have, j, n - 1), ByteAt(have[n - 1], j))
  }

  function ByteAt(s: Option<Shard>, j: nat): Byte {
    if s.Some? && j < |s.value| then s.value[j] else 0
  }

  function Whole(shards: seq<Shard>): (have: seq<Option<Shard>>)
    ensures |have| == |shards|
  {
    seq(|shards|, i requires 0 <= i < |shards| => Some(shards[i]))
  }

  function ColumnShard(have: seq<Option<Shard>>, size: nat): (s: Shard)
    ensures |s| == size
  {
    seq(size, j requires 0 <= j => Column(have, j, |have|))
  }

  function FirstSome(have: seq<Option<Shard>>): nat {
    if have == [] then 0 else if have[0].Some? then |have[0].value| else FirstSome(have[1..])
  }

  function XorLibrary(): Library {
    Library(
      (k, p) => 1 <= k <= 255 && p == 1,
      (c: Code, data: seq<Shard>) => [ColumnShard(Whole(data), FirstSome(Whole(data)))],
      (c: Code, have: seq<Option<Shard>>) => XorRebuild(c, have))
  }

  predicate OneHole(have: seq<Option<Shard>>, hole: nat) {
    hole < |have| && forall i :: 0 <= i < |have| && i != hole ==> have[i].Some?
  }

  /** Fills the hole with the exclusive or of everything else. */
  function XorRebuild(c: Code, have: seq<Option<Shard>>): Option<seq<Shard>> {
    if |have| != c.k + c.p then None
    else if forall i :: 0 <= i < |have| ==> have[i].Some? then
      Some(seq(|have|, i requires 0 <= i < |have| => have[i].value))
    else if exists hole :: 0 <= hole < |have| && OneHole(have, hole) && have[hole].None? then
      var hole :| 0 <= hole < |have| && OneHole(have, hole) && have[hole].None?;
      Some(seq(|have|, i requires 0 <= i < |have| =>
        if i == hole then ColumnShard(have, FirstSome(have)) else have[i].value))
    else None
  }

  /** Punching entry i out of a column changes its exclusive or by that entry. */
  lemma {:induction false} ColumnHole(word: seq<Option<Shard>>, hole: nat, j: nat, n: nat)
    requires hole < |word| && n <= |word|
    ensures Column(word[hole := None], j, n)
         == if hole < n then Xor(Column(word, j, n), ByteAt(word[hole], j)) else Column(word, j, n)
  {
    if n > 0 {
      ColumnHole(word, hole, j, n - 1);
      var c, x := Column(word, j, n - 1), ByteAt(word[n - 1], j);
      if hole == n - 1 {
        XorGroup(c, x, x);
        XorGroup(c, 0, 0);
        assert Xor(Xor(c, x), x) == Xor(c, Xor(x, x)) == c by { XorGroup(x, x, x); }
      } else if hole < n - 1 {
        var h := ByteAt(word[hole], j);
        XorGroup(c, h, x);
        XorGroup(c, x, h);
        XorGroup(h, x, x);
      }
    }
  }

  /** A codeword's columns cancel. */
  lemma WordCancels(data: seq<Shard>, size: nat, j: nat)
    requires Uniform(data, size) && j < size
    ensures var word := data + [ColumnShard(Whole(data), size)];
            Column(Whole(word), j, |word|) == 0
  {
    var parity := ColumnShard(Whole(data), size);
    var word := data + [parity];
    ColumnPrefix(Whole(data), Whole(word), j, |data|);
    var c := Column(Whole(data), j, |data|);
    assert ByteAt(Whole(word)[|data|], j) == parity[j] == c;
    XorGroup(c, c, c);
  }

  lemma {:induction false} ColumnPrefix(a: seq<Option<Shard>>, b: seq<Option<Shard>>, j: nat, n: nat)
    requires n <= |a| && n <= |b| && forall i :: 0 <= i < n ==> a[i] == b[i]
    ensures Column(a, j, n) == Column(b, j, n)
  {
    if n > 0 { ColumnPrefix(a, b, j, n - 1); }
  }

  lemma {:induction false} FirstSomeSize(have: seq<Option<Shard>>, size: nat)
    requires exists i :: 0 <= i < |have| && have[i].Some?
    requires forall i :: 0 <= i < |have| && have[i].Some? ==> |have[i].value| == size
    ensures FirstSome(have) == size
  {
    if have[0].None? {
      var i :| 0 <= i < |have| && have[i].Some?;
      assert have[1..][i - 1] == have[i];
      FirstSomeSize(have[1..], size);
    }
  }

  /** At most one shard of k+1 is missing when k are present. */
  lemma HolesFew(have: seq<Option<Shard>>, k: nat)
    requires |have| == k + 1 && |Present(have)| >= k
    ensures forall i, j :: 0 <= i < j < |have| ==> have[i].Some? || have[j].Some?
  {
    forall i: nat, j: nat | i < j < |have| ensures have[i].Some? || have[j].Some? {
      if have[i].None? && have[j].None? {
        assert Present(have) <= Range(k + 1) - {i, j};
        SubsetSize(Present(have), Range(k + 1) - {i, j});
        assert false;
      }
    }
  }

  /** The XOR code with up to 255 data shards meets the erasure contract. */
  lemma XorMeetsContract()
    ensures ErasureContract(XorLibrary())
    ensures forall k: nat :: 1 <= k <= 255 ==> New(XorLibrary(), k, 1) == Some(Code(k, 1))
  {
    var lib := XorLibrary();
    forall c, data, size ensures EncodesTo(lib, c, data, size) {
      if lib.supports(c.k, c.p) && |data| == c.k && size > 0 && Uniform(data, size) {
        XorEncodes(c, data, size);
      }
    }
    forall c, data, size, have ensures Recovers(lib, c, data, size, have) {
      if lib.supports(c.k, c.p) && |data| == c.k && size > 0 && Uniform(data, size)
         && Fragment(have, data + lib.parity(c, data)) && |Present(have)| >= c.k {
        XorEncodes(c, data, size);
        XorRecovers(c, data, size, have);
      }
    }
  }

  lemma XorEncodes(c: Code, data: seq<Shard>, size: nat)
    requires |data| >= 1 && Uniform(data, size)
    ensures XorLibrary().parity(c, data) == [ColumnShard(Whole(data), size)]
  {
    assert Whole(data)[0].Some?;
    FirstSomeSize(Whole(data), size);
  }

  lemma XorRecovers(c: Code, data: seq<Shard>, size: nat, have: seq<Option<Shard>>)
    requires c.k >= 1 && c.p == 1 && |data| == c.k && Uniform(data, size)
    requires var word := data + [ColumnShard(Whole(data), size)];
             Fragment(have, word) && |Present(have)| >= c.k
    ensures XorRebuild(c, have) == Some(data + [ColumnShard(Whole(data), size)])
  {
    var word := data + [ColumnShard(Whole(data), size)];
    HolesFew(have, c.k);
    if forall i :: 0 <= i < |have| ==> have[i].Some? {
      assert XorRebuild(c, have).value == word;
    } else {
      var x :| 0 <= x < |have| && have[x].None?;
      assert OneHole(have, x);
      var hole :| 0 <= hole < |have| && OneHole(have, hole) && have[hole].None?;
      assert have == Whole(word)[hole := None];
      HoleFilled(data, size, hole);
      assert have[if x == 0 then 1 else 0].Some?;
      FirstSomeSize(have, size);
      assert XorRebuild(c, have).value == word;
    }
  }

  lemma HoleFilled(data: seq<Shard>, size: nat, hole: nat)
    requires Uniform(data, size) && hole <= |data|
    ensures var word := data + [ColumnShard(Whole(data), size)];
            ColumnShard(Whole(word)[hole := None], size) == word[hole]
  {
    var word := data + [ColumnShard(Whole(data), size)];
    forall j: nat | j < size ensures Column(Whole(word)[hole := None], j, |word|) == word[hole][j] {
      WordCancels(data, size, j);
      ColumnHole(Whole(word), hole, j, |word|);
      XorGroup(word[hole][j], 0, 0);
    }
  }
}
