/** Bytes and big-endian integers. */
module Bytes {

  type Byte = x: int | 0 <= x < 0x100
  type U16 = x: int | 0 <= x < 0x1_0000
  type U32 = x: int | 0 <= x < 0x1_0000_0000
  type U64 = x: int | 0 <= x < 0x1_0000_0000_0000_0000

  datatype Option<+T> = None | Some(value: T)

  /** uint16(n) */
  function Low16(n: nat): U16 { n % 0x1_0000 }

  function Put16(x: U16): (b: seq<Byte>)
    ensures |b| == 2
  {
    [x / 0x100, x % 0x100]
  }

  function Put32(x: U32): (b: seq<Byte>)
    ensures |b| == 4
  {
    Put16(x / 0x1_0000) + Put16(x % 0x1_0000)
  }

  function Put64(x: U64): (b: seq<Byte>)
    ensures |b| == 8
  {
    Put32(x / 0x1_0000_0000) + Put32(x % 0x1_0000_0000)
  }

  function Get16(b: seq<Byte>, at: nat): U16
    requires at + 2 <= |b|
  {
    var high: int := b[at];
    high * 0x100 + b[at + 1]
  }

  function Get32(b: seq<Byte>, at: nat): U32
    requires at + 4 <= |b|
  {
    var high: int := Get16(b, at);
    high * 0x1_0000 + Get16(b, at + 2)
  }

  function Get64(b: seq<Byte>, at: nat): U64
    requires at + 8 <= |b|
  {
    var high: int := Get32(b, at);
    high * 0x1_0000_0000 + Get32(b, at + 4)
  }

  /** The bytes of `field` stand in `b` from `at` on. */
  ghost predicate Holds(b: seq<Byte>, at: nat, field: seq<Byte>) {
    at + |field| <= |b| && forall i {:trigger field[i]} :: 0 <= i < |field| ==> b[at + i] == field[i]
  }

  lemma HoldsParts(b: seq<Byte>, at: nat, x: seq<Byte>, y: seq<Byte>)
    requires Holds(b, at, x + y)
    ensures Holds(b, at, x) && Holds(b, at + |x|, y)
  {
    forall i | 0 <= i < |x| ensures b[at + i] == x[i] {
      assert (x + y)[i] == x[i];
    }
    forall i | 0 <= i < |y| ensures b[at + |x| + i] == y[i] {
      assert (x + y)[|x| + i] == y[i];
    }
  }

  lemma HoldsInside(b: seq<Byte>, at: nat, field: seq<Byte>, off: nat, part: seq<Byte>)
    requires Holds(b, at, field) && Holds(field, off, part)
    ensures Holds(b, at + off, part)
  {
    forall i | 0 <= i < |part| ensures b[at + off + i] == part[i] {
      assert field[off + i] == part[i];
    }
  }

  lemma Read16(b: seq<Byte>, at: nat, x: U16)
    requires Holds(b, at, Put16(x))
    ensures Get16(b, at) == x
  {
    var f := Put16(x);
    assert b[at + 0] == f[0] && b[at + 1] == f[1];
  }

  lemma Read32(b: seq<Byte>, at: nat, x: U32)
    requires Holds(b, at, Put32(x))
    ensures Get32(b, at) == x
  {
    HoldsParts(b, at, Put16(x / 0x1_0000), Put16(x % 0x1_0000));
    Read16(b, at, x / 0x1_0000);
    Read16(b, at + 2, x % 0x1_0000);
  }

  lemma Read64(b: seq<Byte>, at: nat, x: U64)
    requires Holds(b, at, Put64(x))
    ensures Get64(b, at) == x
  {
    HoldsParts(b, at, Put32(x / 0x1_0000_0000), Put32(x % 0x1_0000_0000));
    Read32(b, at, x / 0x1_0000_0000);
    Read32(b, at + 4, x % 0x1_0000_0000);
  }

  // ---------------------------------------------------------------------
  // Small facts about finite sets.

  function Range(n: nat): (r: set<nat>)
    ensures forall x: nat :: x in r <==> x < n
    ensures |r| == n
  {
    if n == 0 then {} else Range(n - 1) + {n - 1}
  }

  lemma {:induction false} SubsetSize<T>(a: set<T>, b: set<T>)
    requires a <= b
    ensures |a| <= |b|
    ensures |a| == |b| ==> a == b
  {
    if a != {} {
      var x :| x in a;
      SubsetSize(a - {x}, b - {x});
    }
  }
}
