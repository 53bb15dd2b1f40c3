/** Filling byte buffers in place. */
module Buffers {
  import opened Bytes

  /** b with the field put over it at the given place. */
  function Written(b: seq<Byte>, at: nat, field: seq<Byte>): (c: seq<Byte>)
    requires at + |field| <= |b|
    ensures |c| == |b|
  {
    b[..at] + field + b[at + |field|..]
  }

  /** A field stands where it was written, and what stands elsewhere is left alone. */
  lemma WrittenHolds(b: seq<Byte>, at: nat, field: seq<Byte>)
    requires at + |field| <= |b|
    ensures Holds(Written(b, at, field), at, field)
  {}

  lemma WrittenKeeps(b: seq<Byte>, at: nat, field: seq<Byte>, other: nat, kept: seq<Byte>)
    requires at + |field| <= |b| && Holds(b, other, kept)
    requires other + |kept| <= at || at + |field| <= other
    ensures Holds(Written(b, at, field), other, kept)
  {}

  method Write(a: array<Byte>, at: nat, field: seq<Byte>)
    requires at + |field| <= a.Length
    modifies a
    ensures a[..] == Written(old(a[..]), at, field)
  {
    for i := 0 to |field|
      invariant forall j :: 0 <= j < a.Length ==> a[j] == if at <= j < at + i then field[j - at] else old(a[j])
    {
      a[at + i] := field[i];
    }
  }

  function Zeros(n: nat): (z: seq<Byte>)
    ensures |z| == n
  {
    seq(n, _ => 0)
  }

  /** The buffer begins with the prefix and is still zero after it. */
  ghost predicate Begun(b: seq<Byte>, prefix: seq<Byte>) {
    |prefix| <= |b| && b == prefix + Zeros(|b| - |prefix|)
  }

  /** Bytes left out stay zero. */
  lemma Skipped(b: seq<Byte>, prefix: seq<Byte>, n: nat)
    requires Begun(b, prefix) && |prefix| + n <= |b|
    ensures Begun(b, prefix + Zeros(n))
  {}

  /** Writes the next field of a buffer that is filled from front to back. */
  method Append(a: array<Byte>, at: nat, field: seq<Byte>, ghost prefix: seq<Byte>) returns (ghost longer: seq<Byte>)
    requires at == |prefix| && at + |field| <= a.Length && Begun(a[..], prefix)
    modifies a
    ensures longer == prefix + field && Begun(a[..], longer)
  {
    longer := prefix + field;
    Write(a, at, field);
  }
}
