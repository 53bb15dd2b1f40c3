/** In-place insertion sort of 32-bit numbers. */
module Sorting {
  import opened Bytes

  ghost predicate SortedUpTo(s: seq<U32>, n: nat)
    requires n <= |s|
  {
    forall x, y :: 0 <= x < y < n ==> s[x] <= s[y]
  }

  /** Ascending on the first n entries, but for the one at hole, which is not above any entry after it. */
  ghost predicate SortedBut(s: seq<U32>, n: nat, hole: nat)
    requires hole < n <= |s|
  {
    && (forall x, y :: 0 <= x < y < n && x != hole && y != hole ==> s[x] <= s[y])
    && (forall y :: hole < y < n ==> s[hole] <= s[y])
  }

  lemma SwappedBut(s: seq<U32>, n: nat, j: nat)
    requires 0 < j < n <= |s| && SortedBut(s, n, j) && s[j] < s[j - 1]
    ensures SortedBut(s[j := s[j - 1]][j - 1 := s[j]], n, j - 1)
  {
    var t := s[j := s[j - 1]][j - 1 := s[j]];
    forall x, y | 0 <= x < y < n && x != j - 1 && y != j - 1 ensures t[x] <= t[y] {
      if y == j {
        assert s[x] <= s[j - 1];
      } else if x == j {
        assert s[j - 1] <= s[y];
      } else {
        assert s[x] <= s[y];
      }
    }
  }

  method Swap(a: array<U32>, j: nat)
    requires 0 < j < a.Length
    modifies a
    ensures a[..] == old(a[..])[j := old(a[j - 1])][j - 1 := old(a[j])]
    ensures multiset(a[..]) == multiset(old(a[..]))
  {
    a[j], a[j - 1] := a[j - 1], a[j];
  }

  /** Insertion sort. */
  method SortUint32(a: array<U32>)
    modifies a
    ensures SortedUpTo(a[..], a.Length)
    ensures multiset(a[..]) == multiset(old(a[..]))
  {
    if a.Length == 0 { return; }
    var i := 1;
    while i < a.Length
      invariant 1 <= i <= a.Length
      invariant SortedUpTo(a[..], i)
      invariant multiset(a[..]) == multiset(old(a[..]))
    {
      Insert(a, i);
      i := i + 1;
    }
  }

  method Insert(a: array<U32>, i: nat)
    requires i < a.Length && SortedUpTo(a[..], i)
    modifies a
    ensures SortedUpTo(a[..], i + 1)
    ensures multiset(a[..]) == multiset(old(a[..]))
  {
    var j: nat := i;
    while j > 0 && a[j] < a[j - 1]
      invariant j <= i
      invariant SortedBut(a[..], i + 1, j)
      invariant multiset(a[..]) == multiset(old(a[..]))
    {
      SwappedBut(a[..], i + 1, j);
      Swap(a, j);
      j := j - 1;
    }
    Inserted(a[..], i + 1, j);
  }

  lemma Inserted(s: seq<U32>, n: nat, j: nat)
    requires j < n <= |s| && SortedBut(s, n, j) && (j > 0 ==> s[j] >= s[j - 1])
    ensures SortedUpTo(s, n)
  {
    forall x, y | 0 <= x < y < n ensures s[x] <= s[y] {
      if y == j && x < j - 1 { assert s[x] <= s[j - 1]; }
    }
  }
}
