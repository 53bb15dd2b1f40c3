/** The Internet checksum (sections 1 and 2 of RFC 1071): one's-complement sum of 16-bit words. */
module Checksum {
  import opened Bytes
  import opened Buffers

  function High(x: Byte): nat {
    var h: int := x;
    h * 0x100
  }

  /** Word k of a buffer; the last byte of an odd buffer is padded with zero. */
  function WordAt(b: seq<Byte>, k: nat): (w: nat)
    requires 2 * k < |b|
    ensures w < 0x1_0000
  {
    High(b[2 * k]) + if 2 * k + 1 < |b| then b[2 * k + 1] else 0
  }

  function SumTo(b: seq<Byte>, n: nat): nat
    requires 2 * n <= |b| + 1
  {
    if n == 0 then 0 else SumTo(b, n - 1) + WordAt(b, n - 1)
  }

  function Words(b: seq<Byte>): (n: nat)
    ensures |b| <= 2 * n <= |b| + 1
  {
    (|b| + 1) / 2
  }

  function Sum(b: seq<Byte>): nat { SumTo(b, Words(b)) }

  lemma {:induction false} SumBound(b: seq<Byte>, n: nat)
    requires 2 * n <= |b| + 1
    ensures SumTo(b, n) <= 0xFFFF * n
  {
    if n > 0 { SumBound(b, n - 1); }
  }

  lemma FourWords(b: seq<Byte>, w: nat, x: nat, y: nat, z: nat)
    requires |b| == 8 && WordAt(b, 0) == w && WordAt(b, 1) == x && WordAt(b, 2) == y && WordAt(b, 3) == z
    ensures Sum(b) == w + x + y + z
  {
    hide WordAt;
    assert SumTo(b, 1) == SumTo(b, 0) + WordAt(b, 0);
    assert SumTo(b, 2) == SumTo(b, 1) + WordAt(b, 1);
    assert SumTo(b, 3) == SumTo(b, 2) + WordAt(b, 2);
  }

  /** The example of section 3 of RFC 1071: the bytes are read as words, the first of each the high one. */
  lemma PublishedExample(b: seq<Byte>)
    requires b == [0x00, 0x01, 0xf2, 0x03, 0xf4, 0xf5, 0xf6, 0xf7]
    ensures Sum(b) == 0x2ddf0 && Of(Sum(b)) == 0x220d
  {
    hide Sum;
    FourWords(b, 0x0001, 0xf203, 0xf4f5, 0xf6f7);
    ExampleFolds();
  }

  lemma ExampleFolds()
    ensures Of(0x2ddf0) == 0x220d
  {
    FoldOnce(0x2ddf0, 0xddf2);
    FoldOnce(0xddf2, 0xddf2);
    hide Fold;
  }

  lemma FoldOnce(s: nat, r: nat)
    requires if s < 0x1_0000 then r == s else r == s % 0x1_0000 + s / 0x1_0000
    ensures if s < 0x1_0000 then Fold(s) == s else Fold(s) == Fold(r)
  {
  }

  /** Carries are folded back in until 16 bits are left. */
  function Fold(s: nat): (r: nat)
    ensures r < 0x1_0000
  {
    if s < 0x1_0000 then s else Fold(s % 0x1_0000 + s / 0x1_0000)
  }

  /** Folding keeps the value modulo 2^16 - 1 and is zero only for zero: a positive s is q*(2^16 - 1) + r + 1. */
  lemma {:induction false} FoldOf(q: nat, r: nat)
    requires r < 0xFFFF
    ensures Fold(q * 0xFFFF + r + 1) == r + 1
    decreases q
  {
    var s := q * 0xFFFF + r + 1;
    if q > 0 {
      var high, low := s / 0x1_0000, s % 0x1_0000;
      assert s == high * 0x1_0000 + low;
      assert low + high == (q - high) * 0xFFFF + r + 1;
      Lowered(q, high, low, r);
      FoldOf(q - high, r);
    }
  }

  lemma Lowered(q: nat, high: nat, low: nat, r: nat)
    requires r < 0xFFFF && high > 0 && low + high == (q - high) * 0xFFFF + r + 1
    ensures high <= q
  {}

  /** The checksum of a 32-bit sum. */
  function Of(s: nat): (c: U16) { 0xFFFF - Fold(s % 0x1_0000_0000) }

  lemma OfPositive(q: nat, r: nat, s: nat)
    requires r < 0xFFFF && s == q * 0xFFFF + r + 1 < 0x1_0000_0000
    ensures Of(s) == 0xFFFE - r
  {
    FoldOf(q, r);
  }

  lemma Split(s: nat) returns (q: nat, r: nat)
    requires s > 0
    ensures r < 0xFFFF && s == q * 0xFFFF + r + 1
  {
    q, r := (s - 1) / 0xFFFF, (s - 1) % 0xFFFF;
  }

  /** A sum that includes its own checksum verifies: the checksum of the whole is zero. */
  lemma Verifies(s: nat)
    requires s < 0xFFFF_0000
    ensures Of(s + Of(s)) == 0
  {
    if s > 0 {
      var q, r := Split(s);
      OfPositive(q, r, s);
      OfPositive(q, 0xFFFE, s + (0xFFFE - r));
    }
  }

  /** With the inverted checksum in its place the whole verifies exactly when the checksum was zero. */
  lemma InvertedVerifiesIff(s: nat)
    requires s < 0xFFFF_0000
    ensures Of(s + (0xFFFF - Of(s))) == 0 <==> Of(s) == 0
  {
    if s > 0 {
      var q, r := Split(s);
      OfPositive(q, r, s);
      if 2 * r + 1 < 0xFFFF {
        OfPositive(q, 2 * r + 1, s + (r + 1));
      } else {
        OfPositive(q + 1, 2 * r + 1 - 0xFFFF, s + (r + 1));
      }
    }
  }

  // ---------------------------------------------------------------------
  // The checksum field of a buffer.

  lemma {:induction false} SumWritten(b: seq<Byte>, at: nat, c: U16, n: nat)
    requires at % 2 == 0 && at + 2 <= |b| && b[at] == 0 && b[at + 1] == 0 && 2 * n <= |b| + 1
    ensures SumTo(Written(b, at, Put16(c)), n) == SumTo(b, n) + if at / 2 < n then c else 0
  {
    if n > 0 {
      SumWritten(b, at, c, n - 1);
      WordWritten(b, at, c, n - 1);
    }
  }

  lemma WordWritten(b: seq<Byte>, at: nat, c: U16, k: nat)
    requires at % 2 == 0 && at + 2 <= |b| && b[at] == 0 && b[at + 1] == 0 && 2 * k < |b|
    ensures WordAt(Written(b, at, Put16(c)), k) == WordAt(b, k) + if 2 * k == at then c else 0
  {
    var d, f := Written(b, at, Put16(c)), Put16(c);
    assert d[at] == f[0] && d[at + 1] == f[1];
    assert 2 * k != at ==> d[2 * k] == b[2 * k] && (2 * k + 1 < |b| ==> d[2 * k + 1] == b[2 * k + 1]);
  }

  /** The sum as the loops compute it: 32 bits wide, word by word, then the odd byte. */
  method AddWords(start: U32, b: seq<Byte>) returns (sum: U32)
    ensures sum == (start + Sum(b)) % 0x1_0000_0000
  {
    sum := start;
    var k := 0;
    while 2 * k + 1 < |b|
      invariant 2 * k <= |b| && sum == (start + SumTo(b, k)) % 0x1_0000_0000
    {
      Wrapped(start + SumTo(b, k), WordAt(b, k));
      sum := (sum + (High(b[2 * k]) + b[2 * k + 1])) % 0x1_0000_0000;
      k := k + 1;
    }
    if |b| % 2 == 1 {
      Wrapped(start + SumTo(b, k), WordAt(b, k));
      sum := (sum + High(b[|b| - 1])) % 0x1_0000_0000;
    }
  }

  lemma Wrapped(a: nat, w: nat)
    ensures (a % 0x1_0000_0000 + w) % 0x1_0000_0000 == (a + w) % 0x1_0000_0000
  {}

  lemma OfWrapped(s: nat)
    ensures Of(s % 0x1_0000_0000) == Of(s)
  {}

  method FoldCarries(s: U32) returns (c: U16)
    ensures c == Of(s)
  {
    hide Fold;
    var sum: nat := s;
    while sum / 0x1_0000 != 0
      invariant Fold(sum) == Fold(s)
      decreases sum
    {
      FoldOnce(sum, sum % 0x1_0000 + sum / 0x1_0000);
      sum := sum % 0x1_0000 + sum / 0x1_0000;
    }
    FoldOnce(sum, sum);
    c := 0xFFFF - sum;
  }

  /** ipChecksum and icmpChecksum. */
  method OfBuffer(b: seq<Byte>) returns (c: U16)
    ensures c == Of(Sum(b))
  {
    var sum := AddWords(0, b);
    OfWrapped(Sum(b));
    c := FoldCarries(sum);
  }
}
