/** Remainders of sums and products. */
module Modular {

  lemma ModTimes(a: nat, b: nat, m: nat)
    requires m > 0
    ensures (a % m) * b % m == a * b % m
  {
    var q := a / m;
    assert a == q * m + a % m;
    assert a * b == (q * b) * m + (a % m) * b;
    ModAdd((a % m) * b, q * b, m);
  }

  lemma ModAdd(x: nat, q: nat, m: nat)
    requires m > 0
    ensures (q * m + x) % m == x % m
  {
    var r := (q * m + x) / m;
    var t := x / m;
    assert q * m + x == r * m + (q * m + x) % m;
    assert x == t * m + x % m;
    assert (r - q - t) * m == x % m - (q * m + x) % m;
    Squeezed(r - q - t, m, x % m - (q * m + x) % m);
  }

  lemma Squeezed(k: int, m: int, d: int)
    requires m > 0 && k * m == d && -m < d < m
    ensures d == 0
  {
    Multiple(k, m);
  }

  lemma Multiple(k: int, m: int)
    requires m > 0
    ensures k > 0 ==> k * m >= m
    ensures k < 0 ==> k * m <= -m
  {}

  lemma Small(x: nat, m: nat)
    requires x < m
    ensures x % m == x
  {}

  lemma Euclid(n: nat, m: nat)
    requires m > 0
    ensures n == (n / m) * m + n % m && n % m < m
  {}

  lemma OneMoreTimes(q: nat, m: nat)
    ensures (q + 1) * m == q * m + m
  {}

  /** The remainder counts up and starts over. */
  lemma NextInRound(n: nat, m: nat)
    requires m > 0
    ensures (n + 1) % m == if n % m + 1 == m then 0 else n % m + 1
  {
    var q, r := n / m, n % m;
    Euclid(n, m);
    OneMoreTimes(q, m);
    if r + 1 == m {
      ModAdd(0, q + 1, m);
      Small(0, m);
    } else {
      ModAdd(r + 1, q, m);
      Small(r + 1, m);
    }
  }
}
