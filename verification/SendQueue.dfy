/** The bounded send queue of one WAN and its token bucket. */
module SendQueue {
  import opened Bytes

  type Packet = seq<Byte>

  datatype Drop = DropOldest | DropNewest

  const DEFAULT_MAX_BYTES := 262144

  /** Bytes of the packets from index n on. */
  function SizeFrom(q: seq<Packet>, n: nat): (s: nat)
    requires n <= |q|
    decreases |q| - n
  {
    if n == |q| then 0 else |q[n]| + SizeFrom(q, n + 1)
  }

  function Size(q: seq<Packet>): nat { SizeFrom(q, 0) }

  lemma {:induction false} SizeSuffix(q: seq<Packet>, n: nat, k: nat)
    requires n + k <= |q|
    ensures SizeFrom(q[n..], k) == SizeFrom(q, n + k)
    decreases |q| - n - k
  {
    if n + k < |q| { SizeSuffix(q, n, k + 1); }
  }

  lemma {:induction false} SizeSnoc(q: seq<Packet>, b: Packet, n: nat)
    requires n <= |q|
    ensures SizeFrom(q + [b], n) == SizeFrom(q, n) + |b|
    decreases |q| - n
  {
    if n < |q| { SizeSnoc(q, b, n + 1); }
  }

  /** What is left after dropping the oldest: the longest run of newest packets that fits. */
  ghost predicate LongestFit(all: seq<Packet>, max: nat, kept: seq<Packet>) {
    exists n :: 0 <= n <= |all| && kept == all[n..] && SizeFrom(all, n) <= max && (n > 0 ==> SizeFrom(all, n - 1) > max)
  }

  /** The fit is longest among all that fit: no longer run of newest packets would. */
  lemma LongestIsLongest(all: seq<Packet>, max: nat, kept: seq<Packet>, m: nat)
    requires LongestFit(all, max, kept) && m <= |all| && SizeFrom(all, m) <= max
    ensures |all[m..]| <= |kept|
  {
    var n :| 0 <= n <= |all| && kept == all[n..] && SizeFrom(all, n) <= max && (n > 0 ==> SizeFrom(all, n - 1) > max);
    if m < n { SizeShrinks(all, m, n - 1); }
  }

  lemma {:induction false} SizeShrinks(q: seq<Packet>, m: nat, n: nat)
    requires m <= n <= |q|
    ensures SizeFrom(q, m) >= SizeFrom(q, n)
    decreases n - m
  {
    if m < n { SizeShrinks(q, m + 1, n); }
  }

  /** Positions of the accepted packets that were sent: rising, and before what still waits. */
  ghost predicate InOrder(sent: seq<nat>, upTo: nat) {
    && (forall i, j :: 0 <= i < j < |sent| ==> sent[i] < sent[j])
    && (forall i :: 0 <= i < |sent| ==> sent[i] < upTo)
  }

  /** What happens to the queue while a consumer waits. */
  datatype Meanwhile = Offered(b: Packet) | Closed | Cancelled

  datatype Next = Got(b: Packet) | Ended | Blocked

  class Queue {
    const maxBytes: nat
    const drop: Drop
    var closed: bool
    var q: seq<Packet>
    var bytes: nat
    var framesSent: nat
    var bytesSent: nat
    var dropped: nat

    /** Everything ever accepted; the first `gone` of it has left the queue, and `sent` lists what was popped. */
    ghost var accepted: seq<Packet>
    ghost var gone: nat
    ghost var sent: seq<nat>
    /** Packets offered while the queue was open. */
    ghost var offers: nat

    ghost predicate Valid()
      reads this
    {
      && bytes == Size(q) <= maxBytes
      && gone <= |accepted| && q == accepted[gone..]
      && InOrder(sent, gone) && |sent| == framesSent
      && offers == framesSent + |q| + dropped
    }

    constructor (maxBytes: int, drop: Drop)
      ensures Valid() && q == [] && !closed && this.drop == drop && offers == 0
      ensures this.maxBytes == if maxBytes <= 0 then DEFAULT_MAX_BYTES else maxBytes
    {
      this.maxBytes := if maxBytes <= 0 then DEFAULT_MAX_BYTES else maxBytes;
      this.drop := drop;
      closed, q, bytes, framesSent, bytesSent, dropped := false, [], 0, 0, 0, 0;
      accepted, gone, sent, offers := [], 0, [], 0;
    }

    method Enqueue(b: Packet) returns (ok: bool)
      requires Valid()
      modifies this
      ensures Valid() && closed == old(closed) && framesSent == old(framesSent) && sent == old(sent)
      ensures bytesSent == old(bytesSent) && dropped >= old(dropped)
      ensures ok <==> !closed && |b| <= maxBytes && (old(bytes) + |b| <= maxBytes || drop == DropOldest)
      ensures ok ==> accepted == old(accepted) + [b] && LongestFit(old(q) + [b], maxBytes, q)
      ensures !ok ==> accepted == old(accepted) && q == old(q)
      ensures offers == old(offers) + if closed then 0 else 1
    {
      if closed { return false; }
      offers := offers + 1;
      if |b| > maxBytes {
        dropped := dropped + 1;
        return false;
      }
      if bytes + |b| > maxBytes {
        if drop == DropNewest {
          dropped := dropped + 1;
          return false;
        }
        EvictFor(b);
      } else {
        FitsWhole(q, b, maxBytes);
      }
      Append(b);
      return true;
    }

    method Append(b: Packet)
      requires bytes == Size(q) && gone <= |accepted| && q == accepted[gone..]
      modifies this`q, this`bytes, this`accepted
      ensures bytes == Size(q) == old(bytes) + |b| && q == old(q) + [b] && accepted == old(accepted) + [b]
      ensures gone <= |accepted| && q == accepted[gone..]
    {
      SizeSnoc(q, b, 0);
      q := q + [b];
      bytes := bytes + |b|;
      accepted := accepted + [b];
    }

    /** Evicts the oldest until the new packet fits. */
    method EvictFor(b: Packet)
      requires |b| <= maxBytes && bytes + |b| > maxBytes && bytes == Size(q) <= maxBytes
      requires gone <= |accepted| && q == accepted[gone..] && InOrder(sent, gone)
      modifies this`q, this`bytes, this`dropped, this`gone
      ensures bytes == Size(q) && bytes + |b| <= maxBytes
      ensures gone <= |accepted| && q == accepted[gone..] && InOrder(sent, gone)
      ensures LongestFit(old(q) + [b], maxBytes, q + [b])
      ensures dropped + |q| == old(dropped) + old(|q|)
    {
      ghost var n: nat := 0;
      ghost var all := q + [b];
      SizeSnoc(q, b, 0);
      while bytes + |b| > maxBytes
        invariant n < |all| && q + [b] == all[n..] && bytes + |b| == SizeFrom(all, n) && bytes == Size(q)
        invariant n > 0 ==> SizeFrom(all, n - 1) > maxBytes
        invariant gone <= |accepted| && q == accepted[gone..] && InOrder(sent, gone)
        invariant dropped + |q| == old(dropped) + old(|q|)
        decreases |q|
      {
        if |q| == 0 {
          assert false;  // the packet alone fits
        }
        var head := q[0];
        assert all[n] == head;
        SizeSuffix(q, 1, 0);
        q := q[1..];
        bytes := bytes - |head|;
        dropped := dropped + 1;
        n, gone := n + 1, gone + 1;
      }
    }

    /**
     The next packet, waited for. meanwhile lists what other goroutines do while the lock is released, one entry per
     wait, and used counts the waits. A packet already queued leaves at once; otherwise the first one accepted does;
     closing the queue or cancelling the wait ends it, and without any of these it is still blocked.
     */
    method PopNext(meanwhile: seq<Meanwhile>) returns (r: Next, ghost used: nat)
      requires Valid()
      modifies this
      ensures Valid() && dropped >= old(dropped) && used <= |meanwhile| && old(accepted) <= accepted
      ensures (old(closed) ==> closed)
      ensures r.Got? ==> |r.b| <= maxBytes
      ensures old(q) != [] ==> r == Got(old(q)[0]) && used == 0 && q == old(q)[1..]
      ensures old(q) == [] ==> q == []
      ensures forall i :: 0 <= i < used - 1 ==> meanwhile[i].Offered? && |meanwhile[i].b| > maxBytes
      ensures match r
              case Got(b) =>
                && gone > 0 && accepted[gone - 1] == b && sent == old(sent) + [gone - 1]
                && bytesSent == old(bytesSent) + |b|
                && (used > 0 ==> meanwhile[used - 1] == Offered(b) && |b| <= maxBytes)
              case Ended =>
                old(q) == [] && sent == old(sent) && if used == 0 then old(closed) else !meanwhile[used - 1].Offered?
              case Blocked =>
                && old(q) == [] && sent == old(sent) && !closed && used == |meanwhile|
                && (used > 0 ==> meanwhile[used - 1].Offered? && |meanwhile[used - 1].b| > maxBytes)
    {
      used := 0;
      if |q| > 0 {
        var b := PopHead();
        return Got(b), used;
      }
      if closed { return Ended, used; }
      r, used := Await(meanwhile);
    }

    /** Waiting on an empty, open queue. */
    method Await(meanwhile: seq<Meanwhile>) returns (r: Next, ghost used: nat)
      requires Valid() && q == [] && !closed
      modifies this
      ensures Valid() && q == [] && dropped >= old(dropped) && used <= |meanwhile|
      ensures forall i :: 0 <= i < used - 1 ==> meanwhile[i].Offered? && |meanwhile[i].b| > maxBytes
      ensures match r
              case Got(b) =>
                && accepted == old(accepted) + [b] && gone == |accepted| && sent == old(sent) + [gone - 1]
                && bytesSent == old(bytesSent) + |b| && used > 0 && meanwhile[used - 1] == Offered(b) && |b| <= maxBytes
              case Ended =>
                accepted == old(accepted) && sent == old(sent) && used > 0 && !meanwhile[used - 1].Offered?
              case Blocked =>
                && accepted == old(accepted) && sent == old(sent) && !closed && used == |meanwhile|
                && (used > 0 ==> meanwhile[used - 1].Offered? && |meanwhile[used - 1].b| > maxBytes)
    {
      hide Valid;
      used := 0;
      for i := 0 to |meanwhile|
        invariant Valid() && q == [] && !closed && used == i && dropped >= old(dropped)
        invariant accepted == old(accepted) && sent == old(sent) && bytesSent == old(bytesSent)
        invariant forall j :: 0 <= j < i ==> meanwhile[j].Offered? && |meanwhile[j].b| > maxBytes
      {
        used := i + 1;
        match meanwhile[i]
        case Cancelled => return Ended, used;
        case Closed =>
          Close();
          return Ended, used;
        case Offered(b) =>
          var ok := HandOver(b);
          if ok { return Got(b), used; }
      }
      return Blocked, used;
    }

    /** A packet offered to an empty, open queue: refused when it is too large, and popped again at once otherwise. */
    method HandOver(b: Packet) returns (ok: bool)
      requires Valid() && q == [] && !closed
      modifies this
      ensures Valid() && q == [] && !closed && dropped >= old(dropped) && ok == (|b| <= maxBytes)
      ensures ok ==> accepted == old(accepted) + [b] && gone == |accepted| && sent == old(sent) + [gone - 1]
      ensures ok ==> bytesSent == old(bytesSent) + |b|
      ensures !ok ==> accepted == old(accepted) && sent == old(sent) && bytesSent == old(bytesSent)
    {
      hide LongestFit;
      hide InOrder;
      ok := Enqueue(b);
      if ok {
        OneFits(b, maxBytes, q);
        var head := PopHead();
      }
    }

    method PopHead() returns (b: Packet)
      requires Valid() && |q| > 0
      modifies `q, `bytes, `framesSent, `bytesSent, `sent, `gone
      ensures Valid() && [b] + q == old(q) && |b| <= maxBytes
      ensures gone == old(gone) + 1 && sent == old(sent) + [old(gone)] && accepted[old(gone)] == b
      ensures framesSent == old(framesSent) + 1 && bytesSent == old(bytesSent) + |b|
    {
      b := q[0];
      SizeSuffix(q, 1, 0);
      q := q[1..];
      bytes := bytes - |b|;
      framesSent := framesSent + 1;
      bytesSent := bytesSent + |b|;
      sent, gone := sent + [gone], gone + 1;
    }

    method Close()
      requires Valid()
      modifies this`closed
      ensures Valid() && closed
    {
      closed := true;
    }
  }

  lemma OneFits(b: Packet, max: nat, kept: seq<Packet>)
    requires |b| <= max && LongestFit([] + [b], max, kept)
    ensures kept == [b]
  {
    SizeSnoc([], b, 0);
    assert SizeFrom([] + [b], 0) == |b|;
  }

  lemma FitsWhole(q: seq<Packet>, b: Packet, max: nat)
    requires Size(q) + |b| <= max
    ensures LongestFit(q + [b], max, q + [b])
  {
    SizeSnoc(q, b, 0);
    assert q + [b] == (q + [b])[0..];
  }
}
