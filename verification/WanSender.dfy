/** The sending loop of one WAN: its queue and its token bucket together. */
module WanSender {
  import opened SendQueue
  import opened TokenBucket

  /**
   One round of the loop, as the rest of the program has it: what happens to the queue while the loop waits for a
   packet, the wait for tokens during which the context is cancelled, counted from 0, and whether it is cancelled when
   the tokens are granted.
   */
  datatype Round = Round(meanwhile: seq<Meanwhile>, patience: nat, late: bool)

  /** newSendQueue: the bucket holds as many bytes as the queue, so every queued packet fits the burst. */
  method NewSender(maxBytes: int, drop: Drop, rate: real, now: real) returns (q: Queue, l: Limiter)
    ensures fresh(q) && fresh(l) && Paired(q, l) && q.q == [] && !q.closed && q.drop == drop
    ensures l.rate == rate && l.lastRef == now
  {
    q := new Queue(maxBytes, drop);
    l := new Limiter(rate, q.maxBytes, now);
  }

  ghost predicate Paired(q: Queue, l: Limiter)
    reads q, l
  {
    q.Valid() && l.burst == q.maxBytes as real && (l.rate > 0.0 ==> Sane(l.Abs()))
  }

  /**
   The bucket refuses nobody for good: a packet from the queue is granted after one wait at most, unless cancelled.
   */
  ghost predicate Timely(waits: seq<nat>) { forall i :: 0 <= i < |waits| ==> waits[i] <= 1 }

  /** out lists the packets at the last positions that were sent, in order. */
  ghost predicate Written(out: seq<Packet>, accepted: seq<Packet>, sent: seq<nat>, from: nat) {
    && from + |out| <= |sent|
    && (forall i :: from <= i < |sent| ==> sent[i] < |accepted|)
    && forall i :: 0 <= i < |out| ==> out[i] == accepted[sent[from + i]]
  }

  /** What happens while the loop waits brings it no packet: before any offer that fits, the wait ends. */
  ghost predicate Fruitless(meanwhile: seq<Meanwhile>, maxBytes: nat) {
    forall i :: 0 <= i < |meanwhile| && meanwhile[i].Offered? && |meanwhile[i].b| <= maxBytes ==>
                  exists j :: 0 <= j < i && !meanwhile[j].Offered?
  }

  /** A round that neither ends nor is cancelled once it has its packet. */
  predicate Calm(r: Round) { r.patience > 0 && !r.late }

  /**
   run: packets are popped in the order of acceptance, paced, and written. Whatever is written was granted after one
   wait at most. A packet that was popped and not written is one whose wait for tokens was cancelled: there is at most
   one, the last, and none when every round is calm. Otherwise the loop stops only with the queue empty, and closed or
   left without a packet that fits.
   */
  method Run(q: Queue, l: Limiter, rounds: seq<Round>, clock: real -> real, wake: (real, real) -> real)
    returns (out: seq<Packet>, ghost waits: seq<nat>, ghost givenUp: bool)
    requires Paired(q, l) && (forall t :: clock(t) >= t) && (forall t, d :: wake(t, d) >= t + d)
    modifies q, l
    ensures Paired(q, l) && Timely(waits) && |waits| == |out| <= |rounds|
    ensures old(q.sent) <= q.sent && |q.sent| == |old(q.sent)| + |out| + if givenUp then 1 else 0
    ensures Written(out, q.accepted, q.sent, |old(q.sent)|)
    ensures givenUp ==> |out| < |rounds| && !Calm(rounds[|out|])
    ensures !givenUp && |out| < |rounds| ==>
              q.q == [] && (q.closed || Fruitless(rounds[|out|].meanwhile, q.maxBytes))
  {
    out, waits, givenUp := [], [], false;
    for i := 0 to |rounds|
      invariant Paired(q, l) && Timely(waits) && |waits| == |out| == i && !givenUp
      invariant old(q.sent) <= q.sent && |q.sent| == |old(q.sent)| + i
      invariant Written(out, q.accepted, q.sent, |old(q.sent)|)
    {
      ghost var used, took;
      var next;
      next, used := q.PopNext(rounds[i].meanwhile);
      if !next.Got? { return; }
      var ok;
      ok, took := l.TakeTokens(|next.b|, clock(l.lastRef), wake, rounds[i].patience, rounds[i].late);
      if !ok {
        givenUp := true;
        return;
      }
      out, waits := out + [next.b], waits + [took];
    }
  }
}
