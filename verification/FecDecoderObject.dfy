/** The decoder object: its maps updated in place, proved against the decoder's step functions. */
module FecDecoderObject {
  import opened Bytes
  import opened Erasure
  import opened Frames
  import opened FecBlock
  import opened FecSizing
  import opened FecDecoder
  import FecAssembly
  import FecDecoderRuns
  import PathLedger
  import opened Sorting

  // ---------------------------------------------------------------------
  // Sorting a block's numbers.

  /** The numbers held, ascending. */
  method SortedKeys(data: map<U32, seq<Byte>>) returns (seqs: seq<U32>)
    ensures Lists(seqs, data.Keys)
  {
    var all := [];
    var todo := data.Keys;
    while todo != {}
      invariant todo <= data.Keys
      invariant forall x :: x in all <==> x in data.Keys - todo
      invariant forall i, j :: 0 <= i < j < |all| ==> all[i] != all[j]
      decreases |todo|
    {
      var x :| x in todo;
      all := all + [x];
      todo := todo - {x};
    }
    var a := new U32[|all|](i requires 0 <= i < |all| => all[i]);
    assert a[..] == all;
    SortUint32(a);
    seqs := a[..];
    SortedLists(all, seqs);
    assert forall x :: x in seqs <==> x in multiset(seqs);
    assert forall x :: x in all <==> x in multiset(all);
  }

  lemma SortedLists(all: seq<U32>, s: seq<U32>)
    requires forall i, j :: 0 <= i < j < |all| ==> all[i] != all[j]
    requires multiset(s) == multiset(all) && SortedUpTo(s, |s|)
    ensures Ascending(s)
  {
    assert all[..|all|] == all;
    forall i, j | 0 <= i < j < |s| ensures s[i] < s[j] {
      if s[i] == s[j] {
        Twice(s, i, j);
        Once(all, |all|, s[i]);
      }
    }
  }

  lemma Twice(s: seq<U32>, i: nat, j: nat)
    requires i < j < |s| && s[i] == s[j]
    ensures multiset(s)[s[i]] >= 2
  {
    assert s == s[..j] + s[j..];
    assert s[i] in s[..j];
    assert s[j] == s[j..][0];
    assert s[j] in s[j..];
  }

  lemma {:induction false} Once(all: seq<U32>, n: nat, x: U32)
    requires n <= |all| && forall i, j :: 0 <= i < j < |all| ==> all[i] != all[j]
    ensures multiset(all[..n])[x] <= 1
  {
    if n > 0 {
      Once(all, n - 1, x);
      assert all[..n] == all[..n - 1] + [all[n - 1]];
      if all[n - 1] == x {
        var init := all[..n - 1];
        forall i | 0 <= i < |init| ensures init[i] != x {
          assert init[i] == all[i];
        }
        assert x !in init;
      }
    }
  }

  // ---------------------------------------------------------------------
  // The object.

  class Decoder {
    const lib: Library
    const params: Params
    var blocks: map<BlockKey, Held>
    var rsByParity: map<nat, Code>
    var lastFlushed: map<StreamKey, U32>
    var stats: map<StreamKey, LossStat>
    var recovered: nat
    var pathSeq: map<StreamKey, PathLedger.Stat>

    ghost function Abs(): Dec
      reads this
    {
      Dec(params, blocks, rsByParity, lastFlushed, stats, recovered, pathSeq)
    }

    ghost predicate Valid()
      reads this
    {
      Sound(Abs())
    }

    constructor (lib: Library, p: Params)
      ensures this.lib == lib && Abs() == FecDecoder.Fresh(p) && Valid()
    {
      this.lib := lib;
      params := Normalized(p);
      blocks, rsByParity, lastFlushed, stats, recovered, pathSeq := map[], map[], map[], map[], 0, map[];
    }

    method ObservePathSeq(session: U64, path: string, c: U32, now: int)
      modifies `pathSeq
      ensures var s := StreamKey(session, path);
              Abs() == old(Abs()).(pathSeq := old(pathSeq)[s := PathLedger.Observe(RawOf(old(Abs()), s), c, now)])
    {
      var s := StreamKey(session, path);
      var ps := if s in pathSeq then pathSeq[s] else PathLedger.EMPTY;
      if ps.next == 0 {
        ps := ps.(next := c + 1, received := ps.received + 1);
      } else if c == ps.next {
        ps := PathLedger.DrainPending(ps.(received := ps.received + 1, next := c + 1));
        if ps.pending == {} { ps := ps.(gapSince := None); }
      } else if c > ps.next {
        ps := ps.(pending := ps.pending + {c}, gapSince := if ps.gapSince.None? then Some(now) else ps.gapSince);
      }
      pathSeq := pathSeq[s := ps];
    }

    method FlushPathGaps(now: int)
      modifies `pathSeq
      ensures Abs() == old(Abs()).(pathSeq := map s | s in old(pathSeq) :: PathLedger.FlushGap(old(pathSeq)[s], now))
    {
      var todo := pathSeq.Keys;
      while todo != {}
        invariant todo <= pathSeq.Keys == old(pathSeq).Keys
        invariant forall s :: s in pathSeq ==>
                    pathSeq[s] == if s in todo then old(pathSeq)[s] else PathLedger.FlushGap(old(pathSeq)[s], now)
        decreases |todo|
      {
        var s :| s in todo;
        var ps := PathLedger.FlushStream(pathSeq[s], now);
        pathSeq := pathSeq[s := ps];
        todo := todo - {s};
      }
      assert pathSeq == map s | s in old(pathSeq) :: PathLedger.FlushGap(old(pathSeq)[s], now);
    }

    method TakePathStats(session: U64, path: string) returns (lost: nat, received: nat)
      modifies `pathSeq
      ensures var s := StreamKey(session, path);
              var (left, taken) := PathLedger.Take(RawOf(old(Abs()), s));
              (lost, received) == taken && pathSeq == old(pathSeq)[s := left]
    {
      var s := StreamKey(session, path);
      var ps := if s in pathSeq then pathSeq[s] else PathLedger.EMPTY;
      lost, received := ps.lost, ps.received;
      pathSeq := pathSeq[s := ps.(lost := 0, received := 0)];
    }

    method TakeStreamStats(session: U64, path: string) returns (lost: nat, received: nat)
      modifies `stats
      ensures var s := StreamKey(session, path);
              LossStat(lost, received) == StatOf(old(Abs()), s) && stats == old(stats)[s := LossStat(0, 0)]
    {
      var s := StreamKey(session, path);
      var stat := if s in stats then stats[s] else LossStat(0, 0);
      stats := stats[s := LossStat(0, 0)];
      return stat.lost, stat.received;
    }

    method RsFor(k: nat, p: nat) returns (rs: Option<Code>)
      modifies `rsByParity
      ensures (rs, rsByParity) == CodeFor(lib, old(rsByParity), k, p)
    {
      if p in rsByParity { return Some(rsByParity[p]); }
      rs := New(lib, k, p);
      if rs.Some? { rsByParity := rsByParity[p := rs.value]; }
    }

    method Flush(key: BlockKey) returns (out: seq<Frame>)
      requires key in blocks
      modifies `blocks, `lastFlushed, `stats
      ensures var o := FecDecoder.Flush(old(Abs()), key); Abs() == o.dec && out == o.out
    {
      hide FlushOut;
      hide FlushLost;
      hide StatOf;
      hide Last;
      var st := blocks[key];
      Book(key, st);
      out := HandOver(key, st);
      blocks := blocks - {key};
    }

    /** The frames a buffer holds, in header order, or by number when no header was seen. */
    static method HandOver(key: BlockKey, st: Held) returns (out: seq<Frame>)
      ensures out == FlushOut(key, st)
    {
      hide Listed;
      hide Lists;
      var seqs := st.seqs;
      if |seqs| == 0 {
        seqs := SortedKeys(st.data);
        FecAssembly.ListsUnique(seqs, Sorted(st.data.Keys), st.data.Keys);
      }
      out := EmitListed(key.session, seqs, st.data);
    }

    /** The stream's flush mark and loss count. */
    method Book(key: BlockKey, st: Held)
      modifies `lastFlushed, `stats
      ensures var d, s := old(Abs()), StreamOf(key);
              && lastFlushed == (if key.id > Last(d, s) then d.lastFlushed[s := key.id] else d.lastFlushed)
              && stats == (if FlushLost(st) > 0
                           then d.stats[s := StatOf(d, s).(lost := StatOf(d, s).lost + FlushLost(st))] else d.stats)
    {
      var s := StreamOf(key);
      if key.id > (if s in lastFlushed then lastFlushed[s] else 0) {
        lastFlushed := lastFlushed[s := key.id];
      }
      if |st.seqs| > 0 && |st.data| < |st.seqs| {
        var stat := if s in stats then stats[s] else LossStat(0, 0);
        stats := stats[s := stat.(lost := stat.lost + |st.seqs| - |st.data|)];
      }
    }

    /** The frames held of a list of numbers, in its order. */
    static method EmitListed(session: U64, seqs: seq<U32>, data: map<U32, seq<Byte>>) returns (out: seq<Frame>)
      ensures out == Listed(session, seqs, data, |seqs|)
    {
      out := [];
      for i := 0 to |seqs|
        invariant out == Listed(session, seqs, data, i)
      {
        if seqs[i] in data {
          out := out + [Frame(0, 0, session, seqs[i], 0, data[seqs[i]])];
        }
      }
    }

    /** The data shards held of a block; the parity places are still empty. */
    static method DataList(st: Held) returns (have: seq<Option<Shard>>)
      requires WellFormed(st)
      ensures |have| == st.k + st.p
      ensures forall j :: 0 <= j < st.k ==> have[j] == HeldShards(st)[j]
      ensures forall j :: st.k <= j < |have| ==> have[j] == None
    {
      have := seq(st.k + st.p, _ => None);
      for i := 0 to |st.seqs|
        invariant |have| == st.k + st.p
        invariant forall j :: 0 <= j < i ==> have[j] == HeldShards(st)[j]
        invariant forall j :: i <= j < |have| ==> have[j] == None
      {
        if st.seqs[i] in st.data { have := have[i := Some(Copied(st.data[st.seqs[i]], st.maxLen))]; }
      }
    }

    /** The shards held of a block, with holes. */
    static method ShardList(st: Held) returns (have: seq<Option<Shard>>)
      requires WellFormed(st)
      ensures have == HeldShards(st)
    {
      have := DataList(st);
      var todo := st.parity.Keys;
      while todo != {}
        invariant todo <= st.parity.Keys && |have| == st.k + st.p
        invariant forall j :: 0 <= j < st.k ==> have[j] == HeldShards(st)[j]
        invariant forall j :: st.k <= j < |have| ==>
                    have[j] == if j - st.k in todo then None else HeldShards(st)[j]
        decreases |todo|
      {
        var j :| j in todo;
        if st.k + j < |have| { have := have[st.k + j := Some(st.parity[j])]; }
        todo := todo - {j};
      }
    }

    method Reconstruct(key: BlockKey) returns (out: seq<Frame>)
      requires key in blocks && WellFormed(blocks[key])
      modifies this
      ensures var o := FecDecoder.Reconstruct(lib, old(Abs()), key); Abs() == o.dec && out == o.out
    {
      hide Filled;
      hide HeldShards;
      hide FecDecoder.Flush;
      var st := blocks[key];
      var rs := RsFor(st.k, st.p);
      if rs.None? { return []; }
      var have := ShardList(st);
      var rebuilt := lib.rebuild(rs.value, have);
      if rebuilt.None? { return []; }
      var data := Refill(st, rebuilt.value);
      blocks := blocks[key := st.(data := data)];
      out := Flush(key);
    }

    /** Fills in the missing payloads and counts them. */
    method Refill(st: Held, word: seq<Shard>) returns (data: map<U32, seq<Byte>>)
      requires WellFormed(st)
      modifies `recovered
      ensures data == Filled(st, word, |st.seqs|)
      ensures recovered == old(recovered) + PathLedger.Sub(|data|, |st.data|)
    {
      data := st.data;
      for i := 0 to |st.seqs|
        invariant data == Filled(st, word, i)
        invariant |data| >= |st.data| && recovered == old(recovered) + |data| - |st.data|
      {
        if st.seqs[i] !in data {
          var payload := Cut(if i < |word| then word[i] else [], st.lens[i]);
          FecAssembly.MapGrows(data, st.seqs[i], payload);
          data := data[st.seqs[i] := payload];
          recovered := recovered + 1;
        }
      }
    }

    method MaybeDeliver(key: BlockKey) returns (out: seq<Frame>)
      requires key in blocks && WellFormed(blocks[key])
      modifies this
      ensures var o := FecDecoder.MaybeDeliver(lib, old(Abs()), key); Abs() == o.dec && out == o.out
    {
      var st := blocks[key];
      if st.k == 0 { return []; }
      if |st.data| + |st.parity| < st.k { return []; }
      if |st.data| == st.k {
        out := Flush(key);
      } else {
        out := Reconstruct(key);
      }
    }

    method Push(path: string, f: Frame, now: int) returns (out: seq<Frame>)
      requires Valid()
      modifies this
      ensures Valid()
      ensures var o := FecDecoder.Push(lib, old(Abs()), path, f, now); Abs() == o.dec && out == o.out
    {
      FecDecoderRuns.ReceiveOrderly(lib, Abs(), path, f, now);
      if IsPass(f) && !IsParity(f) {
        ObservePathSeq(f.session, path, f.blockSeq, now);
        return [f];
      }
      if !Enabled(params) {
        if IsParity(f) { return []; }
        return [f];
      }
      if !IsParity(f) && f.blockSeq == 0 { return [f]; }
      var sp := if params.crossPath then "" else path;
      var key, deadline := BlockKey(f.session, sp, f.blockSeq), now + params.timeout;
      Routed(lib, Abs(), path, f, now, key, deadline);
      out := PushBlock(key, f, deadline);
    }

    /** A frame of a block: put it in its buffer, then see whether the block can be handed on. */
    method PushBlock(key: BlockKey, f: Frame, deadline: int) returns (out: seq<Frame>)
      requires Valid()
      modifies this
      ensures var o := FecDecoder.PushBlock(lib, old(Abs()), key, f, deadline); Abs() == o.dec && out == o.out
    {
      PlaceSound(Abs(), key, f, deadline);
      var kept := PutFrame(key, f, deadline);
      if !kept { return []; }
      out := MaybeDeliver(key);
    }

    method PutFrame(key: BlockKey, f: Frame, deadline: int) returns (kept: bool)
      modifies `blocks, `stats
      ensures Place(old(Abs()), key, f, deadline) == if kept then Kept(Abs()) else Refused(Abs())
    {
      var s := StreamOf(key);
      if key !in blocks && (if s in lastFlushed then lastFlushed[s] else 0) >= key.id { return false; }
      var st := if key in blocks then blocks[key] else EMPTY;
      if st.flushed { return false; }
      if IsParity(f) {
        var added := AddParityTo(st, f.payload, deadline);
        if added.None? {
          blocks := blocks[key := st];
          return false;
        }
        blocks := blocks[key := added.value];
      } else {
        if |st.data| == 0 && |st.parity| == 0 { st := st.(deadline := Some(deadline)); }
        if f.seqNo !in st.data {
          st := st.(data := st.data[f.seqNo := f.payload]);
          var stat := if s in stats then stats[s] else LossStat(0, 0);
          stats := stats[s := stat.(received := stat.received + 1)];
        }
        blocks := blocks[key := st];
      }
      return true;
    }

    static method AddParityTo(st: Held, payload: seq<Byte>, deadline: int) returns (added: Option<Held>)
      ensures added == AddParity(st, payload, deadline)
    {
      if |payload| < PARITY_HDR_FIXED { return None; }
      var k, pidx, maxLen, p := Get16(payload, 0), Get16(payload, 2), Get16(payload, 4), Get16(payload, 6);
      if |payload| < ParityHeaderSize(k) + maxLen { return None; }
      var headed := st;
      if st.k == 0 {
        var seqs, lens := ReadLists(payload, k);
        headed := headed.(k := k, p := p, maxLen := maxLen, seqs := seqs, lens := lens);
        if |st.data| == 0 && |st.parity| == 0 { headed := headed.(deadline := Some(deadline)); }
      }
      if headed.k != k || headed.maxLen != maxLen { return None; }
      var shard := payload[ParityHeaderSize(k)..ParityHeaderSize(k) + maxLen];
      return Some(headed.(parity := st.parity[pidx as nat := shard]));
    }

    static method ReadLists(payload: seq<Byte>, k: nat) returns (seqs: seq<U32>, lens: seq<U16>)
      requires |payload| >= ParityHeaderSize(k)
      ensures seqs == SeqsIn(payload, k) && lens == LensIn(payload, k)
    {
      seqs, lens := [], [];
      for i := 0 to k
        invariant seqs == SeqsIn(payload, k)[..i] && lens == LensIn(payload, k)[..i]
      {
        seqs := seqs + [Get32(payload, PARITY_HDR_FIXED + 4 * i)];
        lens := lens + [Get16(payload, PARITY_HDR_FIXED + 4 * k + 2 * i)];
      }
    }

    /** order: the blocks flushed, as the loop over the table happened to meet them. */
    method Tick(now: int) returns (out: seq<Frame>, ghost order: seq<BlockKey>)
      requires Valid()
      modifies this
      ensures Valid()
      ensures var o := FecDecoder.Tick(old(Abs()), now, order); Abs() == o.dec && out == o.out
      ensures Enabled(params) ==> VisitsOverdue(old(Abs()), now, order)
    {
      FlushPathGaps(now);
      if !Enabled(params) { return [], []; }
      out, order := FlushOverdue(now);
      FecDecoderRuns.TickOrderly(old(Abs()), now, order);
    }

    method FlushOverdue(now: int) returns (out: seq<Frame>, ghost order: seq<BlockKey>)
      modifies this
      ensures var o := FlushAll(old(Abs()), order); Abs() == o.dec && out == o.out
      ensures VisitsOverdue(old(Abs()), now, order)
    {
      hide FecDecoder.Flush;
      hide FlushAll;
      hide Sound;
      out, order := [], [];
      FlushNone(Abs());
      ghost var done := [];
      var todo := blocks.Keys;
      while todo != {}
        invariant FlushAll(old(Abs()), order) == Outcome(Abs(), out, done)
        invariant todo <= blocks.Keys && blocks.Keys <= old(blocks).Keys
        invariant forall key :: key in blocks ==> blocks[key] == old(blocks)[key]
        invariant forall key :: key in order <==> key in old(blocks) && key !in todo && Overdue(old(Abs()), key, now)
        invariant forall key :: key in order ==> key !in blocks
        invariant forall i, j :: 0 <= i < j < |order| ==> order[i] != order[j]
        decreases |todo|
      {
        var key :| key in todo;
        var st := blocks[key];
        if !(st.flushed || (st.deadline.Some? && now < st.deadline.value)) {
          FlushAllSnoc(old(Abs()), order, key);
          FlushTakes(Abs(), key);
          var more := Flush(key);
          out, order, done := out + more, order + [key], done + [key];
        }
        todo := todo - {key};
      }
    }
  }

  lemma FlushNone(d: Dec)
    ensures FlushAll(d, []) == Outcome(d, [], [])
  {}

  lemma FlushTakes(d: Dec, key: BlockKey)
    requires key in d.blocks
    ensures var o := FecDecoder.Flush(d, key); o.done == [key] && o.dec.blocks == d.blocks - {key}
  {
    hide FlushOut;
  }

  lemma FlushAllSnoc(d: Dec, order: seq<BlockKey>, key: BlockKey)
    requires key in FlushAll(d, order).dec.blocks
    ensures var before := FlushAll(d, order);
            var o := FecDecoder.Flush(before.dec, key);
            FlushAll(d, order + [key]) == Outcome(o.dec, before.out + o.out, before.done + o.done)
  {
    assert (order + [key])[..|order|] == order;
  }

  lemma Routed(lib: Library, d: Dec, path: string, f: Frame, now: int, key: BlockKey, deadline: int)
    requires Sound(d) && Enabled(d.params) && (if IsParity(f) then true else !IsPass(f) && f.blockSeq != 0)
    requires key == KeyOf(d.params, path, f) && deadline == now + d.params.timeout
    ensures FecDecoder.Push(lib, d, path, f, now) == FecDecoder.PushBlock(lib, d, key, f, deadline)
  {
    hide FecDecoder.PushBlock;
    hide Sound;
    assert !(IsPass(f) && !IsParity(f));
    assert !(!IsParity(f) && f.blockSeq == 0);
    assert FecDecoder.Push(lib, d, path, f, now)
        == FecDecoder.PushBlock(lib, d, KeyOf(d.params, path, f), f, now + d.params.timeout);
  }
}
