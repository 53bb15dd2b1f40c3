/** The decoder: assembles blocks from any order of arrival, reconstructs, and flushes on a deadline. */
module FecDecoder {
  import opened Bytes
  import opened Erasure
  import opened Frames
  import opened FecBlock
  import opened FecSizing
  import PathLedger

  datatype StreamKey = StreamKey(session: U64, path: string)
  datatype BlockKey = BlockKey(session: U64, path: string, id: U32)

  function StreamOf(key: BlockKey): StreamKey { StreamKey(key.session, key.path) }

  /** The assembly buffer of one block; k == 0 until a parity sub-header was seen. No deadline is always past. */
  datatype Held = Held(k: nat, p: nat, seqs: seq<U32>, lens: seq<U16>, maxLen: nat,
                       data: map<U32, seq<Byte>>, parity: map<nat, Shard>, deadline: Option<int>, flushed: bool)

  const EMPTY := Held(0, 0, [], [], 0, map[], map[], None, false)

  datatype LossStat = LossStat(lost: nat, received: nat)

  datatype Dec = Dec(params: Params, blocks: map<BlockKey, Held>, cache: map<nat, Code>,
                     lastFlushed: map<StreamKey, U32>, stats: map<StreamKey, LossStat>, recovered: nat,
                     pathSeq: map<StreamKey, PathLedger.Stat>)

  /** A step's result: the decoder, the frames handed on, and the keys of the blocks it flushed. */
  datatype Outcome = Outcome(dec: Dec, out: seq<Frame>, done: seq<BlockKey>)

  function Fresh(p: Params): Dec { Dec(Normalized(p), map[], map[], map[], map[], 0, map[]) }

  function Last(d: Dec, s: StreamKey): U32 { if s in d.lastFlushed then d.lastFlushed[s] else 0 }

  function StatOf(d: Dec, s: StreamKey): LossStat { if s in d.stats then d.stats[s] else LossStat(0, 0) }

  function RawOf(d: Dec, s: StreamKey): PathLedger.Stat {
    if s in d.pathSeq then d.pathSeq[s] else PathLedger.EMPTY
  }

  // ---------------------------------------------------------------------
  // Adding a frame to its block.

  function AddData(st: Held, f: Frame, deadline: int): Held {
    var timed := if |st.data| == 0 && |st.parity| == 0 then st.(deadline := Some(deadline)) else st;
    if f.seqNo in st.data then timed else timed.(data := st.data[f.seqNo := f.payload])
  }

  /** addParity; None when the payload is too short, truncated, or disagrees with the block's header. */
  function AddParity(st: Held, payload: seq<Byte>, deadline: int): Option<Held> {
    match Parse(payload)
    case None => None
    case Some((h, shard)) =>
      var headed :=
        if st.k != 0 then st
        else st.(k := h.k, p := h.p, maxLen := h.maxLen, seqs := h.seqs, lens := h.lens,
                 deadline := if |st.data| == 0 && |st.parity| == 0 then Some(deadline) else st.deadline);
      if headed.k != h.k || headed.maxLen != h.maxLen then None
      else Some(headed.(parity := st.parity[h.idx as nat := shard]))
  }

  // ---------------------------------------------------------------------
  // Flushing.

  /** The held frames of the header's list, in its order. */
  function Listed(session: U64, seqs: seq<U32>, data: map<U32, seq<Byte>>, n: nat): seq<Frame>
    requires n <= |seqs|
  {
    if n == 0 then []
    else Listed(session, seqs, data, n - 1)
         + if seqs[n - 1] in data then [Delivered(session, seqs[n - 1], data[seqs[n - 1]])] else []
  }

  ghost predicate Ascending(s: seq<U32>) { forall i, j :: 0 <= i < j < |s| ==> s[i] < s[j] }

  ghost predicate Lists(s: seq<U32>, keys: set<U32>) {
    Ascending(s) && (forall x :: x in s <==> x in keys)
  }

  lemma {:induction false} ListExists(keys: set<U32>)
    ensures exists s: seq<U32> :: Lists(s, keys)
  {
    if keys == {} {
      assert Lists([], keys);
    } else {
      var x := Greatest(keys);
      ListExists(keys - {x});
      var s: seq<U32> :| Lists(s, keys - {x});
      forall i | 0 <= i < |s| ensures s[i] < x {
        assert s[i] in s;
      }
      assert Lists(s + [x], keys);
    }
  }

  lemma {:induction false} Greatest(keys: set<U32>) returns (x: U32)
    requires keys != {}
    ensures x in keys && forall y :: y in keys ==> y <= x
  {
    x :| x in keys;
    if keys != {x} {
      var z := Greatest(keys - {x});
      assert forall y :: y in keys ==> y == x || y in keys - {x};
      if x < z { x := z; }
    }
  }

  /** The keys in ascending order. */
  ghost function Sorted(keys: set<U32>): (s: seq<U32>)
    ensures Lists(s, keys)
  {
    ListExists(keys);
    var s: seq<U32> :| Lists(s, keys);
    s
  }

  /** What flush hands on: in header order, or by number when no header was seen. */
  ghost function FlushOut(key: BlockKey, st: Held): seq<Frame> {
    var seqs := if st.seqs == [] then Sorted(st.data.Keys) else st.seqs;
    Listed(key.session, seqs, st.data, |seqs|)
  }

  function FlushLost(st: Held): nat {
    if |st.seqs| > 0 && |st.data| < |st.seqs| then |st.seqs| - |st.data| else 0
  }

  ghost function Flush(d: Dec, key: BlockKey): Outcome
    requires key in d.blocks
  {
    var st, s := d.blocks[key], StreamOf(key);
    var stat := StatOf(d, s);
    Outcome(d.(blocks := d.blocks - {key},
               lastFlushed := if key.id > Last(d, s) then d.lastFlushed[s := key.id] else d.lastFlushed,
               stats := if FlushLost(st) > 0 then d.stats[s := stat.(lost := stat.lost + FlushLost(st))] else d.stats),
            FlushOut(key, st), [key])
  }

  // ---------------------------------------------------------------------
  // Completing a block.

  /** rsFor: codes are cached by parity count alone. */
  function CodeFor(lib: Library, cache: map<nat, Code>, k: nat, p: nat): (Option<Code>, map<nat, Code>) {
    if p in cache then (Some(cache[p]), cache)
    else if New(lib, k, p).None? then (None, cache)
    else (New(lib, k, p), cache[p := Code(k, p)])
  }

  /** A payload copied into a zeroed shard of the given size. */
  function Copied(payload: seq<Byte>, size: nat): Shard {
    if |payload| <= size then Padded(payload, size) else payload[..size]
  }

  /** The shard list handed to Reconstruct. */
  function HeldShards(st: Held): (have: seq<Option<Shard>>)
    requires |st.seqs| == st.k
    ensures |have| == st.k + st.p
  {
    seq(st.k + st.p, i requires 0 <= i < st.k + st.p =>
      if i < st.k
      then if st.seqs[i] in st.data then Some(Copied(st.data[st.seqs[i]], st.maxLen)) else None
      else if i - st.k in st.parity then Some(st.parity[i - st.k]) else None)
  }

  function Cut(s: Shard, n: nat): seq<Byte> { if n <= |s| then s[..n] else s }

  /** Missing payloads filled in from the rebuilt shards, one listed number after the other. */
  function Filled(st: Held, word: seq<Shard>, n: nat): map<U32, seq<Byte>>
    requires n <= |st.seqs| == |st.lens|
  {
    if n == 0 then st.data
    else
      var data := Filled(st, word, n - 1);
      if st.seqs[n - 1] in data then data
      else data[st.seqs[n - 1] := Cut(if n - 1 < |word| then word[n - 1] else [], st.lens[n - 1])]
  }

  /** The missing payloads of a block filled in and counted. */
  function Refilled(d: Dec, key: BlockKey, cache: map<nat, Code>, word: seq<Shard>): (e: Dec)
    requires key in d.blocks && |d.blocks[key].seqs| == |d.blocks[key].lens|
    ensures key in e.blocks
  {
    var st := d.blocks[key];
    var data := Filled(st, word, |st.seqs|);
    d.(cache := cache, blocks := d.blocks[key := st.(data := data)],
       recovered := d.recovered + PathLedger.Sub(|data|, |st.data|))
  }

  ghost function Reconstruct(lib: Library, d: Dec, key: BlockKey): Outcome
    requires key in d.blocks && |d.blocks[key].seqs| == |d.blocks[key].lens| == d.blocks[key].k
  {
    var st := d.blocks[key];
    var (code, cache) := CodeFor(lib, d.cache, st.k, st.p);
    if code.None? then Outcome(d, [], [])
    else match lib.rebuild(code.value, HeldShards(st))
      case None => Outcome(d.(cache := cache), [], [])
      case Some(word) => Flush(Refilled(d, key, cache, word), key)
  }

  /** The header lists have the header's length. */
  predicate WellFormed(st: Held) { |st.seqs| == |st.lens| == st.k }

  predicate Sound(d: Dec) { forall key :: key in d.blocks ==> WellFormed(d.blocks[key]) }

  ghost function MaybeDeliver(lib: Library, d: Dec, key: BlockKey): Outcome
    requires key in d.blocks && WellFormed(d.blocks[key])
  {
    var st := d.blocks[key];
    if st.k == 0 || |st.data| + |st.parity| < st.k then Outcome(d, [], [])
    else if |st.data| == st.k then Flush(d, key)
    else Reconstruct(lib, d, key)
  }

  // ---------------------------------------------------------------------
  // Push and Tick.

  function KeyOf(p: Params, path: string, f: Frame): BlockKey {
    BlockKey(f.session, if p.crossPath then "" else path, f.blockSeq)
  }

  /** A frame is refused (its block was flushed, or its header is bad), or put into its block. */
  datatype Placement = Refused(dec: Dec) | Kept(dec: Dec)

  function Slot(blocks: map<BlockKey, Held>, key: BlockKey): Held { if key in blocks then blocks[key] else EMPTY }

  /** The buffer with the frame put in. */
  function Added(st: Held, f: Frame, deadline: int): Option<Held> {
    if IsParity(f) then AddParity(st, f.payload, deadline) else Some(AddData(st, f, deadline))
  }

  /** The receive count of the block's stream: every new data frame counts once. */
  function Counted(d: Dec, key: BlockKey, f: Frame): map<StreamKey, LossStat> {
    var stat := StatOf(d, StreamOf(key));
    if IsParity(f) || f.seqNo in Slot(d.blocks, key).data then d.stats
    else d.stats[StreamOf(key) := stat.(received := stat.received + 1)]
  }

  function Place(d: Dec, key: BlockKey, f: Frame, deadline: int): Placement {
    var st := Slot(d.blocks, key);
    if key !in d.blocks && Last(d, StreamOf(key)) >= key.id then Refused(d)
    else if st.flushed then Refused(d)
    else match Added(st, f, deadline)
      case None => Refused(d.(blocks := d.blocks[key := st]))
      case Some(added) => Kept(d.(blocks := d.blocks[key := added], stats := Counted(d, key, f)))
  }

  lemma AddedWellFormed(st: Held, f: Frame, deadline: int)
    requires WellFormed(st)
    ensures Added(st, f, deadline).Some? ==> WellFormed(Added(st, f, deadline).value)
  {}

  lemma PlaceSound(d: Dec, key: BlockKey, f: Frame, deadline: int)
    requires Sound(d)
    ensures Sound(Place(d, key, f, deadline).dec)
    ensures Place(d, key, f, deadline).Kept? ==> key in Place(d, key, f, deadline).dec.blocks
  {
    AddedWellFormed(Slot(d.blocks, key), f, deadline);
  }

  ghost function PushBlock(lib: Library, d: Dec, key: BlockKey, f: Frame, deadline: int): Outcome
    requires Sound(d)
  {
    PlaceSound(d, key, f, deadline);
    match Place(d, key, f, deadline)
    case Refused(e) => Outcome(e, [], [])
    case Kept(e) => MaybeDeliver(lib, e, key)
  }

  ghost function Push(lib: Library, d: Dec, path: string, f: Frame, now: int): Outcome
    requires Sound(d)
  {
    if IsPass(f) && !IsParity(f) then
      var s := StreamKey(f.session, path);
      Outcome(d.(pathSeq := d.pathSeq[s := PathLedger.Observe(RawOf(d, s), f.blockSeq, now)]), [f], [])
    else if !Enabled(d.params) then Outcome(d, if IsParity(f) then [] else [f], [])
    else if !IsParity(f) && f.blockSeq == 0 then Outcome(d, [f], [])
    else PushBlock(lib, d, KeyOf(d.params, path, f), f, now + d.params.timeout)
  }

  predicate Overdue(d: Dec, key: BlockKey, now: int)
    requires key in d.blocks
  {
    var st := d.blocks[key];
    !st.flushed && (st.deadline.None? || now >= st.deadline.value)
  }

  /** Flushes the listed blocks one after the other. */
  ghost function FlushAll(d: Dec, order: seq<BlockKey>): Outcome
    decreases |order|
  {
    if order == [] then Outcome(d, [], [])
    else
      var before := FlushAll(d, order[..|order| - 1]);
      var key := order[|order| - 1];
      if key !in before.dec.blocks then before
      else
        var o := Flush(before.dec, key);
        Outcome(o.dec, before.out + o.out, before.done + o.done)
  }

  /** order lists the overdue blocks, each once, as the map iteration happened to visit them. */
  ghost predicate VisitsOverdue(d: Dec, now: int, order: seq<BlockKey>) {
    && (forall i, j :: 0 <= i < j < |order| ==> order[i] != order[j])
    && (forall key :: key in order <==> key in d.blocks && Overdue(d, key, now))
  }

  ghost function Tick(d: Dec, now: int, order: seq<BlockKey>): Outcome {
    var aged := d.(pathSeq := map s | s in d.pathSeq :: PathLedger.FlushGap(d.pathSeq[s], now));
    if !Enabled(d.params) then Outcome(aged, [], []) else FlushAll(aged, order)
  }
}
