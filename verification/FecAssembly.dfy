/** What the decoder's buffer for one honest block holds, and what completing or flushing it hands on. */
module FecAssembly {
  import opened Bytes
  import opened Erasure
  import opened Frames
  import opened FecBlock
  import opened FecDecoder

  // ---------------------------------------------------------------------
  // Arrivals: a block's frames are numbered 0 .. k+p-1, data first.

  ghost function DataPart(b: Block, arrived: set<nat>): set<nat> {
    set i | i in arrived && i < |b.data|
  }

  ghost function ParityPart(b: Block, arrived: set<nat>): set<nat> {
    set i | i in arrived && i >= |b.data|
  }

  lemma PartsSize(b: Block, arrived: set<nat>)
    ensures |arrived| == |DataPart(b, arrived)| + |ParityPart(b, arrived)|
  {
    assert arrived == DataPart(b, arrived) + ParityPart(b, arrived);
  }

  /** Enough to rebuild: k frames or more, at least one of them parity. */
  ghost predicate Complete(b: Block, arrived: set<nat>) {
    ParityPart(b, arrived) != {} && |arrived| >= |b.data|
  }

  /** The arrived data in block order, up to index n. */
  ghost function Partial(b: Block, arrived: set<nat>, n: nat): seq<Frame>
    requires n <= |b.data|
  {
    if n == 0 then []
    else Partial(b, arrived, n - 1)
         + if n - 1 in arrived then [Delivered(b.session, b.data[n - 1].seqNo, b.data[n - 1].payload)] else []
  }

  lemma {:induction false} PartialAll(b: Block, arrived: set<nat>, n: nat)
    requires n <= |b.data| && forall i :: 0 <= i < n ==> i in arrived
    ensures Partial(b, arrived, n) == Content(b)[..n]
  {
    if n > 0 { PartialAll(b, arrived, n - 1); }
  }

  // ---------------------------------------------------------------------
  // The buffer.

  /** Data frame i is held, with its payload, iff it arrived. */
  ghost predicate HoldsOne(b: Block, arrived: set<nat>, data: map<U32, seq<Byte>>, i: nat)
    requires i < |b.data|
  {
    var x := b.data[i];
    (x.seqNo in data <==> i in arrived) && (i in arrived ==> data[x.seqNo] == x.payload)
  }

  ghost predicate HoldsData(b: Block, arrived: set<nat>, data: map<U32, seq<Byte>>) {
    && (forall i: nat :: i < |b.data| ==> HoldsOne(b, arrived, data, i))
    && |data| == |DataPart(b, arrived)|
  }

  /** Parity shard j is held, as the library made it, iff its frame arrived. */
  ghost predicate HoldsShard(b: Block, shards: seq<Shard>, arrived: set<nat>, parity: map<nat, Shard>, j: nat) {
    && (j in parity <==> |b.data| + j in arrived)
    && (j in parity ==> j < b.p && j < |shards| && parity[j] == shards[j])
  }

  ghost predicate HoldsParity(b: Block, shards: seq<Shard>, arrived: set<nat>, parity: map<nat, Shard>) {
    && (forall j: nat :: HoldsShard(b, shards, arrived, parity, j))
    && |parity| == |ParityPart(b, arrived)|
  }

  ghost predicate HoldsHeader(b: Block, arrived: set<nat>, st: Held) {
    if ParityPart(b, arrived) == {} then st.k == 0 && st.seqs == [] && st.lens == []
    else st.k == |b.data| && st.p == b.p && st.maxLen == MaxLen(b.data)
         && st.seqs == SeqsOf(b.data) && st.lens == LensOf(b.data)
  }

  ghost predicate Holding(lib: Library, b: Block, arrived: set<nat>, st: Held) {
    && HoldsData(b, arrived, st.data)
    && HoldsParity(b, ParityShards(lib, b), arrived, st.parity)
    && HoldsHeader(b, arrived, st)
    && !st.flushed
    && arrived <= Range(|b.data| + b.p)
  }

  ghost predicate Distinct(b: Block) {
    forall i, j :: 0 <= i < |b.data| && 0 <= j < |b.data| && i != j ==> b.data[i].seqNo != b.data[j].seqNo
  }

  lemma EmptyHolds(lib: Library, b: Block)
    ensures Holding(lib, b, {}, EMPTY)
  {
    assert DataPart(b, {}) == {} && ParityPart(b, {}) == {};
  }

  lemma MapGrows<K, V>(m: map<K, V>, k: K, v: V)
    ensures k !in m ==> |m[k := v]| == |m| + 1
    ensures k in m ==> |m[k := v]| == |m|
  {
    assert m[k := v].Keys == m.Keys + {k};
    if k in m { assert m.Keys + {k} == m.Keys; }
  }

  /** Storing data frame i makes it one of the held ones and changes nothing else. */
  lemma StoreHolds(b: Block, arrived: set<nat>, data: map<U32, seq<Byte>>, i: nat)
    requires Distinct(b) && HoldsData(b, arrived, data) && i < |b.data| && i !in arrived
    ensures HoldsData(b, arrived + {i}, data[b.data[i].seqNo := b.data[i].payload])
  {
    var x := b.data[i];
    var stored := data[x.seqNo := x.payload];
    assert HoldsOne(b, arrived, data, i);
    MapGrows(data, x.seqNo, x.payload);
    assert DataPart(b, arrived + {i}) == DataPart(b, arrived) + {i};
    assert i !in DataPart(b, arrived);
    forall j: nat | j < |b.data| ensures HoldsOne(b, arrived + {i}, stored, j) {
      assert HoldsOne(b, arrived, data, j);
    }
  }

  lemma SameParity(b: Block, shards: seq<Shard>, arrived: set<nat>, i: nat, parity: map<nat, Shard>)
    requires i < |b.data| && HoldsParity(b, shards, arrived, parity)
    ensures HoldsParity(b, shards, arrived + {i}, parity)
  {
    assert ParityPart(b, arrived + {i}) == ParityPart(b, arrived);
    forall j: nat ensures HoldsShard(b, shards, arrived + {i}, parity, j) {
      assert HoldsShard(b, shards, arrived, parity, j);
    }
  }

  lemma SameData(b: Block, arrived: set<nat>, i: nat, data: map<U32, seq<Byte>>)
    requires i >= |b.data| && HoldsData(b, arrived, data)
    ensures HoldsData(b, arrived + {i}, data)
  {
    assert DataPart(b, arrived + {i}) == DataPart(b, arrived);
    forall j: nat | j < |b.data| ensures HoldsOne(b, arrived + {i}, data, j) {
      assert HoldsOne(b, arrived, data, j);
    }
  }

  lemma StoreParityHolds(b: Block, shards: seq<Shard>, arrived: set<nat>, parity: map<nat, Shard>, i: nat)
    requires HoldsParity(b, shards, arrived, parity) && |b.data| <= i < |b.data| + b.p && |shards| == b.p
    ensures HoldsParity(b, shards, arrived + {i}, parity[i - |b.data| := shards[i - |b.data|]])
  {
    hide HoldsShard;
    StoredSize(b, shards, arrived, parity, i);
    var stored := parity[i - |b.data| := shards[i - |b.data|]];
    forall l: nat ensures HoldsShard(b, shards, arrived + {i}, stored, l) {
      assert HoldsShard(b, shards, arrived, parity, l);
      StoredShard(b, shards, arrived, parity, i, l);
    }
  }

  lemma StoredSize(b: Block, shards: seq<Shard>, arrived: set<nat>, parity: map<nat, Shard>, i: nat)
    requires HoldsParity(b, shards, arrived, parity) && |b.data| <= i < |b.data| + b.p && |shards| == b.p
    ensures |parity[i - |b.data| := shards[i - |b.data|]]| == |ParityPart(b, arrived + {i})|
  {
    var j := i - |b.data|;
    assert HoldsShard(b, shards, arrived, parity, j);
    MapGrows(parity, j, shards[j]);
    ParityPartGrows(b, arrived, i);
  }

  lemma StoredShard(b: Block, shards: seq<Shard>, arrived: set<nat>, parity: map<nat, Shard>, i: nat, l: nat)
    requires HoldsShard(b, shards, arrived, parity, l) && |b.data| <= i < |b.data| + b.p && |shards| == b.p
    ensures HoldsShard(b, shards, arrived + {i}, parity[i - |b.data| := shards[i - |b.data|]], l)
  {}

  lemma ParityPartGrows(b: Block, arrived: set<nat>, i: nat)
    requires i >= |b.data|
    ensures i in ParityPart(b, arrived + {i})
    ensures |ParityPart(b, arrived + {i})| == |ParityPart(b, arrived)| + if i in arrived then 0 else 1
  {
    assert ParityPart(b, arrived + {i}) == ParityPart(b, arrived) + {i};
    if i in arrived { assert ParityPart(b, arrived) + {i} == ParityPart(b, arrived); }
  }

  lemma AddDataHolds(lib: Library, b: Block, arrived: set<nat>, st: Held, i: nat, f: Frame, deadline: int)
    requires Distinct(b) && Holding(lib, b, arrived, st) && i < |b.data| && IsFrame(lib, b, i, f)
    ensures Holding(lib, b, arrived + {i}, AddData(st, f, deadline))
  {
    assert HoldsOne(b, arrived, st.data, i);
    assert ParityPart(b, arrived + {i}) == ParityPart(b, arrived);
    if i in arrived {
      assert arrived + {i} == arrived;
    } else {
      StoreHolds(b, arrived, st.data, i);
      SameParity(b, ParityShards(lib, b), arrived, i, st.parity);
    }
  }

  lemma AddParityHolds(lib: Library, b: Block, arrived: set<nat>, st: Held, i: nat, f: Frame, deadline: int)
    requires ErasureContract(lib) && ValidBlock(lib, |b.data|, b) && |b.data| <= i < |b.data| + b.p
    requires Holding(lib, b, arrived, st) && IsFrame(lib, b, i, f)
    ensures AddParity(st, f.payload, deadline).Some?
    ensures Holding(lib, b, arrived + {i}, AddParity(st, f.payload, deadline).value)
  {
    hide AddParity;
    hide ErasureContract;
    hide HoldsData;
    hide HoldsParity;
    hide HoldsHeader;
    hide Range;
    hide Parse;
    ParityParsed(lib, b, i - |b.data|, f);
    InRange(b, arrived, i);
    AddShardHolds(b, ParityShards(lib, b), arrived, st, i, f.payload, deadline);
  }

  lemma InRange(b: Block, arrived: set<nat>, i: nat)
    requires i < |b.data| + b.p
    ensures arrived <= Range(|b.data| + b.p) ==> arrived + {i} <= Range(|b.data| + b.p)
  {}

  lemma AddShardHolds(b: Block, shards: seq<Shard>, arrived: set<nat>, st: Held, i: nat, payload: seq<Byte>,
                      deadline: int)
    requires |b.data| <= i < |b.data| + b.p && |shards| == b.p && Fits(b.data, b.p)
    requires HoldsData(b, arrived, st.data) && HoldsParity(b, shards, arrived, st.parity) && HoldsHeader(b, arrived, st)
    requires Parse(payload) ==
               Some((Header(|b.data|, i - |b.data|, MaxLen(b.data), b.p, SeqsOf(b.data), LensOf(b.data)),
                                     shards[i - |b.data|]))
    ensures var added := AddParity(st, payload, deadline);
            && added.Some? && added.value.flushed == st.flushed
            && HoldsData(b, arrived + {i}, added.value.data)
            && HoldsParity(b, shards, arrived + {i}, added.value.parity)
            && HoldsHeader(b, arrived + {i}, added.value)
  {
    var j := i - |b.data|;
    ParityPartGrows(b, arrived, i);
    AddedFields(b, arrived, st, payload, i, shards[j], deadline);
    SameData(b, arrived, i, st.data);
    StoreParityHolds(b, shards, arrived, st.parity, i);
  }

  lemma ParityParsed(lib: Library, b: Block, j: nat, f: Frame)
    requires ErasureContract(lib) && ValidBlock(lib, |b.data|, b) && j < b.p && IsFrame(lib, b, |b.data| + j, f)
    ensures |ParityShards(lib, b)| == b.p
    ensures Parse(f.payload) == Some((Header(|b.data|, j, MaxLen(b.data), b.p, SeqsOf(b.data), LensOf(b.data)),
                                      ParityShards(lib, b)[j]))
  {
    assert EncodesTo(lib, Code(|b.data|, b.p), DataShards(b.data), MaxLen(b.data));
    ParseInverts(b.data, b.p, j, ParityShards(lib, b)[j]);
  }

  lemma AddedFields(b: Block, arrived: set<nat>, st: Held, payload: seq<Byte>, i: nat, shard: Shard, deadline: int)
    requires HoldsHeader(b, arrived, st) && |b.data| <= i < |b.data| + b.p && Fits(b.data, b.p)
    requires Parse(payload) ==
               Some((Header(|b.data|, i - |b.data|, MaxLen(b.data), b.p, SeqsOf(b.data), LensOf(b.data)), shard))
    requires ParityPart(b, arrived + {i}) != {}
    ensures var added := AddParity(st, payload, deadline);
            && added.Some? && added.value.data == st.data && added.value.parity == st.parity[i - |b.data| := shard]
            && added.value.flushed == st.flushed
            && HoldsHeader(b, arrived + {i}, added.value)
  {}

  // ---------------------------------------------------------------------
  // Flushing.

  /** In header order, exactly the arrived data frames come out. */
  lemma {:induction false} ListedIsPartial(b: Block, arrived: set<nat>, data: map<U32, seq<Byte>>, n: nat)
    requires n <= |b.data| && HoldsData(b, arrived, data)
    ensures Listed(b.session, SeqsOf(b.data), data, n) == Partial(b, arrived, n)
  {
    if n > 0 {
      ListedIsPartial(b, arrived, data, n - 1);
      assert HoldsOne(b, arrived, data, n - 1);
    }
  }

  /** The numbers of the arrived data, in block order. */
  ghost function ArrivedSeqs(b: Block, arrived: set<nat>, n: nat): seq<U32>
    requires n <= |b.data|
  {
    if n == 0 then []
    else ArrivedSeqs(b, arrived, n - 1) + if n - 1 in arrived then [b.data[n - 1].seqNo] else []
  }

  ghost predicate Rising(b: Block) {
    forall i, j :: 0 <= i < j < |b.data| ==> b.data[i].seqNo < b.data[j].seqNo
  }

  lemma {:induction false} ArrivedSeqsRise(b: Block, arrived: set<nat>, n: nat)
    requires Rising(b) && n <= |b.data|
    ensures var s := ArrivedSeqs(b, arrived, n);
            Ascending(s) && forall i :: 0 <= i < |s| && n < |b.data| ==> s[i] < b.data[n].seqNo
  {
    if n > 0 {
      ArrivedSeqsRise(b, arrived, n - 1);
    }
  }

  lemma {:induction false} ArrivedHeld(b: Block, arrived: set<nat>, data: map<U32, seq<Byte>>, n: nat)
    requires HoldsData(b, arrived, data) && n <= |b.data|
    ensures forall x :: x in ArrivedSeqs(b, arrived, n) ==> x in data
  {
    if n > 0 {
      ArrivedHeld(b, arrived, data, n - 1);
      assert HoldsOne(b, arrived, data, n - 1);
      var s, x := ArrivedSeqs(b, arrived, n - 1), b.data[n - 1].seqNo;
      forall y | y in ArrivedSeqs(b, arrived, n) ensures y in data {
        assert y in s || (n - 1 in arrived && y == x);
      }
    }
  }

  /** Two ascending lists of the same keys are equal. */
  lemma {:induction false} ListsUnique(s: seq<U32>, t: seq<U32>, keys: set<U32>)
    requires Lists(s, keys) && Lists(t, keys)
    ensures s == t
  {
    assert s == [] <==> t == [] by {
      assert s != [] ==> s[0] in s;
      assert t != [] ==> t[0] in t;
    }
    if s != [] {
      var x, y := s[|s| - 1], t[|t| - 1];
      LastIsGreatest(s, keys);
      LastIsGreatest(t, keys);
      assert x in s && y in t;
      WithoutLast(s, keys);
      WithoutLast(t, keys);
      ListsUnique(s[..|s| - 1], t[..|t| - 1], keys - {x});
      assert s == s[..|s| - 1] + [x] && t == t[..|t| - 1] + [x];
    }
  }

  lemma LastIsGreatest(s: seq<U32>, keys: set<U32>)
    requires s != [] && Lists(s, keys)
    ensures forall z :: z in keys ==> z <= s[|s| - 1]
  {
    forall z | z in keys ensures z <= s[|s| - 1] {
      assert z in s;
    }
  }

  lemma WithoutLast(s: seq<U32>, keys: set<U32>)
    requires s != [] && Lists(s, keys)
    ensures Lists(s[..|s| - 1], keys - {s[|s| - 1]})
  {
    var init, x := s[..|s| - 1], s[|s| - 1];
    assert s == init + [x];
    assert forall i :: 0 <= i < |init| ==> init[i] == s[i];
  }

  /** Without a header the frames come out by number, which is block order. */
  lemma {:induction false} SortedIsPartial(b: Block, arrived: set<nat>, data: map<U32, seq<Byte>>, n: nat)
    requires n <= |b.data| && HoldsData(b, arrived, data)
    ensures var s := ArrivedSeqs(b, arrived, n);
            Listed(b.session, s, data, |s|) == Partial(b, arrived, n)
  {
    hide HoldsData;
    if n > 0 {
      SortedIsPartial(b, arrived, data, n - 1);
      var s, t := ArrivedSeqs(b, arrived, n - 1), ArrivedSeqs(b, arrived, n);
      ListedPrefix(b.session, s, t, data, |s|);
      HeldAt(b, arrived, data, n - 1);
    }
  }

  lemma HeldAt(b: Block, arrived: set<nat>, data: map<U32, seq<Byte>>, i: nat)
    requires HoldsData(b, arrived, data) && i < |b.data|
    ensures HoldsOne(b, arrived, data, i)
  {}

  lemma {:induction false} ListedPrefix(session: U64, s: seq<U32>, t: seq<U32>, data: map<U32, seq<Byte>>, n: nat)
    requires n <= |s| <= |t| && forall i :: 0 <= i < |s| ==> s[i] == t[i]
    ensures Listed(session, s, data, n) == Listed(session, t, data, n)
  {
    if n > 0 { ListedPrefix(session, s, t, data, n - 1); }
  }

  /** The keys of the buffer are the numbers of the arrived data, and no others: there are as many. */
  lemma KeysAreArrived(b: Block, arrived: set<nat>, data: map<U32, seq<Byte>>)
    requires Rising(b) && HoldsData(b, arrived, data)
    ensures Lists(ArrivedSeqs(b, arrived, |b.data|), data.Keys)
  {
    var s := ArrivedSeqs(b, arrived, |b.data|);
    ArrivedSeqsRise(b, arrived, |b.data|);
    ArrivedHeld(b, arrived, data, |b.data|);
    ArrivedSeqsCount(b, arrived, |b.data|);
    assert DataPart(b, arrived) == Below(arrived, |b.data|);
    AscendingSize(s);
    SubsetSize(Members(s), data.Keys);
    assert forall x :: x in s <==> x in Members(s);
  }

  ghost function Below(arrived: set<nat>, n: nat): set<nat> { set i | i in arrived && i < n }

  lemma {:induction false} ArrivedSeqsCount(b: Block, arrived: set<nat>, n: nat)
    requires n <= |b.data|
    ensures |ArrivedSeqs(b, arrived, n)| == |Below(arrived, n)|
  {
    if n == 0 {
      assert Below(arrived, 0) == {};
    } else {
      ArrivedSeqsCount(b, arrived, n - 1);
      if n - 1 in arrived {
        assert Below(arrived, n) == Below(arrived, n - 1) + {n - 1};
      } else {
        assert Below(arrived, n) == Below(arrived, n - 1);
      }
    }
  }

  ghost function Members(s: seq<U32>): set<U32> { set x | x in s }

  lemma {:induction false} AscendingSize(s: seq<U32>)
    requires Ascending(s)
    ensures |Members(s)| == |s|
  {
    if s == [] {
      assert Members(s) == {};
    } else {
      var init, last := s[..|s| - 1], s[|s| - 1];
      AscendingSize(init);
      MembersSnoc(init, last);
      assert s == init + [last];
      assert last !in init;
    }
  }

  lemma MembersSnoc(init: seq<U32>, last: U32)
    ensures Members(init + [last]) == Members(init) + {last}
  {}

  /** Flushing a buffer hands on exactly the arrived data, in block order, and books the rest as lost. */
  lemma FlushHandsOn(lib: Library, b: Block, key: BlockKey, arrived: set<nat>, st: Held)
    requires Rising(b) && b.data != [] && key.session == b.session && Holding(lib, b, arrived, st)
    ensures FlushOut(key, st) == Partial(b, arrived, |b.data|)
    ensures FlushLost(st) == if ParityPart(b, arrived) == {} then 0 else |b.data| - |DataPart(b, arrived)|
  {
    var k := |b.data|;
    assert DataPart(b, arrived) <= Range(k);
    SubsetSize(DataPart(b, arrived), Range(k));
    if ParityPart(b, arrived) == {} {
      var s := ArrivedSeqs(b, arrived, k);
      ArrivedSeqsRise(b, arrived, k);
      KeysAreArrived(b, arrived, st.data);
      ListsUnique(s, Sorted(st.data.Keys), st.data.Keys);
      SortedIsPartial(b, arrived, st.data, k);
    } else {
      ListedIsPartial(b, arrived, st.data, k);
    }
  }

  // ---------------------------------------------------------------------
  // Rebuilding.

  /** The shard list is the codeword with holes exactly where nothing arrived. */
  lemma ShardsAreFragment(lib: Library, b: Block, arrived: set<nat>, st: Held)
    requires Holding(lib, b, arrived, st) && ParityPart(b, arrived) != {} && |ParityShards(lib, b)| == b.p
    ensures WellFormed(st)
    ensures Fragment(HeldShards(st), DataShards(b.data) + ParityShards(lib, b))
    ensures Present(HeldShards(st)) == arrived
  {
    var have, word := HeldShards(st), DataShards(b.data) + ParityShards(lib, b);
    forall i: nat | i < |word|
      ensures (have[i].Some? <==> i in arrived) && (have[i].Some? ==> have[i].value == word[i])
    {
      ShardAt(lib, b, arrived, st, i);
    }
    forall i | i in arrived ensures i < |word| {
      assert i in Range(|b.data| + b.p);
    }
  }

  lemma ShardAt(lib: Library, b: Block, arrived: set<nat>, st: Held, i: nat)
    requires Holding(lib, b, arrived, st) && ParityPart(b, arrived) != {} && |ParityShards(lib, b)| == b.p
    requires i < |b.data| + b.p
    ensures HeldShards(st)[i] == if i in arrived then Some((DataShards(b.data) + ParityShards(lib, b))[i]) else None
  {
    var shards := ParityShards(lib, b);
    if i < |b.data| {
      assert HoldsOne(b, arrived, st.data, i);
      DataShardAt(b, shards, arrived, st, i);
    } else {
      assert HoldsShard(b, shards, arrived, st.parity, i - |b.data|);
      ParityShardAt(b, shards, arrived, st, i);
    }
  }

  lemma DataShardAt(b: Block, shards: seq<Shard>, arrived: set<nat>, st: Held, i: nat)
    requires st.k == |b.data| && st.p == b.p && st.maxLen == MaxLen(b.data) && st.seqs == SeqsOf(b.data)
    requires i < |b.data| && HoldsOne(b, arrived, st.data, i)
    ensures HeldShards(st)[i] == if i in arrived then Some((DataShards(b.data) + shards)[i]) else None
  {
    assert st.seqs[i] == b.data[i].seqNo;
    assert (DataShards(b.data) + shards)[i] == DataShards(b.data)[i] == Padded(b.data[i].payload, MaxLen(b.data));
  }

  lemma ParityShardAt(b: Block, shards: seq<Shard>, arrived: set<nat>, st: Held, i: nat)
    requires st.k == |b.data| == |st.seqs| && st.p == b.p == |shards| && |b.data| <= i < |b.data| + b.p
    requires HoldsShard(b, shards, arrived, st.parity, i - |b.data|)
    ensures HeldShards(st)[i] == if i in arrived then Some((DataShards(b.data) + shards)[i]) else None
  {
    assert (DataShards(b.data) + shards)[i] == shards[i - |b.data|];
  }

  /** The codeword begins with the block's data shards. */
  ghost predicate Begins(word: seq<Shard>, b: Block) {
    |word| >= |b.data| && forall i :: 0 <= i < |b.data| ==> word[i] == DataShards(b.data)[i]
  }

  /** Filling in from the codeword makes up every payload exactly. */
  lemma {:induction false} FilledHolds(b: Block, arrived: set<nat>, st: Held, word: seq<Shard>, n: nat)
    requires Distinct(b) && n <= |b.data| && HoldsData(b, arrived, st.data)
    requires MaxLen(b.data) < 0x1_0000 && Begins(word, b)
    requires st.seqs == SeqsOf(b.data) && st.lens == LensOf(b.data)
    ensures HoldsData(b, arrived + Range(n), Filled(st, word, n))
  {
    hide HoldsData;
    hide Filled;
    hide DataShards;
    hide Distinct;
    hide Range;
    hide MaxLen;
    hide Begins;
    if n == 0 {
      RangeGrows(arrived, 0);
      FilledNone(st, word);
    } else {
      FilledHolds(b, arrived, st, word, n - 1);
      var held := arrived + Range(n - 1);
      FillOne(b, held, st, word, n - 1);
      RangeGrows(arrived, n - 1);
    }
  }

  lemma RangeGrows(arrived: set<nat>, n: nat)
    ensures arrived + Range(0) == arrived && arrived + Range(n + 1) == arrived + Range(n) + {n}
  {}

  lemma FilledNone(st: Held, word: seq<Shard>)
    requires |st.seqs| == |st.lens|
    ensures Filled(st, word, 0) == st.data
  {}

  lemma FillOne(b: Block, held: set<nat>, st: Held, word: seq<Shard>, i: nat)
    requires Distinct(b) && i < |b.data| && st.seqs == SeqsOf(b.data) && st.lens == LensOf(b.data)
    requires HoldsData(b, held, Filled(st, word, i))
    requires MaxLen(b.data) < 0x1_0000 && Begins(word, b)
    ensures HoldsData(b, held + {i}, Filled(st, word, i + 1))
  {
    var data := Filled(st, word, i);
    assert HoldsOne(b, held, data, i);
    if i in held {
      assert held + {i} == held;
    } else {
      CutPadded(b, word[i], i);
      StoreHolds(b, held, data, i);
    }
  }

  lemma CutPadded(b: Block, shard: Shard, i: nat)
    requires i < |b.data| && shard == DataShards(b.data)[i] && MaxLen(b.data) < 0x1_0000
    ensures Cut(shard, LensOf(b.data)[i]) == b.data[i].payload
  {}

  lemma AllArrived(b: Block, arrived: set<nat>)
    requires arrived <= Range(|b.data| + b.p)
    ensures DataPart(b, arrived + Range(|b.data|)) == Range(|b.data|)
    ensures |DataPart(b, arrived)| <= |b.data|
    ensures |DataPart(b, arrived)| == |b.data| ==> DataPart(b, arrived) == Range(|b.data|)
  {
    assert DataPart(b, arrived) <= Range(|b.data|);
    SubsetSize(DataPart(b, arrived), Range(|b.data|));
  }
}
