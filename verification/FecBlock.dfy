/** An erasure-coded block and its self-describing parity frames. */
module FecBlock {
  import opened Bytes
  import opened Erasure
  import opened Frames

  const PARITY_HDR_FIXED := 8

  datatype Datum = Datum(seqNo: U32, payload: seq<Byte>)

  /** A sealed block: its data frames and the number p of parity frames sent with them (0: none). */
  datatype Block = Block(session: U64, id: U32, data: seq<Datum>, p: nat)

  function ParityHeaderSize(k: nat): nat { PARITY_HDR_FIXED + 4 * k + 2 * k }

  function MaxLen(data: seq<Datum>): (m: nat)
    ensures forall i :: 0 <= i < |data| ==> |data[i].payload| <= m
  {
    MaxLenTo(data, |data|)
  }

  function MaxLenTo(data: seq<Datum>, n: nat): (m: nat)
    requires n <= |data|
    ensures forall i :: 0 <= i < n ==> |data[i].payload| <= m
  {
    if n == 0 then 0
    else
      var m := MaxLenTo(data, n - 1);
      if |data[n - 1].payload| > m then |data[n - 1].payload| else m
  }

  function Padded(payload: seq<Byte>, size: nat): (s: Shard)
    requires |payload| <= size
    ensures |s| == size && s[..|payload|] == payload
  {
    payload + seq(size - |payload|, _ => 0)
  }

  function DataShards(data: seq<Datum>): (s: seq<Shard>)
    ensures |s| == |data| && Uniform(s, MaxLen(data))
  {
    seq(|data|, i requires 0 <= i < |data| => Padded(data[i].payload, MaxLen(data)))
  }

  // ---------------------------------------------------------------------
  // The parity sub-header.

  function SeqField(data: seq<Datum>): (b: seq<Byte>)
    ensures |b| == 4 * |data|
  {
    seq(4 * |data|, j requires 0 <= j < 4 * |data| => Put32(data[j / 4].seqNo)[j % 4])
  }

  function LenField(data: seq<Datum>): (b: seq<Byte>)
    ensures |b| == 2 * |data|
  {
    seq(2 * |data|, j requires 0 <= j < 2 * |data| => Put16(Low16(|data[j / 2].payload|))[j % 2])
  }

  function SubHeader(data: seq<Datum>, p: nat, idx: nat): (h: seq<Byte>)
    ensures |h| == ParityHeaderSize(|data|)
  {
    Put16(Low16(|data|)) + Put16(Low16(idx)) + Put16(Low16(MaxLen(data))) + Put16(Low16(p))
    + SeqField(data) + LenField(data)
  }

  datatype Header = Header(k: U16, idx: U16, maxLen: U16, p: U16, seqs: seq<U32>, lens: seq<U16>)

  /** Reads a parity payload; None when it is too short or truncated. */
  function Parse(payload: seq<Byte>): (r: Option<(Header, Shard)>)
    ensures r.Some? ==> |r.value.0.seqs| == r.value.0.k == |r.value.0.lens| && |r.value.1| == r.value.0.maxLen
  {
    if |payload| < PARITY_HDR_FIXED then None
    else
      var k, idx, maxLen, p := Get16(payload, 0), Get16(payload, 2), Get16(payload, 4), Get16(payload, 6);
      var body := ParityHeaderSize(k);
      if |payload| < body + maxLen then None
      else
        Some((Header(k, idx, maxLen, p, SeqsIn(payload, k), LensIn(payload, k)), payload[body..body + maxLen]))
  }

  function SeqsIn(payload: seq<Byte>, k: nat): (s: seq<U32>)
    requires |payload| >= ParityHeaderSize(k)
    ensures |s| == k
  {
    seq(k, i requires 0 <= i < k => Get32(payload, PARITY_HDR_FIXED + 4 * i))
  }

  function LensIn(payload: seq<Byte>, k: nat): (s: seq<U16>)
    requires |payload| >= ParityHeaderSize(k)
    ensures |s| == k
  {
    seq(k, i requires 0 <= i < k => Get16(payload, PARITY_HDR_FIXED + 4 * k + 2 * i))
  }

  lemma SeqFieldAt(data: seq<Datum>, i: nat)
    requires i < |data|
    ensures Holds(SeqField(data), 4 * i, Put32(data[i].seqNo))
  {
    var field := Put32(data[i].seqNo);
    forall q | 0 <= q < 4 ensures SeqField(data)[4 * i + q] == field[q] {
      assert (4 * i + q) / 4 == i && (4 * i + q) % 4 == q;
    }
  }

  lemma LenFieldAt(data: seq<Datum>, i: nat)
    requires i < |data|
    ensures Holds(LenField(data), 2 * i, Put16(Low16(|data[i].payload|)))
  {
    var field := Put16(Low16(|data[i].payload|));
    forall q | 0 <= q < 2 ensures LenField(data)[2 * i + q] == field[q] {
      assert (2 * i + q) / 2 == i && (2 * i + q) % 2 == q;
    }
  }

  /** A block every field of whose header fits its 16 bits. */
  ghost predicate Fits(data: seq<Datum>, p: nat) {
    |data| < 0x1_0000 && p < 0x1_0000 && MaxLen(data) < 0x1_0000
  }

  /** Parsing a parity payload gives back every field of the block and the shard. */
  lemma ParseInverts(data: seq<Datum>, p: nat, idx: nat, shard: Shard)
    requires Fits(data, p) && idx < p && |shard| == MaxLen(data)
    ensures Parse(SubHeader(data, p, idx) + shard)
         == Some((Header(|data|, idx, MaxLen(data), p, SeqsOf(data), LensOf(data)), shard))
  {
    Layout(data, p, idx, shard);
    ParseLaidOut(SubHeader(data, p, idx) + shard, data, p, idx, MaxLen(data), shard);
  }

  lemma ParseLaidOut(b: seq<Byte>, data: seq<Datum>, p: nat, idx: nat, maxLen: nat, shard: Shard)
    requires |data| < 0x1_0000 && p < 0x1_0000 && maxLen < 0x1_0000 && idx < p && |shard| == maxLen
    requires Holds(b, 0, Put16(Low16(|data|))) && Holds(b, 2, Put16(Low16(idx)))
    requires Holds(b, 4, Put16(Low16(maxLen))) && Holds(b, 6, Put16(Low16(p)))
    requires Holds(b, 8, SeqField(data)) && Holds(b, 8 + 4 * |data|, LenField(data))
    requires Holds(b, ParityHeaderSize(|data|), shard)
    ensures Parse(b) == Some((Header(|data|, idx, maxLen, p, SeqsOf(data), LensOf(data)), shard))
  {
    ReadLow(b, 0, |data|);
    ReadLow(b, 2, idx);
    ReadLow(b, 4, maxLen);
    ReadLow(b, 6, p);
    ListsRead(b, data);
    SliceHeld(b, ParityHeaderSize(|data|), shard);
  }

  lemma SliceHeld(b: seq<Byte>, at: nat, part: seq<Byte>)
    requires Holds(b, at, part)
    ensures b[at..at + |part|] == part
  {}

  lemma ListsRead(b: seq<Byte>, data: seq<Datum>)
    requires Holds(b, 8, SeqField(data)) && Holds(b, 8 + 4 * |data|, LenField(data))
    ensures SeqsIn(b, |data|) == SeqsOf(data) && LensIn(b, |data|) == LensOf(data)
  {
    forall i | 0 <= i < |data|
      ensures SeqsIn(b, |data|)[i] == SeqsOf(data)[i] && LensIn(b, |data|)[i] == LensOf(data)[i]
    {
      ListAt(b, data, i);
    }
  }

  /** Where each part of a parity payload stands. */
  lemma PartsStand(w: seq<Byte>, x: seq<Byte>, y: seq<Byte>, z: seq<Byte>, s: seq<Byte>, l: seq<Byte>, t: seq<Byte>)
    requires |w| == 2 && |x| == 2 && |y| == 2 && |z| == 2
    ensures var b := w + x + y + z + s + l + t;
            && Holds(b, 0, w) && Holds(b, 2, x) && Holds(b, 4, y) && Holds(b, 6, z)
            && Holds(b, 8, s) && Holds(b, 8 + |s|, l) && Holds(b, 8 + |s| + |l|, t)
  {}

  lemma Layout(data: seq<Datum>, p: nat, idx: nat, shard: Shard)
    ensures var b := SubHeader(data, p, idx) + shard;
            && Holds(b, 0, Put16(Low16(|data|))) && Holds(b, 2, Put16(Low16(idx)))
            && Holds(b, 4, Put16(Low16(MaxLen(data)))) && Holds(b, 6, Put16(Low16(p)))
            && Holds(b, 8, SeqField(data)) && Holds(b, 8 + 4 * |data|, LenField(data))
            && Holds(b, ParityHeaderSize(|data|), shard)
  {
    PartsStand(Put16(Low16(|data|)), Put16(Low16(idx)), Put16(Low16(MaxLen(data))), Put16(Low16(p)),
               SeqField(data), LenField(data), shard);
  }

  lemma ReadLow(b: seq<Byte>, at: nat, n: nat)
    requires n < 0x1_0000 && Holds(b, at, Put16(Low16(n)))
    ensures Get16(b, at) == n
  {
    Read16(b, at, n);
  }

  lemma ListAt(b: seq<Byte>, data: seq<Datum>, i: nat)
    requires i < |data|
    requires Holds(b, 8, SeqField(data)) && Holds(b, 8 + 4 * |data|, LenField(data))
    ensures Get32(b, 8 + 4 * i) == data[i].seqNo
    ensures Get16(b, 8 + 4 * |data| + 2 * i) == Low16(|data[i].payload|)
  {
    SeqFieldAt(data, i);
    LenFieldAt(data, i);
    HoldsInside(b, 8, SeqField(data), 4 * i, Put32(data[i].seqNo));
    HoldsInside(b, 8 + 4 * |data|, LenField(data), 2 * i, Put16(Low16(|data[i].payload|)));
    Read32(b, 8 + 4 * i, data[i].seqNo);
    Read16(b, 8 + 4 * |data| + 2 * i, Low16(|data[i].payload|));
  }

  function SeqsOf(data: seq<Datum>): (s: seq<U32>)
    ensures |s| == |data|
  {
    seq(|data|, i requires 0 <= i < |data| => data[i].seqNo)
  }

  function LensOf(data: seq<Datum>): (s: seq<U16>)
    ensures |s| == |data|
  {
    seq(|data|, i requires 0 <= i < |data| => Low16(|data[i].payload|))
  }

  // ---------------------------------------------------------------------
  // The frames of a block.

  function ParityShards(lib: Library, b: Block): seq<Shard> {
    lib.parity(Code(|b.data|, b.p), DataShards(b.data))
  }

  function ParityFrame(b: Block, shard: Shard, idx: nat): (f: Frame)
    ensures IsParity(f) && !IsPass(f)
  {
    Frame(0, FLAG_FEC_PARITY, b.session, 0, b.id, SubHeader(b.data, b.p, idx) + shard)
  }

  /**
   A block an encoder with k data shards seals: ascending numbers, and parity only on a full block with some payload.
   */
  ghost predicate ValidBlock(lib: Library, k: nat, b: Block) {
    && 0 < |b.data| <= k
    && b.id > 0
    && (forall i, j :: 0 <= i < j < |b.data| ==> b.data[i].seqNo < b.data[j].seqNo)
    && (b.p > 0 ==> |b.data| == k && MaxLen(b.data) > 0 && lib.supports(k, b.p) && Fits(b.data, b.p))
  }

  /** f is the i-th frame of the block as it arrives: only the fields a decoder reads matter. */
  ghost predicate IsFrame(lib: Library, b: Block, i: nat, f: Frame)
    requires i < |b.data| + b.p
  {
    && f.session == b.session && f.blockSeq == b.id && !IsPass(f)
    && if i < |b.data|
       then !IsParity(f) && f.seqNo == b.data[i].seqNo && f.payload == b.data[i].payload
       else
         && IsParity(f)
         && |ParityShards(lib, b)| == b.p
         && f.payload == SubHeader(b.data, b.p, i - |b.data|) + ParityShards(lib, b)[i - |b.data|]
  }

  /** The block's content as a decoder should hand it on. */
  function Content(b: Block): (out: seq<Frame>)
    ensures |out| == |b.data|
  {
    seq(|b.data|, i requires 0 <= i < |b.data| => Delivered(b.session, b.data[i].seqNo, b.data[i].payload))
  }
}
