/** The encoder as it runs: fields updated in place, proved against the steps of FecEncoder. */
module FecEncoderObject {
  import opened Bytes
  import opened Erasure
  import opened Frames
  import opened FecBlock
  import opened FecSizing
  import opened FecEncoder
  import opened Buffers

  class Encoder {
    const lib: Library
    const params: Params
    var rs: Option<Code>
    var block: U32
    var pending: seq<Frame>
    var blockStart: int
    var lossRate: real
    var codingOn: bool
    var codingSince: int
    var rsParity: int
    var blocksCoded: nat

    ghost function State(): Enc
      reads this
    {
      Enc(params, rs, block, pending, blockStart, lossRate, codingOn, codingSince, rsParity, blocksCoded)
    }

    ghost predicate Valid()
      reads this
    {
      Invariant(lib, State())
    }

    /** The encoder for a geometry the library makes; NewEncoder finds out whether it does. */
    constructor (lib: Library, p: Params)
      requires Sane(p) && FecEncoder.Fresh(lib, p).Some?
      ensures this.lib == lib && Valid() && State() == FecEncoder.Fresh(lib, p).value
    {
      var q := Normalized(p);
      this.lib := lib;
      params := q;
      rs := if Enabled(q) then New(lib, q.k, q.parity) else None;
      block, pending, blockStart := 0, [], 0;
      lossRate, codingOn, codingSince := 0.0, q.adaptive.None? || q.crossPath, 0;
      rsParity, blocksCoded := q.parity, 0;
      new;
      FreshInvariant(lib, p);
    }

    method SetLossRate(rate: real, now: int)
      requires Valid()
      modifies this
      ensures Valid() && State() == FecEncoder.SetLoss(lib, old(State()), rate, now)
    {
      StepKeeps(lib, State(), LossSet(rate, now));
      var r := rate;
      if r < 0.0 { r := 0.0; }
      if r > 1.0 { r := 1.0; }
      lossRate := r;
      RefreshLocked(now);
    }

    method RefreshLocked(now: int)
      requires Ready(State())
      modifies this
      ensures State() == FecEncoder.Refresh(lib, old(State()), now)
    {
      if params.adaptive.None? || params.crossPath {
        codingOn := true;
        if params.crossPath {
          RebuildLocked();
        }
        return;
      }
      var a := params.adaptive.value;
      var lossPct := lossRate * 100.0;
      if !codingOn {
        if lossPct >= a.onPct {
          codingOn := true;
          codingSince := now;
        }
      } else if lossPct < a.offPct && now - codingSince >= a.hold {
        codingOn := false;
      }
      if codingOn {
        RebuildLocked();
      }
    }

    method RebuildLocked()
      requires Ready(State())
      modifies this
      ensures State() == Rebuild(lib, old(State()))
    {
      var parity := ParityForLoss(params, lossRate);
      if parity != rsParity {
        var made := New(lib, params.k, parity);
        if made.None? {
          return;
        }
        rs := made;
        rsParity := parity;
      }
    }

    method Push(f: Frame, now: int) returns (out: seq<Frame>)
      requires Valid() && ErasureContract(lib)
      modifies this
      ensures Valid() && (State(), out) == FecEncoder.Push(lib, old(State()), f, now)
    {
      StepKeeps(lib, State(), Pushed(f, now));
      if !Enabled(params) {
        out := MarkPassSeq([f]);
        return;
      }
      RefreshKeeps(lib, State(), now);
      RefreshLocked(now);
      if !codingOn {
        out := MarkPassSeq(pending + [f]);
        pending := [];
        return;
      }
      if |pending| == 0 {
        blockStart := now;
      }
      pending := pending + [f];
      if |pending| < params.k {
        return [];
      }
      out := EmitBlock();
    }

    method Tick(now: int) returns (out: seq<Frame>)
      requires Valid()
      modifies this
      ensures Valid() && (State(), out) == FecEncoder.Tick(lib, old(State()), now)
    {
      StepKeeps(lib, State(), Ticked(now));
      if !Enabled(params) {
        return [];
      }
      RefreshKeeps(lib, State(), now);
      RefreshLocked(now);
      if !codingOn {
        out := pending;
        pending := [];
        return;
      }
      if |pending| == 0 || now < blockStart + params.timeout {
        return [];
      }
      ghost var b := SealedBlock(State(), false);
      block := (block + 1) % TWO32;
      blocksCoded := blocksCoded + 1;
      out := StampAll(pending, block);
      pending := [];
      assert out == out + ParityFrames(lib, b);
    }

    /** Stamps the data frames, pads them into shards, and appends one self-describing frame per parity shard. */
    method EmitBlock() returns (out: seq<Frame>)
      requires pending != [] && params.k == |pending| && rsParity >= 0 && rs == Some(Code(params.k, rsParity))
      requires ErasureContract(lib) && lib.supports(params.k, rsParity)
      modifies this
      ensures (State(), out) == Seal(lib, old(State()), true)
    {
      ghost var b := SealedBlock(State(), true);
      block := (block + 1) % TWO32;
      blocksCoded := blocksCoded + 1;
      var frames := pending;
      pending := [];

      var data, maxLen := Measure(frames);
      out := StampAll(frames, block);
      if maxLen == 0 {
        // Encode refuses empty shards: the data goes out without parity.
        assert out == out + ParityFrames(lib, b);
        return;
      }
      var shards := PadShards(data, maxLen);
      assert EncodesTo(lib, rs.value, shards, maxLen);
      var coded := ParityList(lib, Block(frames[0].session, block, data, rsParity), lib.parity(rs.value, shards));
      out := out + coded;
    }
  }

  method Measure(frames: seq<Frame>) returns (data: seq<Datum>, maxLen: nat)
    ensures data == Datums(frames) && maxLen == MaxLen(data)
  {
    data, maxLen := [], 0;
    for i := 0 to |frames|
      invariant data == Datums(frames)[..i]
      invariant maxLen == MaxLenTo(Datums(frames), i)
    {
      data := data + [Datum(frames[i].seqNo, frames[i].payload)];
      if |frames[i].payload| > maxLen {
        maxLen := |frames[i].payload|;
      }
    }
  }

  method PadShards(data: seq<Datum>, maxLen: nat) returns (shards: seq<Shard>)
    requires maxLen == MaxLen(data)
    ensures shards == DataShards(data)
  {
    shards := [];
    for i := 0 to |data|
      invariant shards == DataShards(data)[..i]
    {
      shards := shards + [Padded(data[i].payload, maxLen)];
    }
  }

  /** One buffer serves all parity frames: only the index and the shard change from frame to frame. */
  method ParityList(ghost lib: Library, b: Block, parity: seq<Shard>) returns (coded: seq<Frame>)
    requires parity == ParityShards(lib, b) && |parity| == b.p && Uniform(parity, MaxLen(b.data))
    ensures coded == ParityFrames(lib, b)
  {
    coded := [];
    var k, maxLen := |b.data|, MaxLen(b.data);
    var sub := SubBuffer(b.data, b.p, maxLen);
    for i := 0 to b.p
      invariant coded == ParityFrames(lib, b)[..i]
      invariant Common(sub[..], b.data, b.p)
    {
      WrittenCommon(sub[..], b.data, b.p, i, parity[i]);
      Write(sub, 2, Put16(Low16(i)));
      Write(sub, ParityHeaderSize(k), parity[i]);
      coded := coded + [Frame(0, FLAG_FEC_PARITY, b.session, 0, b.id, sub[..])];
    }
  }

  /** The parts of the buffer that all parity frames of a block share. */
  ghost predicate Common(sub: seq<Byte>, data: seq<Datum>, p: nat) {
    && |sub| == ParityHeaderSize(|data|) + MaxLen(data)
    && Holds(sub, 0, Put16(Low16(|data|))) && Holds(sub, 4, Put16(Low16(MaxLen(data))))
    && Holds(sub, 6, Put16(Low16(p)))
    && Holds(sub, 8, SeqField(data)) && Holds(sub, 8 + 4 * |data|, LenField(data))
  }

  /** Writing index and shard keeps the common parts and completes the payload. */
  lemma WrittenCommon(sub: seq<Byte>, data: seq<Datum>, p: nat, idx: nat, shard: Shard)
    requires Common(sub, data, p) && |shard| == MaxLen(data)
    ensures var done := Written(Written(sub, 2, Put16(Low16(idx))), ParityHeaderSize(|data|), shard);
            Common(done, data, p) && done == SubHeader(data, p, idx) + shard
  {
    var field, body := Put16(Low16(idx)), ParityHeaderSize(|data|);
    var mid := Written(sub, 2, field);
    WrittenCommonOne(sub, data, p, 2, field);
    WrittenHolds(sub, 2, field);
    var done := Written(mid, body, shard);
    WrittenCommonOne(mid, data, p, body, shard);
    WrittenKeeps(mid, body, shard, 2, field);
    WrittenHolds(mid, body, shard);
    Laid(done, data, p, idx, shard);
  }

  lemma WrittenCommonOne(sub: seq<Byte>, data: seq<Datum>, p: nat, at: nat, field: seq<Byte>)
    requires Common(sub, data, p)
    requires (at == 2 && |field| == 2) || (at == ParityHeaderSize(|data|) && |field| == MaxLen(data))
    ensures Common(Written(sub, at, field), data, p)
  {
    WrittenKeeps(sub, at, field, 0, Put16(Low16(|data|)));
    WrittenKeeps(sub, at, field, 4, Put16(Low16(MaxLen(data))));
    WrittenKeeps(sub, at, field, 6, Put16(Low16(p)));
    WrittenKeeps(sub, at, field, 8, SeqField(data));
    WrittenKeeps(sub, at, field, 8 + 4 * |data|, LenField(data));
  }

  lemma Laid(b: seq<Byte>, data: seq<Datum>, p: nat, idx: nat, shard: Shard)
    requires Common(b, data, p) && |shard| == MaxLen(data)
    requires Holds(b, 2, Put16(Low16(idx))) && Holds(b, ParityHeaderSize(|data|), shard)
    ensures b == SubHeader(data, p, idx) + shard
  {
    hide SubHeader;
    hide SeqField;
    hide LenField;
    hide Put16;
    hide MaxLen;
    hide Holds;
    hide Agree;
    var whole := SubHeader(data, p, idx) + shard;
    Layout(data, p, idx, shard);
    AgreeNone(b, whole);
    AgreeFurther(b, whole, 0, Put16(Low16(|data|)));
    AgreeFurther(b, whole, 2, Put16(Low16(idx)));
    AgreeFurther(b, whole, 4, Put16(Low16(MaxLen(data))));
    AgreeFurther(b, whole, 6, Put16(Low16(p)));
    AgreeFurther(b, whole, 8, SeqField(data));
    AgreeFurther(b, whole, 8 + 4 * |data|, LenField(data));
    AgreeFurther(b, whole, ParityHeaderSize(|data|), shard);
    AgreeAll(b, whole);
  }

  /** The first n bytes are the same. */
  ghost predicate Agree(b: seq<Byte>, c: seq<Byte>, n: nat) {
    n <= |b| && n <= |c| && forall j :: 0 <= j < n ==> b[j] == c[j]
  }

  lemma AgreeNone(b: seq<Byte>, c: seq<Byte>)
    ensures Agree(b, c, 0)
  {}

  lemma AgreeFurther(b: seq<Byte>, c: seq<Byte>, at: nat, field: seq<Byte>)
    requires Agree(b, c, at) && Holds(b, at, field) && Holds(c, at, field)
    ensures Agree(b, c, at + |field|)
  {
    forall j | at <= j < at + |field| ensures b[j] == c[j] {
      assert b[at + (j - at)] == field[j - at];
      assert c[at + (j - at)] == field[j - at];
    }
  }

  lemma AgreeAll(b: seq<Byte>, c: seq<Byte>)
    requires |b| == |c| && Agree(b, c, |b|)
    ensures b == c
  {}

  method SubBuffer(data: seq<Datum>, p: nat, maxLen: nat) returns (sub: array<Byte>)
    requires maxLen == MaxLen(data)
    ensures fresh(sub) && Common(sub[..], data, p)
  {
    var k := |data|;
    sub := new Byte[ParityHeaderSize(k) + maxLen](_ => 0);
    FillLists(sub, data);
    ghost var lists := sub[..];
    Write(sub, 0, Put16(Low16(k)));
    Write(sub, 6, Put16(Low16(p)));
    Write(sub, 4, Put16(Low16(maxLen)));
    FixedKeep(lists, data, p);
  }

  lemma FixedKeep(sub: seq<Byte>, data: seq<Datum>, p: nat)
    requires |sub| == ParityHeaderSize(|data|) + MaxLen(data)
    requires Holds(sub, 8, SeqField(data)) && Holds(sub, 8 + 4 * |data|, LenField(data))
    ensures Common(Written(Written(Written(sub, 0, Put16(Low16(|data|))), 6, Put16(Low16(p))), 4,
                           Put16(Low16(MaxLen(data)))), data, p)
  {
    var a := Written(sub, 0, Put16(Low16(|data|)));
    var b := Written(a, 6, Put16(Low16(p)));
    KeepLists(sub, data, 0, Put16(Low16(|data|)));
    KeepLists(a, data, 6, Put16(Low16(p)));
    KeepLists(b, data, 4, Put16(Low16(MaxLen(data))));
  }

  lemma KeepLists(sub: seq<Byte>, data: seq<Datum>, at: nat, field: seq<Byte>)
    requires at + |field| <= 8 <= |sub|
    requires Holds(sub, 8, SeqField(data)) && Holds(sub, 8 + 4 * |data|, LenField(data))
    ensures var done := Written(sub, at, field);
            Holds(done, at, field) && Holds(done, 8, SeqField(data)) && Holds(done, 8 + 4 * |data|, LenField(data))
  {
    WrittenHolds(sub, at, field);
    WrittenKeeps(sub, at, field, 8, SeqField(data));
    WrittenKeeps(sub, at, field, 8 + 4 * |data|, LenField(data));
  }

  method FillLists(sub: array<Byte>, data: seq<Datum>)
    requires sub.Length >= ParityHeaderSize(|data|)
    modifies sub
    ensures Holds(sub[..], 8, SeqField(data)) && Holds(sub[..], 8 + 4 * |data|, LenField(data))
  {
    FillSeqs(sub, data);
    FillLens(sub, data);
  }

  method FillSeqs(sub: array<Byte>, data: seq<Datum>)
    requires sub.Length >= ParityHeaderSize(|data|)
    modifies sub
    ensures forall j :: 0 <= j < 4 * |data| ==> sub[8 + j] == SeqField(data)[j]
  {
    for i := 0 to |data|
      invariant forall j :: 0 <= j < 4 * i ==> sub[8 + j] == SeqField(data)[j]
    {
      Write(sub, 8 + 4 * i, Put32(data[i].seqNo));
    }
  }

  method FillLens(sub: array<Byte>, data: seq<Datum>)
    requires sub.Length >= ParityHeaderSize(|data|)
    modifies sub
    ensures forall j :: 0 <= j < 8 + 4 * |data| ==> sub[j] == old(sub[j])
    ensures forall j :: 0 <= j < 2 * |data| ==> sub[8 + 4 * |data| + j] == LenField(data)[j]
  {
    var from := 8 + 4 * |data|;
    for i := 0 to |data|
      invariant forall j :: 0 <= j < from ==> sub[j] == old(sub[j])
      invariant forall j :: 0 <= j < 2 * i ==> sub[from + j] == LenField(data)[j]
    {
      Write(sub, from + 2 * i, Put16(Low16(|data[i].payload|)));
    }
  }

  /** An encoder, or none when the library refuses the geometry. */
  method NewEncoder(lib: Library, p: Params) returns (e: Option<Encoder>)
    requires Sane(p)
    ensures e.Some? <==> FecEncoder.Fresh(lib, p).Some?
    ensures e.Some? ==>
              fresh(e.value) && e.value.lib == lib && e.value.Valid()
                && e.value.State() == FecEncoder.Fresh(lib, p).value
  {
    var q := Normalized(p);
    if Enabled(q) && New(lib, q.k, q.parity).None? { return None; }
    var made := new Encoder(lib, p);
    return Some(made);
  }

  method MarkPassSeq(frames: seq<Frame>) returns (out: seq<Frame>)
    ensures out == MarkAll(frames)
    ensures forall i :: 0 <= i < |out| ==> IsPass(out[i]) && IdOf(out[i]) == IdOf(frames[i])
  {
    out := [];
    for i := 0 to |frames|
      invariant out == MarkAll(frames)[..i]
    {
      out := out + [MarkPass(frames[i])];
    }
  }

  method StampAll(frames: seq<Frame>, id: U32) returns (out: seq<Frame>)
    ensures out == Stamp(frames, id)
  {
    out := [];
    for i := 0 to |frames|
      invariant out == Stamp(frames, id)[..i]
    {
      out := out + [frames[i].(blockSeq := id)];
    }
  }
}
