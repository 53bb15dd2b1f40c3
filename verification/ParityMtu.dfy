/** The largest frame is a parity frame: when it fits the path MTU, and where nothing makes sure that it does. */
module ParityMtu {
  import opened Bytes
  import opened Erasure
  import opened Frames
  import opened FecBlock
  import opened FecSizing
  import opened FecEncoder

  /** Bytes of a frame on the wire: header, payload, authentication tag. */
  function WireSize(f: Frame): nat { FRAME_OVERHEAD + |f.payload| }

  /** The longest inner datagram whose parity frames fit, with k data shards. */
  function MaxInner(k: nat): int { PATH_MTU - FRAME_OVERHEAD - ParityHeaderSize(k) }

  /** A sealed block of k frames with parity. */
  ghost predicate Coded(lib: Library, k: nat, b: Block) {
    b.p > 0 && |b.data| == k && lib.supports(k, b.p) && MaxLen(b.data) > 0
  }

  lemma ParitySize(lib: Library, k: nat, b: Block, j: nat)
    requires ErasureContract(lib) && Coded(lib, k, b) && j < b.p
    ensures WireSize(ParityFrames(lib, b)[j]) == FRAME_OVERHEAD + ParityHeaderSize(k) + MaxLen(b.data)
  {
    assert EncodesTo(lib, Code(k, b.p), DataShards(b.data), MaxLen(b.data));
    var shards := ParityShards(lib, b);
    assert ParityFrames(lib, b)[j] == ParityFrame(b, shards[j], j);
  }

  /** A parity frame fits the path exactly when the longest payload of its block is at most MaxInner. */
  lemma FitsIff(lib: Library, k: nat, b: Block, j: nat)
    requires ErasureContract(lib) && Coded(lib, k, b) && j < b.p
    ensures WireSize(ParityFrames(lib, b)[j]) <= PATH_MTU <==> MaxLen(b.data) <= MaxInner(k)
  {
    ParitySize(lib, k, b, j);
  }

  ghost predicate WithinMtu(b: Block, mtu: int) { forall i :: 0 <= i < |b.data| ==> |b.data[i].payload| <= mtu }

  lemma {:induction false} MaxWithin(data: seq<Datum>, mtu: int, n: nat)
    requires n <= |data| && mtu >= 0 && forall i :: 0 <= i < |data| ==> |data[i].payload| <= mtu
    ensures MaxLenTo(data, n) <= mtu
  {
    if n > 0 { MaxWithin(data, mtu, n - 1); }
  }

  /** Accepted parameters of the fixed and the adaptive mode leave room for the parity of any inner datagrams. */
  lemma ParityFits(lib: Library, c: Config, wanPct: Option<real>, b: Block, j: nat)
    requires ErasureContract(lib) && c.enabled && (c.mode.Fixed? || c.mode.AdaptiveMode?) && c.mtu >= 0
    requires ParamsFor(c, wanPct).Some? && Coded(lib, ParamsFor(c, wanPct).value.k, b) && WithinMtu(b, c.mtu) && j < b.p
    ensures WireSize(ParityFrames(lib, b)[j]) <= PATH_MTU
  {
    var k := ParamsFor(c, wanPct).value.k;
    MaxWithin(b.data, c.mtu, |b.data|);
    FitsIff(lib, k, b, j);
  }

  /**
   Cross-path parameters are accepted whatever the MTU: with the default of 1420 and ten data shards, the parity of a
   block with a full-sized datagram takes 1532 bytes.
   */
  lemma CrossPathTooLong(lib: Library, b: Block, j: nat)
    requires ErasureContract(lib) && Coded(lib, 10, b) && MaxLen(b.data) == 1420 && j < b.p
    ensures var c := Config(true, CrossPath, 10, 30.0, 0.0, 1.0, DEFAULT_BLOCK_TIMEOUT, 0.0, 0.0, 0, 1420);
            && ParamsFor(c, None).Some? && ParamsFor(c, None).value.k == 10
            && WireSize(ParityFrames(lib, b)[j]) == 1532 > PATH_MTU
  {
    ParitySize(lib, 10, b, j);
  }
}
