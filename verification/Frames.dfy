/** Tunnel frames: header fields and plaintext payload. */
module Frames {
  import opened Bytes

  // Flag bits used by the data plane.
  const FLAG_FEC_PARITY := 1
  const FLAG_PASS_SEQ := 64

  datatype Frame = Frame(version: Byte, flags: Byte, session: U64, seqNo: U32, blockSeq: U32, payload: seq<Byte>)

  predicate IsParity(f: Frame) { f.flags % 2 == 1 }

  predicate IsPass(f: Frame) { f.flags / 64 % 2 == 1 }

  /** f.Flags |= FlagPassSeq */
  function MarkPass(f: Frame): (g: Frame)
    ensures IsPass(g) && (IsParity(g) <==> IsParity(f))
  {
    if IsPass(f) then f else f.(flags := f.flags + FLAG_PASS_SEQ)
  }

  /** What a decoder hands on: session, number and payload only. */
  function Delivered(session: U64, seqNo: U32, payload: seq<Byte>): Frame {
    Frame(0, 0, session, seqNo, 0, payload)
  }
}
