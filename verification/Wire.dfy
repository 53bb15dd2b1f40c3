/** A frame over the wire: encoded, put into a FakeTCP segment, parsed and decoded. */
module Wire {
  import opened Bytes
  import opened Frames
  import FrameWire
  import FakeTcp
  import Checksum

  /** Every frame whose segment fits 65535 bytes comes back unchanged, and both checksums verify. */
  lemma FrameSurvives(f: Frame, id: U16, src: FakeTcp.Addr, dst: FakeTcp.Addr, ports: FakeTcp.Ports, seqNo: U32,
                      ack: U32, flags: Byte)
    requires FakeTcp.IP_HDR_LEN + FakeTcp.TCP_HDR_LEN + FrameWire.HEADER_SIZE + |f.payload| <= 0xFFFF
    requires flags % 2 == 0 && flags / 4 % 2 == 0
    ensures FrameWire.Encoded(f).Some?
    ensures var b := FakeTcp.Segment(id, src, dst, ports, seqNo, ack, flags, FrameWire.Encoded(f).value);
            && FakeTcp.Roomy(b) && FakeTcp.ParseSegment(b).Some?
            && FrameWire.Decode(FakeTcp.ParseSegment(b).value.payload) == Some(f.(version := FrameWire.VERSION))
            && Checksum.Of(Checksum.Sum(b[..FakeTcp.IP_HDR_LEN])) == 0
            && FakeTcp.ValidTcpChecksum(src, dst, b[FakeTcp.IP_HDR_LEN..])
  {
    FrameWire.DecodeInverts(f);
    FakeTcp.SegmentRoundTrip(id, src, dst, ports, seqNo, ack, flags, FrameWire.Encoded(f).value);
  }
}
