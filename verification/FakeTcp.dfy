/** The FakeTCP wire image: an IPv4 header (section 3.1 of RFC 791) and a TCP header (section 3.1 of RFC 9293). */
module FakeTcp {
  import opened Bytes
  import opened Buffers
  import Checksum

  const IP_HDR_LEN := 20
  const TCP_HDR_LEN := 20

  type Addr = a: seq<Byte> | |a| == 4 witness [0, 0, 0, 0]

  datatype Ports = Ports(src: U16, dst: U16)

  // ---------------------------------------------------------------------
  // The image.

  /** The IPv4 header with its checksum field still zero. */
  function IpHeader(total: nat, id: U16, src: Addr, dst: Addr): (h: seq<Byte>)
    ensures |h| == IP_HDR_LEN
  {
    [0x45] + Zeros(1) + Put16(Low16(total)) + Put16(id) + Zeros(2) + [64, 6] + Zeros(2) + src + dst
  }

  /** The TCP header and payload, with the checksum field still zero. */
  function TcpPart(ports: Ports, seqNo: U32, ack: U32, flags: Byte, payload: seq<Byte>): (t: seq<Byte>)
    ensures |t| == TCP_HDR_LEN + |payload|
  {
    Put16(ports.src) + Put16(ports.dst) + Put32(seqNo) + Put32(ack) + [0x50, flags] + Put16(0xFFFF) + Zeros(4) + payload
  }

  function PseudoSum(src: Addr, dst: Addr, tcp: seq<Byte>): nat {
    Checksum.Sum(src) + Checksum.Sum(dst) + 6 + |tcp| + Checksum.Sum(tcp)
  }

  function IpSealed(h: seq<Byte>): (s: seq<Byte>)
    requires |h| == IP_HDR_LEN
    ensures |s| == |h|
  {
    Written(h, 10, Put16(Checksum.Of(Checksum.Sum(h))))
  }

  function TcpSealed(src: Addr, dst: Addr, t: seq<Byte>): (s: seq<Byte>)
    requires |t| >= TCP_HDR_LEN
    ensures |s| == |t|
  {
    Written(t, 16, Put16(Checksum.Of(PseudoSum(src, dst, t))))
  }

  function Segment(id: U16, src: Addr, dst: Addr, ports: Ports, seqNo: U32, ack: U32, flags: Byte,
                   payload: seq<Byte>): seq<Byte> {
    IpSealed(IpHeader(IP_HDR_LEN + TCP_HDR_LEN + |payload|, id, src, dst))
    + TcpSealed(src, dst, TcpPart(ports, seqNo, ack, flags, payload))
  }

  // ---------------------------------------------------------------------
  // Parsing.

  datatype Parsed = Parsed(payload: seq<Byte>, src: Addr, srcPort: U16, dstPort: U16, syn: bool, seqNo: U32)

  function HeaderLen(b: seq<Byte>): nat
    requires |b| >= 1
  {
    b[0] % 16 * 4
  }

  /** The IP total length, or the whole datagram when that is zero or too large. */
  function Extent(b: seq<Byte>): nat
    requires |b| >= 4
  {
    var total := Get16(b, 2);
    if total == 0 || total > |b| then |b| else total
  }

  /** The length field leaves room for the TCP fields that are read. */
  predicate Roomy(b: seq<Byte>) {
    |b| >= IP_HDR_LEN && HeaderLen(b) >= IP_HDR_LEN && |b| >= HeaderLen(b) + TCP_HDR_LEN ==>
      Extent(b) >= HeaderLen(b) + 14
  }

  predicate ValidTcpChecksum(src: Addr, dst: Addr, tcp: seq<Byte>) {
    |tcp| >= TCP_HDR_LEN && Checksum.Of(PseudoSum(src, dst, tcp)) == 0
  }

  function ParseSegment(b: seq<Byte>): Option<Parsed>
    requires Roomy(b)
  {
    if |b| < IP_HDR_LEN || b[0] / 16 != 4 then None
    else if HeaderLen(b) < IP_HDR_LEN || |b| < HeaderLen(b) + TCP_HDR_LEN then None
    else if b[9] != 6 || Get16(b, 6) % 0x2000 != 0 then None
    else ParseTcp(b[12..16], b[16..20], b[HeaderLen(b)..Extent(b)])
  }

  function ParseTcp(src: Addr, dst: Addr, tcp: seq<Byte>): Option<Parsed>
    requires |tcp| >= 14
  {
    var flags := tcp[13];
    if flags % 2 == 1 || flags / 4 % 2 == 1 then None  // FIN or RST
    else if !ValidTcpChecksum(src, dst, tcp) then None
    else
      var off := tcp[12] / 16 * 4;
      if off < TCP_HDR_LEN || off > |tcp| then None
      else Some(Parsed(tcp[off..], src, Get16(tcp, 0), Get16(tcp, 2), flags / 2 % 2 == 1, Get32(tcp, 4)))
  }

  // ---------------------------------------------------------------------
  // Round trip.

  /** Sums of images of up to 65535 bytes stay far from 32 bits. */
  lemma SmallSum(b: seq<Byte>)
    ensures |b| <= 0xFFFF ==> Checksum.Sum(b) <= 0xFFFF * 0x8000
    ensures |b| <= 4 ==> Checksum.Sum(b) <= 0xFFFF * 2
  {
    Checksum.SumBound(b, Checksum.Words(b));
  }

  /** The sealed header verifies. */
  lemma IpVerifies(h: seq<Byte>)
    requires |h| == IP_HDR_LEN && h[10] == h[11] == 0
    ensures Checksum.Of(Checksum.Sum(IpSealed(h))) == 0
  {
    var c := Checksum.Of(Checksum.Sum(h));
    SmallSum(h);
    Checksum.SumWritten(h, 10, c, Checksum.Words(h));
    Checksum.Verifies(Checksum.Sum(h));
  }

  /** The sealed segment verifies, for odd and for even lengths. */
  lemma TcpVerifies(src: Addr, dst: Addr, t: seq<Byte>)
    requires TCP_HDR_LEN <= |t| <= 0xFFFF && t[16] == t[17] == 0
    ensures ValidTcpChecksum(src, dst, TcpSealed(src, dst, t))
  {
    var s := PseudoSum(src, dst, t);
    SmallSum(src);
    SmallSum(dst);
    SmallSum(t);
    Checksum.SumWritten(t, 16, Checksum.Of(s), Checksum.Words(t));
    Checksum.Verifies(s);
  }

  /** What a parser reads of a header, as IpHeader lays it out. */
  ghost predicate IpLaid(h: seq<Byte>, total: U16, src: Addr, dst: Addr) {
    && |h| == IP_HDR_LEN && h[0] == 0x45 && Holds(h, 2, Put16(total)) && Holds(h, 6, Zeros(2)) && h[9] == 6
    && Holds(h, 12, src) && Holds(h, 16, dst)
  }

  lemma IpHeaderLaid(total: nat, id: U16, src: Addr, dst: Addr)
    ensures var h := IpHeader(total, id, src, dst); IpLaid(h, Low16(total), src, dst) && h[10] == h[11] == 0
  {}

  lemma SealedIpLaid(h: seq<Byte>, total: U16, src: Addr, dst: Addr)
    requires IpLaid(h, total, src, dst)
    ensures IpLaid(IpSealed(h), total, src, dst)
  {
    var c := Put16(Checksum.Of(Checksum.Sum(h)));
    WrittenKeeps(h, 10, c, 2, Put16(total));
    WrittenKeeps(h, 10, c, 6, Zeros(2));
    WrittenKeeps(h, 10, c, 12, src);
    WrittenKeeps(h, 10, c, 16, dst);
  }

  ghost predicate TcpLaid(t: seq<Byte>, ports: Ports, seqNo: U32, flags: Byte, payload: seq<Byte>) {
    && |t| == TCP_HDR_LEN + |payload| && Holds(t, 0, Put16(ports.src)) && Holds(t, 2, Put16(ports.dst))
    && Holds(t, 4, Put32(seqNo)) && t[12] == 0x50 && t[13] == flags && Holds(t, TCP_HDR_LEN, payload)
  }

  lemma TcpPartLaid(ports: Ports, seqNo: U32, ack: U32, flags: Byte, payload: seq<Byte>)
    ensures var t := TcpPart(ports, seqNo, ack, flags, payload);
            TcpLaid(t, ports, seqNo, flags, payload) && t[16] == t[17] == 0
  {}

  lemma SealedTcpLaid(src: Addr, dst: Addr, t: seq<Byte>, ports: Ports, seqNo: U32, flags: Byte, payload: seq<Byte>)
    requires TcpLaid(t, ports, seqNo, flags, payload)
    ensures TcpLaid(TcpSealed(src, dst, t), ports, seqNo, flags, payload)
  {
    var c := Put16(Checksum.Of(PseudoSum(src, dst, t)));
    WrittenKeeps(t, 16, c, 0, Put16(ports.src));
    WrittenKeeps(t, 16, c, 2, Put16(ports.dst));
    WrittenKeeps(t, 16, c, 4, Put32(seqNo));
    WrittenKeeps(t, 16, c, TCP_HDR_LEN, payload);
  }

  lemma LaidTcpParses(src: Addr, dst: Addr, t: seq<Byte>, ports: Ports, seqNo: U32, flags: Byte, payload: seq<Byte>)
    requires TcpLaid(t, ports, seqNo, flags, payload) && ValidTcpChecksum(src, dst, t)
    requires flags % 2 == 0 && flags / 4 % 2 == 0
    ensures ParseTcp(src, dst, t) == Some(Parsed(payload, src, ports.src, ports.dst, flags / 2 % 2 == 1, seqNo))
  {
    Read16(t, 0, ports.src);
    Read16(t, 2, ports.dst);
    Read32(t, 4, seqNo);
    assert t[TCP_HDR_LEN..] == payload;
  }

  lemma LaidIpParses(h: seq<Byte>, t: seq<Byte>, src: Addr, dst: Addr)
    requires |t| >= TCP_HDR_LEN && |h| == IP_HDR_LEN && |h + t| <= 0xFFFF && IpLaid(h, |h + t|, src, dst)
    ensures Roomy(h + t) && ParseSegment(h + t) == ParseTcp(src, dst, t)
  {
    var b := h + t;
    Read16(h, 2, |b|);
    assert Get16(b, 2) == Get16(h, 2);
    assert Zeros(2)[0] == 0 && Zeros(2)[1] == 0;
    assert h[6 + 0] == 0 && h[6 + 1] == 0;
    assert Get16(b, 6) == 0;
    assert b[12..16] == src && b[16..20] == dst;
    assert b[20..|b|] == t;
  }

  /**
   Every payload whose segment fits 65535 bytes survives the trip: the receiver gets the payload, the source,
   the ports and the sequence number back, and both checksums verify.
   */
  lemma SegmentRoundTrip(id: U16, src: Addr, dst: Addr, ports: Ports, seqNo: U32, ack: U32, flags: Byte,
                         payload: seq<Byte>)
    requires IP_HDR_LEN + TCP_HDR_LEN + |payload| <= 0xFFFF && flags % 2 == 0 && flags / 4 % 2 == 0
    ensures var b := Segment(id, src, dst, ports, seqNo, ack, flags, payload);
            && Roomy(b) && Checksum.Of(Checksum.Sum(b[..IP_HDR_LEN])) == 0
            && ValidTcpChecksum(src, dst, b[IP_HDR_LEN..])
            && ParseSegment(b) == Some(Parsed(payload, src, ports.src, ports.dst, flags / 2 % 2 == 1, seqNo))
  {
    var total := IP_HDR_LEN + TCP_HDR_LEN + |payload|;
    var h, t := IpSealed(IpHeader(total, id, src, dst)),
      TcpSealed(src, dst, TcpPart(ports, seqNo, ack, flags, payload));
    IpHalf(total, id, src, dst);
    TcpHalf(src, dst, ports, seqNo, ack, flags, payload);
    LaidIpParses(h, t, src, dst);
    assert (h + t)[..IP_HDR_LEN] == h && (h + t)[IP_HDR_LEN..] == t;
  }

  lemma IpHalf(total: U16, id: U16, src: Addr, dst: Addr)
    ensures var h := IpSealed(IpHeader(total, id, src, dst));
            IpLaid(h, total, src, dst) && Checksum.Of(Checksum.Sum(h)) == 0
  {
    var h0 := IpHeader(total, id, src, dst);
    IpHeaderLaid(total, id, src, dst);
    SealedIpLaid(h0, total, src, dst);
    IpVerifies(h0);
  }

  lemma TcpHalf(src: Addr, dst: Addr, ports: Ports, seqNo: U32, ack: U32, flags: Byte, payload: seq<Byte>)
    requires TCP_HDR_LEN + |payload| <= 0xFFFF && flags % 2 == 0 && flags / 4 % 2 == 0
    ensures var t := TcpSealed(src, dst, TcpPart(ports, seqNo, ack, flags, payload));
            && ValidTcpChecksum(src, dst, t)
            && ParseTcp(src, dst, t) == Some(Parsed(payload, src, ports.src, ports.dst, flags / 2 % 2 == 1, seqNo))
  {
    var t0 := TcpPart(ports, seqNo, ack, flags, payload);
    TcpPartLaid(ports, seqNo, ack, flags, payload);
    SealedTcpLaid(src, dst, t0, ports, seqNo, flags, payload);
    TcpVerifies(src, dst, t0);
    LaidTcpParses(src, dst, TcpSealed(src, dst, t0), ports, seqNo, flags, payload);
  }

  // ---------------------------------------------------------------------
  // The loops.

  method ChecksumWithPseudo(src: Addr, dst: Addr, tcp: seq<Byte>) returns (c: U16)
    ensures c == Checksum.Of(PseudoSum(src, dst, tcp))
  {
    var sum := Checksum.AddWords(0, src);
    ghost var total := Checksum.Sum(src);
    Checksum.Wrapped(total, Checksum.Sum(dst));
    sum := Checksum.AddWords(sum, dst);
    total := total + Checksum.Sum(dst);
    Checksum.Wrapped(total, 6);
    sum := (sum + 6) % 0x1_0000_0000;
    total := total + 6;
    Checksum.Wrapped(total, |tcp|);
    sum := (sum + |tcp|) % 0x1_0000_0000;
    total := total + |tcp|;
    Checksum.Wrapped(total, Checksum.Sum(tcp));
    sum := Checksum.AddWords(sum, tcp);
    c := Checksum.FoldCarries(sum);
    Checksum.OfWrapped(PseudoSum(src, dst, tcp));
  }

  /** Assembles the image in one buffer. */
  method BuildSegment(id: U16, src: Addr, dst: Addr, ports: Ports, seqNo: U32, ack: U32, flags: Byte,
                      payload: seq<Byte>)
    returns (b: seq<Byte>)
    ensures b == Segment(id, src, dst, ports, seqNo, ack, flags, payload)
  {
    var total := IP_HDR_LEN + TCP_HDR_LEN + |payload|;
    var seg := new Byte[total](_ => 0);
    ghost var image := FillIp(seg, total, id, src, dst);
    image := FillTcp(seg, ports, seqNo, ack, flags, payload, image);
    ghost var h := IpSealed(IpHeader(total, id, src, dst));
    ghost var t := TcpPart(ports, seqNo, ack, flags, payload);
    assert seg[..] == h + t;
    assert seg[IP_HDR_LEN..] == t;
    var c := ChecksumWithPseudo(src, dst, seg[IP_HDR_LEN..]);
    WrittenTail(h, t, 16, Put16(c));
    Write(seg, IP_HDR_LEN + 16, Put16(c));
    b := seg[..];
  }

  lemma WrittenTail(h: seq<Byte>, t: seq<Byte>, at: nat, field: seq<Byte>)
    requires at + |field| <= |t|
    ensures Written(h + t, |h| + at, field) == h + Written(t, at, field)
  {}

  lemma WrittenBegun(b: seq<Byte>, prefix: seq<Byte>, at: nat, field: seq<Byte>)
    requires Begun(b, prefix) && at + |field| <= |prefix|
    ensures Begun(Written(b, at, field), Written(prefix, at, field))
  {}

  method FillIp(seg: array<Byte>, total: nat, id: U16, src: Addr, dst: Addr) returns (ghost image: seq<Byte>)
    requires seg.Length >= IP_HDR_LEN && Begun(seg[..], [])
    modifies seg
    ensures image == IpSealed(IpHeader(total, id, src, dst)) && Begun(seg[..], image)
  {
    image := Append(seg, 0, [0x45], []);
    Skipped(seg[..], image, 1);
    image := Append(seg, 2, Put16(Low16(total)), image + Zeros(1));
    image := Append(seg, 4, Put16(id), image);
    Skipped(seg[..], image, 2);
    image := Append(seg, 8, [64, 6], image + Zeros(2));
    Skipped(seg[..], image, 2);
    image := Append(seg, 12, src, image + Zeros(2));
    image := Append(seg, 16, dst, image);
    assert image == IpHeader(total, id, src, dst) by { assert [] + [0x45] == [0x45]; }
    assert seg[..IP_HDR_LEN] == image;
    var c := Checksum.OfBuffer(seg[..IP_HDR_LEN]);
    WrittenBegun(seg[..], image, 10, Put16(c));
    Write(seg, 10, Put16(c));
    image := Written(image, 10, Put16(c));
  }

  method FillTcp(seg: array<Byte>, ports: Ports, seqNo: U32, ack: U32, flags: Byte, payload: seq<Byte>,
                 ghost prefix: seq<Byte>)
    returns (ghost image: seq<Byte>)
    requires seg.Length == IP_HDR_LEN + TCP_HDR_LEN + |payload| && |prefix| == IP_HDR_LEN && Begun(seg[..], prefix)
    modifies seg
    ensures image == prefix + TcpPart(ports, seqNo, ack, flags, payload) && seg[..] == image
  {
    image := Append(seg, 20, Put16(ports.src), prefix);
    image := Append(seg, 22, Put16(ports.dst), image);
    image := Append(seg, 24, Put32(seqNo), image);
    image := Append(seg, 28, Put32(ack), image);
    image := Append(seg, 32, [0x50, flags], image);
    image := Append(seg, 34, Put16(0xFFFF), image);
    Skipped(seg[..], image, 4);
    image := Append(seg, 40, payload, image + Zeros(4));
    assert image == prefix + TcpPart(ports, seqNo, ack, flags, payload);
    assert seg[..] == image + Zeros(0) == image;
  }
}
