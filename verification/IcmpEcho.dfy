/** ICMP echo packets (the Echo message of RFC 792) as a carrier, with the inverted-checksum marker on requests. */
module IcmpEcho {
  import opened Bytes
  import opened Buffers
  import Checksum
  import FakeTcp

  const ICMP_HDR_LEN := 8
  const ECHO_REPLY: Byte := 0
  const ECHO_REQUEST: Byte := 8

  /** The packet with its checksum field still zero. */
  function Blank(typ: Byte, id: U16, seqNo: nat, payload: seq<Byte>): (p: seq<Byte>)
    ensures |p| == ICMP_HDR_LEN + |payload|
  {
    [typ] + Zeros(3) + Put16(id) + Put16(Low16(seqNo)) + payload
  }

  function TrueChecksum(typ: Byte, id: U16, seqNo: nat, payload: seq<Byte>): U16 {
    Checksum.Of(Checksum.Sum(Blank(typ, id, seqNo, payload)))
  }

  function Field(c: U16, corrupt: bool): U16 { if corrupt then 0xFFFF - c else c }

  /** The true checksum in its field, or its complement as the marker of a tunnel request. */
  function Sealed(p: seq<Byte>, corrupt: bool): (s: seq<Byte>)
    requires |p| >= ICMP_HDR_LEN
    ensures |s| == |p|
  {
    Written(p, 2, Put16(Field(Checksum.Of(Checksum.Sum(p)), corrupt)))
  }

  function Echo(typ: Byte, id: U16, seqNo: nat, payload: seq<Byte>, corrupt: bool): seq<Byte> {
    Sealed(Blank(typ, id, seqNo, payload), corrupt)
  }

  datatype Parsed = Parsed(payload: seq<Byte>, src: FakeTcp.Addr, typ: Byte, id: U16, checksumOk: bool)

  /** The length field leaves room for the ICMP header. */
  predicate Roomy(b: seq<Byte>) {
    |b| >= FakeTcp.IP_HDR_LEN && FakeTcp.HeaderLen(b) >= FakeTcp.IP_HDR_LEN
      && |b| >= FakeTcp.HeaderLen(b) + ICMP_HDR_LEN ==>
      FakeTcp.Extent(b) >= FakeTcp.HeaderLen(b) + ICMP_HDR_LEN
  }

  /** The datagram is IPv4, not a fragment, and carries ICMP. */
  predicate CarriesIcmp(b: seq<Byte>) {
    && |b| >= FakeTcp.IP_HDR_LEN + ICMP_HDR_LEN && b[0] / 16 == 4
    && FakeTcp.HeaderLen(b) >= FakeTcp.IP_HDR_LEN && |b| >= FakeTcp.HeaderLen(b) + ICMP_HDR_LEN
    && b[9] == 1 && Get16(b, 6) % 0x2000 == 0
  }

  function ParseEcho(b: seq<Byte>): Option<Parsed>
    requires Roomy(b)
  {
    if !CarriesIcmp(b) then None
    else
      var icmp := b[FakeTcp.HeaderLen(b)..FakeTcp.Extent(b)];
      if icmp[0] != ECHO_REQUEST && icmp[0] != ECHO_REPLY then None
      else Some(Parsed(icmp[ICMP_HDR_LEN..], b[12..16], icmp[0], Get16(icmp, 4), Checksum.Of(Checksum.Sum(icmp)) == 0))
  }

  lemma BlankLaid(typ: Byte, id: U16, seqNo: nat, payload: seq<Byte>)
    ensures var p := Blank(typ, id, seqNo, payload);
            p[0] == typ && p[2] == p[3] == 0 && Holds(p, 4, Put16(id)) && Holds(p, ICMP_HDR_LEN, payload)
  {}

  lemma EchoLaid(typ: Byte, id: U16, seqNo: nat, payload: seq<Byte>, corrupt: bool)
    ensures var p := Echo(typ, id, seqNo, payload, corrupt);
            && |p| == ICMP_HDR_LEN + |payload| && p[0] == typ && Get16(p, 4) == id && p[ICMP_HDR_LEN..] == payload
  {
    var p := Blank(typ, id, seqNo, payload);
    var field := Put16(Field(Checksum.Of(Checksum.Sum(p)), corrupt));
    BlankLaid(typ, id, seqNo, payload);
    WrittenKeeps(p, 2, field, 4, Put16(id));
    WrittenKeeps(p, 2, field, ICMP_HDR_LEN, payload);
    Read16(Written(p, 2, field), 4, id);
    Tail(Written(p, 2, field), payload);
  }

  lemma Tail(p: seq<Byte>, payload: seq<Byte>)
    requires |p| == ICMP_HDR_LEN + |payload| && Holds(p, ICMP_HDR_LEN, payload)
    ensures p[ICMP_HDR_LEN..] == payload
  {}

  /**
   A plain packet always verifies, for odd and even lengths. A marked one fails verification exactly when its
   true checksum is not zero.
   */
  lemma MarkerFailsIff(typ: Byte, id: U16, seqNo: nat, payload: seq<Byte>, corrupt: bool)
    requires ICMP_HDR_LEN + |payload| <= 0xFFFF
    ensures Checksum.Of(Checksum.Sum(Echo(typ, id, seqNo, payload, corrupt))) == 0
       <==> !corrupt || TrueChecksum(typ, id, seqNo, payload) == 0
  {
    BlankLaid(typ, id, seqNo, payload);
    SealedVerifiesIff(Blank(typ, id, seqNo, payload), corrupt);
  }

  lemma SealedVerifiesIff(p: seq<Byte>, corrupt: bool)
    requires ICMP_HDR_LEN <= |p| <= 0xFFFF && p[2] == p[3] == 0
    ensures Checksum.Of(Checksum.Sum(Sealed(p, corrupt))) == 0 <==> !corrupt || Checksum.Of(Checksum.Sum(p)) == 0
  {
    var s := Checksum.Sum(p);
    FakeTcp.SmallSum(p);
    Checksum.SumWritten(p, 2, Field(Checksum.Of(s), corrupt), Checksum.Words(p));
    if corrupt {
      Checksum.InvertedVerifiesIff(s);
    } else {
      Checksum.Verifies(s);
    }
  }

  lemma AllOnes()
    ensures Checksum.Of(Checksum.Sum([8, 0, 0, 0, 0xF7, 0xFF, 0, 0])) == 0
  {
    var p: seq<Byte> := [8, 0, 0, 0, 0xF7, 0xFF, 0, 0];
    assert Checksum.SumTo(p, 2) == 0x800;
    assert Checksum.SumTo(p, 4) == 0xFFFF;
  }

  /** The marker does fail to mark: this empty request has true checksum zero, so even inverted it verifies. */
  lemma MarkerMissed()
    ensures TrueChecksum(ECHO_REQUEST, 0xF7FF, 0, []) == 0
    ensures Checksum.Of(Checksum.Sum(Echo(ECHO_REQUEST, 0xF7FF, 0, [], true))) == 0
  {
    assert Blank(ECHO_REQUEST, 0xF7FF, 0, []) == [8, 0, 0, 0, 0xF7, 0xFF, 0, 0];
    AllOnes();
    MarkerFailsIff(ECHO_REQUEST, 0xF7FF, 0, [], true);
  }

  /** An IPv4 header that the kernel puts before the packet: any options, no fragment, and an honest total length. */
  ghost predicate Before(h: seq<Byte>, packet: nat) {
    && FakeTcp.IP_HDR_LEN <= |h| <= 60 && h[0] / 16 == 4 && FakeTcp.HeaderLen(h) == |h| && h[9] == 1
    && Get16(h, 6) % 0x2000 == 0 && (Get16(h, 2) == 0 || Get16(h, 2) == |h| + packet)
  }

  /** What was built is what is parsed, behind any such header; the checksum verdict is that of MarkerFailsIff. */
  lemma EchoRoundTrip(h: seq<Byte>, typ: Byte, id: U16, seqNo: nat, payload: seq<Byte>, corrupt: bool)
    requires (typ == ECHO_REQUEST || typ == ECHO_REPLY) && ICMP_HDR_LEN + |payload| <= 0xFFFF
    requires Before(h, ICMP_HDR_LEN + |payload|)
    ensures var b := h + Echo(typ, id, seqNo, payload, corrupt);
            && Roomy(b)
            && ParseEcho(b) == Some(Parsed(payload, h[12..16], typ, id,
                                           !corrupt || TrueChecksum(typ, id, seqNo, payload) == 0))
  {
    var p := Echo(typ, id, seqNo, payload, corrupt);
    var b := h + p;
    EchoLaid(typ, id, seqNo, payload, corrupt);
    MarkerFailsIff(typ, id, seqNo, payload, corrupt);
    assert Get16(b, 2) == Get16(h, 2) && Get16(b, 6) == Get16(h, 6);
    assert b[|h|..|b|] == p && b[12..16] == h[12..16];
  }

  method BuildEcho(typ: Byte, id: U16, seqNo: nat, payload: seq<Byte>, corrupt: bool) returns (b: seq<Byte>)
    ensures b == Echo(typ, id, seqNo, payload, corrupt)
  {
    var pkt := new Byte[ICMP_HDR_LEN + |payload|](_ => 0);
    FillEcho(pkt, typ, id, seqNo, payload);
    Seal(pkt, corrupt);
    b := pkt[..];
  }

  method FillEcho(pkt: array<Byte>, typ: Byte, id: U16, seqNo: nat, payload: seq<Byte>)
    requires pkt.Length == ICMP_HDR_LEN + |payload| && Begun(pkt[..], [])
    modifies pkt
    ensures pkt[..] == Blank(typ, id, seqNo, payload)
  {
    ghost var image := Append(pkt, 0, [typ], []);
    Skipped(pkt[..], image, 3);
    image := Append(pkt, 4, Put16(id), image + Zeros(3));
    image := Append(pkt, 6, Put16(Low16(seqNo)), image);
    image := Append(pkt, ICMP_HDR_LEN, payload, image);
    assert image == Blank(typ, id, seqNo, payload) by { assert [] + [typ] == [typ]; }
    assert pkt[..] == image + Zeros(0) == image;
  }

  method Seal(pkt: array<Byte>, corrupt: bool)
    requires pkt.Length >= ICMP_HDR_LEN
    modifies pkt
    ensures pkt[..] == Sealed(old(pkt[..]), corrupt)
  {
    ghost var p := pkt[..];
    var c := Checksum.OfBuffer(pkt[..]);
    Write(pkt, 2, Put16(c));
    if corrupt {
      Rewritten(p, 2, Put16(c), Put16(0xFFFF - c));
      Write(pkt, 2, Put16(0xFFFF - c));
    }
  }

  lemma Rewritten(b: seq<Byte>, at: nat, x: seq<Byte>, y: seq<Byte>)
    requires |x| == |y| && at + |x| <= |b|
    ensures Written(Written(b, at, x), at, y) == Written(b, at, y)
  {}
}
