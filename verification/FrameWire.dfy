/** The wire image of a frame: a 28-byte header and the payload. */
module FrameWire {
  import opened Bytes
  import opened Buffers
  import opened Frames

  const MAGIC: U32 := 0x464C5842
  const VERSION: Byte := 2
  const HEADER_SIZE := 28
  const MAX_PAYLOAD := 0xFFFF

  function Header(f: Frame): (h: seq<Byte>)
    ensures |h| == HEADER_SIZE
  {
    Put32(MAGIC) + [VERSION, f.flags] + Zeros(2) + Put64(f.session) + Put32(f.seqNo) + Put32(f.blockSeq)
    + Put16(Low16(|f.payload|)) + Zeros(2)
  }

  /** None: the payload does not fit the length field. */
  function Encoded(f: Frame): Option<seq<Byte>> {
    if |f.payload| > MAX_PAYLOAD then None else Some(Header(f) + f.payload)
  }

  /** The header's fields; the payload is left empty. */
  function DecodeHeader(b: seq<Byte>): Option<Frame> {
    if |b| < HEADER_SIZE || Get32(b, 0) != MAGIC || b[4] != VERSION then None
    else Some(Frame(b[4], b[5], Get64(b, 8), Get32(b, 16), Get32(b, 20), []))
  }

  function Decode(b: seq<Byte>): Option<Frame> {
    var h := DecodeHeader(b);
    if h.None? || |b| != HEADER_SIZE + Get16(b, 24) then None
    else Some(h.value.(payload := b[HEADER_SIZE..]))
  }

  /** Where the fields of an image stand. */
  ghost predicate Stands(f: Frame, b: seq<Byte>) {
    && |b| == HEADER_SIZE + |f.payload|
    && Holds(b, 0, Put32(MAGIC)) && Holds(b, 4, [VERSION, f.flags]) && Holds(b, 8, Put64(f.session))
    && Holds(b, 16, Put32(f.seqNo)) && Holds(b, 20, Put32(f.blockSeq)) && Holds(b, 24, Put16(Low16(|f.payload|)))
    && Holds(b, HEADER_SIZE, f.payload)
  }

  lemma ImageStands(f: Frame)
    ensures Stands(f, Header(f) + f.payload)
  {}

  /** Every image begins with the letters FLXB, in this order, and version 2. */
  lemma BeginsWithMagic(f: Frame)
    requires Encoded(f).Some?
    ensures Encoded(f).value[..5] == [0x46, 0x4C, 0x58, 0x42, 2]
  {
    assert Put16(0x464C) == [0x46, 0x4C] && Put16(0x5842) == [0x58, 0x42];
    assert Put32(MAGIC) == [0x46, 0x4C, 0x58, 0x42];
    var b := Encoded(f).value;
    assert b[..4] == Put32(MAGIC) && b[4] == VERSION;
    assert b[..5] == b[..4] + [b[4]];
  }

  lemma Bytes45(b: seq<Byte>, x: Byte, y: Byte)
    requires Holds(b, 4, [x, y])
    ensures b[4] == x && b[5] == y
  {
    assert [x, y][0] == x && [x, y][1] == y;
  }

  lemma PayloadStands(b: seq<Byte>, payload: seq<Byte>)
    requires |b| == HEADER_SIZE + |payload| && Holds(b, HEADER_SIZE, payload)
    ensures b[HEADER_SIZE..] == payload
  {}

  /** Reading the fields of an image. */
  ghost predicate Reads(f: Frame, b: seq<Byte>) {
    && |b| == HEADER_SIZE + |f.payload| && |f.payload| <= MAX_PAYLOAD
    && Get32(b, 0) == MAGIC && b[4] == VERSION && b[5] == f.flags && Get64(b, 8) == f.session
    && Get32(b, 16) == f.seqNo && Get32(b, 20) == f.blockSeq && Get16(b, 24) == |f.payload|
    && b[HEADER_SIZE..] == f.payload
  }

  lemma ReadNumbers(f: Frame, b: seq<Byte>)
    requires Stands(f, b)
    ensures Get32(b, 16) == f.seqNo && Get32(b, 20) == f.blockSeq && Get64(b, 8) == f.session
  {
    Read32(b, 16, f.seqNo);
    Read32(b, 20, f.blockSeq);
    Read64(b, 8, f.session);
  }

  lemma ReadRest(f: Frame, b: seq<Byte>)
    requires Stands(f, b) && |f.payload| <= MAX_PAYLOAD
    ensures Get32(b, 0) == MAGIC && b[4] == VERSION && b[5] == f.flags && Get16(b, 24) == |f.payload|
    ensures b[HEADER_SIZE..] == f.payload
  {
    Read32(b, 0, MAGIC);
    Bytes45(b, VERSION, f.flags);
    Read16(b, 24, |f.payload|);
    PayloadStands(b, f.payload);
  }

  lemma ReadDecodes(f: Frame, b: seq<Byte>)
    requires Reads(f, b)
    ensures Decode(b) == Some(f.(version := VERSION))
  {}

  lemma StandingDecodes(f: Frame, b: seq<Byte>)
    requires Stands(f, b) && |f.payload| <= MAX_PAYLOAD
    ensures Decode(b) == Some(f.(version := VERSION))
  {
    ReadNumbers(f, b);
    ReadRest(f, b);
    ReadDecodes(f, b);
  }

  /** Decoding an encoded frame gives the frame back, stamped with the protocol version. */
  lemma DecodeInverts(f: Frame)
    requires |f.payload| <= MAX_PAYLOAD
    ensures Encoded(f).Some? && Decode(Encoded(f).value) == Some(f.(version := VERSION))
  {
    ImageStands(f);
    StandingDecodes(f, Encoded(f).value);
  }

  lemma Written16(b: seq<Byte>, at: nat)
    requires at + 2 <= |b|
    ensures Put16(Get16(b, at)) == b[at..at + 2]
  {}

  lemma Written32(b: seq<Byte>, at: nat)
    requires at + 4 <= |b|
    ensures Put32(Get32(b, at)) == b[at..at + 4]
  {
    Written16(b, at);
    Written16(b, at + 2);
    Halves(Get16(b, at), Get16(b, at + 2));
    assert b[at..at + 4] == b[at..at + 2] + b[at + 2..at + 4];
  }

  lemma Halves(h: U16, l: U16)
    ensures var x: int := h; (x * 0x1_0000 + l) / 0x1_0000 == h && (x * 0x1_0000 + l) % 0x1_0000 == l
  {}

  lemma Written64(b: seq<Byte>, at: nat)
    requires at + 8 <= |b|
    ensures Put64(Get64(b, at)) == b[at..at + 8]
  {
    Written32(b, at);
    Written32(b, at + 4);
    Quarters(Get32(b, at), Get32(b, at + 4));
    assert b[at..at + 8] == b[at..at + 4] + b[at + 4..at + 8];
  }

  lemma Quarters(h: U32, l: U32)
    ensures var x: int := h;
            (x * 0x1_0000_0000 + l) / 0x1_0000_0000 == h && (x * 0x1_0000_0000 + l) % 0x1_0000_0000 == l
  {}

  lemma Standing(b: seq<Byte>, at: nat, field: seq<Byte>)
    requires at + |field| <= |b| && b[at..at + |field|] == field
    ensures Holds(b, at, field)
  {
    forall i | 0 <= i < |field| ensures b[at + i] == field[i] {
      assert b[at + i] == b[at..at + |field|][i];
    }
  }

  /** What decodes has the fields of its frame in their places: only the four reserved bytes are not looked at. */
  lemma DecodedStands(b: seq<Byte>)
    requires Decode(b).Some?
    ensures |Decode(b).value.payload| <= MAX_PAYLOAD && Stands(Decode(b).value, b)
  {
    var f := Decode(b).value;
    NumbersStand(b, f);
    RestStands(b, f);
  }

  lemma NumbersStand(b: seq<Byte>, f: Frame)
    requires |b| >= HEADER_SIZE && f.session == Get64(b, 8) && f.seqNo == Get32(b, 16) && f.blockSeq == Get32(b, 20)
    ensures Holds(b, 8, Put64(f.session)) && Holds(b, 16, Put32(f.seqNo)) && Holds(b, 20, Put32(f.blockSeq))
  {
    Stood64(b, 8);
    Stood32(b, 16);
    Stood32(b, 20);
  }

  lemma Stood64(b: seq<Byte>, at: nat)
    requires at + 8 <= |b|
    ensures Holds(b, at, Put64(Get64(b, at)))
  {
    Written64(b, at);
    Standing(b, at, Put64(Get64(b, at)));
  }

  lemma Stood32(b: seq<Byte>, at: nat)
    requires at + 4 <= |b|
    ensures Holds(b, at, Put32(Get32(b, at)))
  {
    Written32(b, at);
    Standing(b, at, Put32(Get32(b, at)));
  }

  lemma Stood16(b: seq<Byte>, at: nat)
    requires at + 2 <= |b|
    ensures Holds(b, at, Put16(Low16(Get16(b, at))))
  {
    Written16(b, at);
    Standing(b, at, Put16(Get16(b, at)));
  }

  lemma RestStands(b: seq<Byte>, f: Frame)
    requires |b| >= HEADER_SIZE && Get32(b, 0) == MAGIC && b[4] == VERSION && b[5] == f.flags
    requires f.payload == b[HEADER_SIZE..] && |f.payload| == Get16(b, 24)
    ensures Holds(b, 0, Put32(MAGIC)) && Holds(b, 4, [VERSION, f.flags]) && Holds(b, 24, Put16(Low16(|f.payload|)))
    ensures Holds(b, HEADER_SIZE, f.payload)
  {
    Stood32(b, 0);
    Standing(b, 4, [VERSION, f.flags]);
    Stood16(b, 24);
    Standing(b, HEADER_SIZE, f.payload);
  }

  /** Fills the buffer field by field. */
  method Encode(f: Frame) returns (r: Option<seq<Byte>>)
    ensures r == Encoded(f)
  {
    if |f.payload| > MAX_PAYLOAD { return None; }
    var buf := new Byte[HEADER_SIZE + |f.payload|](_ => 0);
    ghost var image := Append(buf, 0, Put32(MAGIC), []);
    image := Append(buf, 4, [VERSION, f.flags], image);
    Skipped(buf[..], image, 2);
    image := Append(buf, 8, Put64(f.session), image + Zeros(2));
    image := Append(buf, 16, Put32(f.seqNo), image);
    image := Append(buf, 20, Put32(f.blockSeq), image);
    image := Append(buf, 24, Put16(Low16(|f.payload|)), image);
    Skipped(buf[..], image, 2);
    image := image + Zeros(2);
    assert image == Header(f) by { assert [] + Put32(MAGIC) == Put32(MAGIC); }
    image := Append(buf, HEADER_SIZE, f.payload, image);
    assert buf[..] == image + Zeros(0) == image;
    return Some(buf[..]);
  }
}
