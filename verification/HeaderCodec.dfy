/** The fixed PDU header: bit fields set by or-ing, identifiers of one, two, four or eight octets. */
module HeaderCodec {
  import opened Bytes

  // ----- bit fields

  /** Ors `value`, whose lowest bit belongs at position `to` counted from the left, into an octet. */
  function SetBits(b: bv8, to: nat, value: bv8): bv8
    requires to <= 7
  {
    b | (value << (7 - to))
  }

  /** The bits from position `from` to position `to`, counted from the left. */
  function GetBits(b: bv8, from: nat, to: nat): bv8
    requires from <= to <= 7
  {
    (b << from) >> (8 - (to - from + 1))
  }

  // ----- identifiers

  /** How many octets an identifier takes, or zero when it is too large to be sent. */
  function IdLength(id: nat): nat {
    if id < 0xFF then 1
    else if id < 0xFFFF then 2
    else if id < 0xFFFFFF then 4
    else if id < 0xFFFFFFFF then 8
    else 0
  }

  function IdBytes(id: nat): seq<byte> {
    BigEndian(id, IdLength(id))
  }

  /** Reads an identifier; the code's error value is all ones in 64 bits. */
  function ReadId(s: seq<byte>, at: nat, len: nat): nat
    requires at + len <= |s|
  {
    if len == 8 || len == 4 || len == 2 || len == 1 then FromBigEndian(s[at..at + len])
    else U32 * U32 - 1
  }

  lemma ReadIdRoundTrip(s: seq<byte>, at: nat, id: nat)
    requires IdLength(id) > 0 && at + IdLength(id) <= |s|
    requires s[at..at + IdLength(id)] == IdBytes(id)
    ensures ReadId(s, at, IdLength(id)) == id
  {
    IdFits(id);
    hide BigEndian, FromBigEndian, Pow256, IdLength;
    BigEndianRoundTrip(id, IdLength(id));
  }

  /** The octets chosen hold the identifier. */
  lemma IdFits(id: nat)
    requires IdLength(id) > 0
    ensures id < Pow256(IdLength(id)) && IdLength(id) in {1, 2, 4, 8}
  {
    Pow256Values();
    hide Pow256;
  }

  // ----- the header

  /** `Pdu_header` as the MIB fills it, with its bit fields. */
  datatype Header = Header(version: bv3, pduType: bv1, direction: bv1, crc: bv1, reserved0: bv1,
                           reserved1: bv1, idLength: bv3, reserved2: bv1, seqLength: bv3,
                           sourceId: uint32, destinationId: uint32)

  /** What the parser returns: the fields, mode, data length and sequence number, and where the body starts. */
  datatype Parsed = Parsed(header: Header, mode: bv1, dataLength: nat, sequence: nat, start: nat) | Malformed

  function FirstOctet(h: Header, mode: bv8): bv8 {
    SetBits(SetBits(SetBits(SetBits(SetBits(SetBits(0, 2, h.version as bv8), 3, h.pduType as bv8),
      4, h.direction as bv8), 5, mode), 6, h.crc as bv8), 7, h.reserved0 as bv8)
  }

  function FourthOctet(h: Header): bv8 {
    SetBits(SetBits(SetBits(SetBits(0, 0, h.reserved1 as bv8), 3, h.idLength as bv8), 4, h.reserved2 as bv8),
      7, h.seqLength as bv8)
  }

  /** The builder fails when an identifier does not fill the length the header announces. */
  predicate Buildable(h: Header, sequence: nat) {
    && IdLength(h.sourceId) == h.idLength as int > 0
    && IdLength(sequence) == h.seqLength as int > 0
    && IdLength(h.destinationId) == h.idLength as int
  }

  function Octet(b: bv8): byte { b as int }

  function HeaderBytes(h: Header, sequence: nat, mode: bv8, dataLength: nat): seq<byte> {
    [Octet(FirstOctet(h, mode))] + BigEndian(dataLength, 2) + [Octet(FourthOctet(h))] +
    IdBytes(h.sourceId) + IdBytes(sequence) + IdBytes(h.destinationId)
  }

  function Bit(b: bv8, at: nat): bv1
    requires at <= 7
  {
    (GetBits(b, at, at) & 1) as bv1
  }

  function Bits3(b: bv8, from: nat): bv3
    requires from <= 5
  {
    (GetBits(b, from, from + 2) & 7) as bv3
  }

  /** The parser. An identifier of unsupported length is an error only for the sequence number: the entity
      identifiers are cut to 32 bits before they are compared with the 64-bit error value. */
  function ParseHeader(s: seq<byte>): Parsed
    requires |s| >= 25
  {
    var b0, b3 := s[0] as bv8, s[3] as bv8;
    var idLength, seqLength := Bits3(b3, 1), Bits3(b3, 5);
    var ids := ParseIds(s, idLength as int, seqLength as int);
    if ids.sequence == U32 * U32 - 1 then Malformed
    else
      Parsed(Header(Bits3(b0, 0), Bit(b0, 3), Bit(b0, 4), Bit(b0, 6), Bit(b0, 7),
                    Bit(b3, 0), idLength, Bit(b3, 4), seqLength, ids.source, ids.destination),
             Bit(b0, 5), FromBigEndian(s[1..3]), ids.sequence, ids.end)
  }

  datatype Ids = Ids(source: uint32, sequence: nat, destination: uint32, end: nat)

  /** The three identifiers behind the fixed part. */
  function ParseIds(s: seq<byte>, idLength: nat, seqLength: nat): Ids
    requires 4 + idLength + seqLength + idLength <= |s|
  {
    Ids(ReadId(s, 4, idLength) % U32, ReadId(s, 4 + idLength, seqLength),
        ReadId(s, 4 + idLength + seqLength, idLength) % U32, 4 + idLength + seqLength + idLength)
  }

  lemma FirstOctetFields(h: Header, mode: bv8)
    requires mode <= 1
    ensures var b := FirstOctet(h, mode);
      && Bits3(b, 0) == h.version && Bit(b, 3) == h.pduType && Bit(b, 4) == h.direction
      && Bit(b, 5) == mode as bv1 && Bit(b, 6) == h.crc && Bit(b, 7) == h.reserved0
  {
  }

  lemma FourthOctetFields(h: Header)
    ensures var b := FourthOctet(h);
      Bit(b, 0) == h.reserved1 && Bits3(b, 1) == h.idLength && Bit(b, 4) == h.reserved2 && Bits3(b, 5) == h.seqLength
  {
  }

  lemma OctetBack(b: bv8)
    ensures Octet(b) as bv8 == b
  {
  }

  /** Where the parts of a built header lie. */
  lemma HeaderLayout(h: Header, sequence: nat, mode: bv8, dataLength: nat, body: seq<byte>)
    ensures var i, q, k := IdLength(h.sourceId), IdLength(sequence), IdLength(h.destinationId);
      var s := HeaderBytes(h, sequence, mode, dataLength) + body;
      && |HeaderBytes(h, sequence, mode, dataLength)| == 4 + i + q + k
      && s[0] == Octet(FirstOctet(h, mode)) && s[1..3] == BigEndian(dataLength, 2) && s[3] == Octet(FourthOctet(h))
      && s[4..4 + i] == IdBytes(h.sourceId) && s[4 + i..4 + i + q] == IdBytes(sequence)
      && s[4 + i + q..4 + i + q + k] == IdBytes(h.destinationId)
  {
    hide IdLength, FirstOctet, FourthOctet, Octet;
    var a, b, d := IdBytes(h.sourceId), IdBytes(sequence), IdBytes(h.destinationId);
    var head := [Octet(FirstOctet(h, mode))] + BigEndian(dataLength, 2) + [Octet(FourthOctet(h))];
    hide IdBytes, BigEndian;
    assert |head| == 4 && head[1..3] == BigEndian(dataLength, 2);
    FourParts(head, a, b, d, body);
  }

  lemma FourParts(p: seq<byte>, a: seq<byte>, b: seq<byte>, d: seq<byte>, rest: seq<byte>)
    ensures var s := p + a + b + d + rest;
      var i, j, k := |p|, |p| + |a|, |p| + |a| + |b|;
      && s[..i] == p && s[i..j] == a && s[j..k] == b && s[k..k + |d|] == d
      && (forall m :: 0 <= m < |p| ==> s[m] == p[m])
      && (forall m, n :: 0 <= m <= n <= |p| ==> s[m..n] == p[m..n])
  {
  }

  lemma FirstOctetParsed(s: seq<byte>, h: Header, mode: bv8)
    requires |s| >= 25 && mode <= 1 && s[0] == Octet(FirstOctet(h, mode))
    ensures var b := s[0] as bv8;
      && Bits3(b, 0) == h.version && Bit(b, 3) == h.pduType && Bit(b, 4) == h.direction
      && Bit(b, 5) == mode as bv1 && Bit(b, 6) == h.crc && Bit(b, 7) == h.reserved0
  {
    OctetBack(FirstOctet(h, mode));
    FirstOctetFields(h, mode);
  }

  lemma FourthOctetParsed(s: seq<byte>, h: Header)
    requires |s| >= 25 && s[3] == Octet(FourthOctet(h))
    ensures var b := s[3] as bv8;
      Bit(b, 0) == h.reserved1 && Bits3(b, 1) == h.idLength && Bit(b, 4) == h.reserved2 && Bits3(b, 5) == h.seqLength
  {
    OctetBack(FourthOctet(h));
    FourthOctetFields(h);
  }

  /** Parsing recovers every field of a header that could be built, and the place where it ends. */
  lemma HeaderRoundTrip(h: Header, sequence: nat, mode: bv8, dataLength: nat, body: seq<byte>)
    requires Buildable(h, sequence) && mode <= 1 && dataLength < 0x1_0000
    requires |HeaderBytes(h, sequence, mode, dataLength) + body| >= 25
    ensures ParseHeader(HeaderBytes(h, sequence, mode, dataLength) + body) ==
      Parsed(h, mode as bv1, dataLength, sequence, |HeaderBytes(h, sequence, mode, dataLength)|)
  {
    var s := HeaderBytes(h, sequence, mode, dataLength) + body;
    HeaderLayout(h, sequence, mode, dataLength, body);
    IdsRoundTrip(s, h.sourceId, sequence, h.destinationId);
    FirstOctetParsed(s, h, mode);
    FourthOctetParsed(s, h);
    LengthBack(dataLength);
    SequenceFits(sequence);
    hide HeaderBytes, FirstOctet, FourthOctet, Bit, Bits3, FromBigEndian, BigEndian, IdLength, IdBytes, ParseIds;
  }

  lemma IdsRoundTrip(s: seq<byte>, source: uint32, sequence: nat, destination: uint32)
    requires IdLength(source) == IdLength(destination) > 0 && IdLength(sequence) > 0
    requires var i, q := IdLength(source), IdLength(sequence);
      && 4 + i + q + i <= |s| && s[4..4 + i] == IdBytes(source)
      && s[4 + i..4 + i + q] == IdBytes(sequence) && s[4 + i + q..4 + i + q + i] == IdBytes(destination)
    ensures var i, q := IdLength(source), IdLength(sequence);
      ParseIds(s, i, q) == Ids(source, sequence, destination, 4 + i + q + i)
  {
    var i, q := IdLength(source), IdLength(sequence);
    ReadIdRoundTrip(s, 4, source);
    ReadIdRoundTrip(s, 4 + i, sequence);
    ReadIdRoundTrip(s, 4 + i + q, destination);
  }

  lemma SequenceFits(id: nat)
    requires IdLength(id) > 0
    ensures id < U32
  {
  }

  lemma LengthBack(n: nat)
    requires n < 0x1_0000
    ensures FromBigEndian(BigEndian(n, 2)) == n
  {
    Pow256Values();
    BigEndianRoundTrip(n, 2);
  }

  /** Of all octet strings the parser turns away exactly those whose sequence number length is unsupported. */
  lemma MalformedIff(s: seq<byte>)
    requires |s| >= 25
    ensures ParseHeader(s) == Malformed <==> Bits3(s[3] as bv8, 5) !in {1, 2, 4}
  {
    var len := Bits3(s[3] as bv8, 5);
    var at := 4 + Bits3(s[3] as bv8, 1) as int;
    hide Bits3;
    if len == 1 || len == 2 || len == 4 {
      Pow256Values();
      FromBigEndianBound(s[at..at + len as int]);
    }
  }

  /** An unsupported length of the entity identifiers passes: both are then all ones in 32 bits. */
  lemma UnsupportedEntity(s: seq<byte>)
    requires |s| >= 25 && Bits3(s[3] as bv8, 1) !in {1, 2, 4} && ParseHeader(s) != Malformed
    ensures ParseHeader(s).header.sourceId == ParseHeader(s).header.destinationId == 0xFFFF_FFFF
  {
    hide Bits3, FromBigEndian;
  }

  lemma {:induction false} FromBigEndianBound(s: seq<byte>)
    ensures FromBigEndian(s) < Pow256(|s|)
  {
    if s != [] { FromBigEndianBound(s[..|s| - 1]); }
  }

  // ----- building it in a buffer

  /** Writes an identifier at its length, or nothing and -1 when it is too large. */
  method CopyIdToPacket(packet: array<byte>, at: nat, id: nat) returns (length: int)
    requires at + 8 <= packet.Length
    modifies packet
    ensures length == if IdLength(id) == 0 then -1 else IdLength(id)
    ensures packet[..] == Overwritten(old(packet[..]), at, IdBytes(id))
  {
    if id < 0xFF {
      packet[at] := id;
      length := 1;
      assert IdBytes(id) == [id] by { assert BigEndian(id / 256, 0) == []; }
    } else if id < 0xFFFF {
      PutBytes(packet, at, BigEndian(id, 2));
      length := 2;
    } else if id < 0xFFFFFF {
      PutBytes(packet, at, BigEndian(id, 4));
      length := 4;
    } else if id < 0xFFFFFFFF {
      PutBytes(packet, at, BigEndian(id, 8));
      length := 8;
    } else {
      length := -1;
    }
  }

  /** Builds the header at the front of a buffer; returns where the body starts, or -1. */
  method BuildPduHeader(packet: array<byte>, sequence: nat, mode: bv8, dataLength: nat, h: Header) returns (start: int)
    requires packet.Length >= 28
    modifies packet
    ensures start == -1 <==> !Buildable(h, sequence)
    ensures start != -1 <==>
      && IdLength(h.sourceId) == IdLength(h.destinationId) == h.idLength as int > 0
      && IdLength(sequence) == h.seqLength as int > 0
    ensures start != -1 ==>
      var bytes := HeaderBytes(h, sequence, mode, dataLength);
      start == |bytes| && packet[..] == Overwritten(old(packet[..]), 0, bytes)
  {
    ghost var s := packet[..];
    var head := [Octet(FirstOctet(h, mode))] + BigEndian(dataLength, 2) + [Octet(FourthOctet(h))];
    hide FirstOctet, FourthOctet, Octet, BigEndian, IdLength, IdBytes;
    PutBytes(packet, 0, head);
    start := CopyIds(packet, h.sourceId, sequence, h.destinationId, h.idLength as int, h.seqLength as int);
    if start != -1 {
      OverwrittenTwice(s, 0, head, IdBytes(h.sourceId) + IdBytes(sequence) + IdBytes(h.destinationId));
      assert head + (IdBytes(h.sourceId) + IdBytes(sequence) + IdBytes(h.destinationId)) ==
        HeaderBytes(h, sequence, mode, dataLength);
    }
  }

  /** Writes the three identifiers behind the fixed part, failing at the first of the wrong length. */
  method CopyIds(packet: array<byte>, source: nat, sequence: nat, destination: nat, idLength: nat, seqLength: nat)
    returns (end: int)
    requires packet.Length >= 28 && idLength < 8 && seqLength < 8
    modifies packet
    ensures end != -1 <==>
      IdLength(source) == idLength > 0 && IdLength(sequence) == seqLength > 0 && IdLength(destination) == idLength
    ensures end != -1 ==>
      && end == 4 + idLength + seqLength + idLength
      && packet[..] == Overwritten(old(packet[..]), 4, IdBytes(source) + IdBytes(sequence) + IdBytes(destination))
  {
    ghost var s := packet[..];
    var at := 4;
    var length := CopyIdToPacket(packet, at, source);
    if length < 0 || length != idLength {
      return -1;
    }
    at := at + length;
    length := CopyIdToPacket(packet, at, sequence);
    if length < 0 || length != seqLength {
      return -1;
    }
    hide IdLength, BigEndian;
    OverwrittenTwice(s, 4, IdBytes(source), IdBytes(sequence));
    at := at + length;
    length := CopyIdToPacket(packet, at, destination);
    if length < 0 || length != idLength {
      return -1;
    }
    OverwrittenTwice(s, 4, IdBytes(source) + IdBytes(sequence), IdBytes(destination));
    end := at + length;
  }

  /** Which octets an identifier takes: one, two, four or eight, the shortest of which it does not fill up. Four octets
      are given up at 2^24 - 1 already, and eight at 2^32 - 1. */
  lemma IdLengths(id: nat)
    ensures IdLength(id) == 1 <==> id < Pow256(1) - 1
    ensures IdLength(id) == 2 <==> Pow256(1) - 1 <= id < Pow256(2) - 1
    ensures IdLength(id) == 4 <==> Pow256(2) - 1 <= id < Pow256(3) - 1
    ensures IdLength(id) == 8 <==> Pow256(3) - 1 <= id < Pow256(4) - 1
    ensures IdLength(id) == 0 <==> Pow256(4) - 1 <= id
  {
    Pow256Values();
    assert Pow256(3) == 256 * Pow256(2);
  }

  /** The type of a packet: 1 for file data, 0 for a directive. */
  function PduType(s: seq<byte>): bv1
    requires s != []
  {
    Bit(s[0] as bv8, 3)
  }

  lemma TypePlaced(s: seq<byte>, was: seq<byte>, start: nat, body: seq<byte>, dataLen: nat, isData: bv1)
    requires BodyPlaced(s, was, start, body, dataLen, isData)
    ensures |s| == |was| >= 3 && PduType(s) == PduType(was) | isData
  {
    assert s[0] == s[..3][0] && BodyHeader(was, dataLen, isData)[0] == Octet(SetBits(was[0] as bv8, 3, isData as bv8));
    OctetBack(SetBits(was[0] as bv8, 3, isData as bv8));
    TypeOred(was[0] as bv8, isData);
  }

  lemma TypeOred(b: bv8, isData: bv1)
    ensures Bit(SetBits(b, 3, isData as bv8), 3) == Bit(b, 3) | isData
  {
  }

  /** What a body builder leaves of the first three octets: the type bit or-ed in, and the data length. */
  function BodyHeader(s: seq<byte>, dataLength: nat, isData: bv1): seq<byte>
    requires |s| >= 3
  {
    [Octet(SetBits(s[0] as bv8, 3, isData as bv8))] + BigEndian(dataLength, 2)
  }

  /** The packet `s` is `was` with `body` at `start`, and type and data length set in the header. */
  predicate BodyPlaced(s: seq<byte>, was: seq<byte>, start: nat, body: seq<byte>, dataLen: nat, isData: bv1) {
    && 3 <= start && start + |body| <= |was| == |s|
    && s[..3] == BodyHeader(was, dataLen, isData) && s[3..start] == was[3..start]
    && s[start..start + |body|] == body && s[start + |body|..] == was[start + |body|..]
  }

  lemma FirstThree(whole: seq<byte>, was: seq<byte>, start: nat, body: seq<byte>, dataLen: nat, isData: bv1)
    requires 3 <= start && start + |body| <= |was| && whole == Overwritten(was, start, body)
    ensures BodyPlaced(Overwritten(whole, 0, BodyHeader(whole, dataLen, isData)), was, start, body, dataLen, isData)
  {
    assert whole[0] == was[0];
    var h := BodyHeader(was, dataLen, isData);
    assert h == BodyHeader(whole, dataLen, isData) && |h| == 3;
    hide BodyHeader;
    var s := Overwritten(whole, 0, h);
    assert forall i :: 3 <= i < |s| ==> s[i] == whole[i];
    assert s[..3] == h && s[3..start] == was[3..start];
    assert s[start..start + |body|] == body && s[start + |body|..] == was[start + |body|..];
  }

  method SetPacketHeader(packet: array<byte>, dataLength: nat, isData: bv1)
    requires packet.Length >= 3
    modifies packet
    ensures packet[..] == Overwritten(old(packet[..]), 0, BodyHeader(old(packet[..]), dataLength, isData))
  {
    ghost var s := packet[..];
    packet[0] := Octet(SetBits(packet[0] as bv8, 3, isData as bv8));
    assert packet[..] == Overwritten(s, 0, [packet[0]]);
    OverwrittenTwice(s, 0, [packet[0]], BigEndian(dataLength, 2));
    PutBytes(packet, 1, BigEndian(dataLength, 2));
  }

  /** With a body written, type and data length go into the header. */
  method FinishBody(packet: array<byte>, start: nat, ghost body: seq<byte>, ghost was: seq<byte>, dataLen: nat,
                    isData: bv1)
    requires 3 <= start && start + |body| <= packet.Length == |was|
    requires packet[..] == Overwritten(was, start, body)
    modifies packet
    ensures BodyPlaced(packet[..], was, start, body, dataLen, isData)
  {
    hide Overwritten, BodyPlaced, BodyHeader;
    ghost var whole := packet[..];
    SetPacketHeader(packet, dataLen, isData);
    FirstThree(whole, was, start, body, dataLen, isData);
  }

  lemma TypeBitOred(h: Header, mode: bv8, isData: bv1)
    requires mode <= 1
    ensures SetBits(FirstOctet(h, mode), 3, isData as bv8) == FirstOctet(h.(pduType := h.pduType | isData), mode)
  {
  }

  /** A body builder changes nothing in a built header but the PDU type, by or, and the data length. */
  lemma BodyBuilderKeepsHeader(h: Header, sequence: nat, mode: bv8, dataLength: nat, body: seq<byte>,
                               length: nat, isData: bv1)
    requires mode <= 1
    ensures var s := HeaderBytes(h, sequence, mode, dataLength) + body;
      Overwritten(s, 0, BodyHeader(s, length, isData)) ==
        HeaderBytes(h.(pduType := h.pduType | isData), sequence, mode, length) + body
  {
    var h' := h.(pduType := h.pduType | isData);
    var s := HeaderBytes(h, sequence, mode, dataLength) + body;
    NewFirstOctets(s, h, mode, length, isData);
    SameFourth(h, h');
    hide FirstOctet, FourthOctet, Octet, BodyHeader, IdBytes, BigEndian;
    ReplaceHead([Octet(FirstOctet(h, mode))] + BigEndian(dataLength, 2),
                [Octet(FirstOctet(h', mode))] + BigEndian(length, 2),
      [Octet(FourthOctet(h))], IdBytes(h.sourceId), IdBytes(sequence), IdBytes(h.destinationId), body);
  }

  lemma SameFourth(h: Header, h': Header)
    requires h' == h.(pduType := h'.pduType)
    ensures FourthOctet(h') == FourthOctet(h)
  {
  }

  lemma ReplaceHead(head: seq<byte>, head': seq<byte>, o: seq<byte>, a: seq<byte>, b: seq<byte>, d: seq<byte>,
                    body: seq<byte>)
    requires |head| == |head'|
    ensures Overwritten(head + o + a + b + d + body, 0, head') == head' + o + a + b + d + body
  {
    var rest := o + a + b + d + body;
    assert head + o + a + b + d + body == head + rest;
    assert head' + o + a + b + d + body == head' + rest;
  }

  lemma NewFirstOctets(s: seq<byte>, h: Header, mode: bv8, length: nat, isData: bv1)
    requires mode <= 1 && |s| >= 3 && s[0] == Octet(FirstOctet(h, mode))
    ensures BodyHeader(s, length, isData) ==
      [Octet(FirstOctet(h.(pduType := h.pduType | isData), mode))] + BigEndian(length, 2)
  {
    OctetBack(FirstOctet(h, mode));
    TypeBitOred(h, mode, isData);
    hide FirstOctet, SetBits, Octet, BigEndian;
  }
}
