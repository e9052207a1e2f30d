/** What lies where in the packets, octet by octet. */
module Wire {
  import opened Bytes
  import opened Intervals
  import opened HeaderCodec
  import opened MetadataCodec
  import opened NakCodec
  import R = Receiver
  import SenderRequests

  /** The fixed header: version, type, direction, mode, CRC flag and one reserved bit; the data length; a reserved bit,
      the length of entity identifiers, a reserved bit and that of the sequence number; then source entity, sequence
      number and destination entity. */
  lemma HeaderOctets(h: Header, sequence: nat, mode: bv8, dataLength: nat)
    requires Buildable(h, sequence) && mode <= 1 && dataLength < 0x1_0000
    ensures var s := HeaderBytes(h, sequence, mode, dataLength);
      var i, q := h.idLength as int, h.seqLength as int;
      && |s| == 4 + i + q + i
      && s[0] as bv8 == (h.version as bv8 << 5) | (h.pduType as bv8 << 4) | (h.direction as bv8 << 3) | (mode << 2)
                          | (h.crc as bv8 << 1) | h.reserved0 as bv8
      && FromBigEndian(s[1..3]) == dataLength
      && s[3] as bv8 == (h.reserved1 as bv8 << 7) | (h.idLength as bv8 << 4) | (h.reserved2 as bv8 << 3)
                          | h.seqLength as bv8
      && FromBigEndian(s[4..4 + i]) == h.sourceId && FromBigEndian(s[4 + i..4 + i + q]) == sequence
      && FromBigEndian(s[4 + i + q..4 + i + q + i]) == h.destinationId
  {
    HeaderLayout(h, sequence, mode, dataLength, []);
    assert HeaderBytes(h, sequence, mode, dataLength) + [] == HeaderBytes(h, sequence, mode, dataLength);
    FirstBits(h, mode);
    FourthBits(h);
    LengthBack(dataLength);
    IdOctets(h.sourceId);
    IdOctets(sequence);
    IdOctets(h.destinationId);
  }

  lemma FirstBits(h: Header, mode: bv8)
    requires mode <= 1
    ensures Octet(FirstOctet(h, mode)) as bv8 ==
      (h.version as bv8 << 5) | (h.pduType as bv8 << 4) | (h.direction as bv8 << 3) | (mode << 2)
        | (h.crc as bv8 << 1) | h.reserved0 as bv8
  {
    OctetBack(FirstOctet(h, mode));
  }

  lemma FourthBits(h: Header)
    ensures Octet(FourthOctet(h)) as bv8 ==
      (h.reserved1 as bv8 << 7) | (h.idLength as bv8 << 4) | (h.reserved2 as bv8 << 3) | h.seqLength as bv8
  {
    OctetBack(FourthOctet(h));
  }

  lemma IdOctets(id: nat)
    requires IdLength(id) > 0
    ensures FromBigEndian(IdBytes(id)) == id
  {
    IdFits(id);
    hide Pow256, IdLength;
    BigEndianRoundTrip(id, IdLength(id));
  }

  /** The body of a NAK: code 8, the scope's two ends, the count in eight octets. */
  lemma NakOctets(gs: seq<Interval>, max: nat)
    requires gs != [] && NakCodec.Words(gs) && |gs| < U32 * U32
    ensures var s := NakBody(gs, max);
      && |s| == 17 + 8 * |R.Requested(gs, max)| && s[0] == 8
      && FromBigEndian(s[1..5]) == gs[0].start && FromBigEndian(s[5..9]) == gs[|gs| - 1].end
      && FromBigEndian(s[9..17]) == |R.Requested(gs, max)|
  {
    var requested := R.Requested(gs, max);
    NakFrontOctets(gs[0].start, gs[|gs| - 1].end, |requested|);
    BodyInParts(gs, max);
    hide *;
    FrontSlices(NakFront(gs[0].start, gs[|gs| - 1].end, |requested|), SegmentBytes(requested));
  }

  /** Then, eight octets each, the ranges' two ends. */
  lemma NakRangeOctets(gs: seq<Interval>, max: nat, i: nat)
    requires gs != [] && NakCodec.Words(gs) && i < |R.Requested(gs, max)|
    ensures var s := NakBody(gs, max);
      && |s| == 17 + 8 * |R.Requested(gs, max)|
      && FromBigEndian(s[17 + 8 * i..21 + 8 * i]) == gs[i].start
      && FromBigEndian(s[21 + 8 * i..25 + 8 * i]) == gs[i].end
  {
    var requested := R.Requested(gs, max);
    BodyInParts(gs, max);
    WrittenAt(requested, i);
    RangeOctets(gs[i]);
    hide *;
    var ranges := SegmentBytes(requested);
    RestSlices(NakFront(gs[0].start, gs[|gs| - 1].end, |requested|), ranges, 8 * i);
    HalvesOf(ranges, 8 * i, RangeBytes(gs[i]));
  }

  lemma HalvesOf(s: seq<byte>, at: nat, part: seq<byte>)
    requires at + 8 <= |s| && s[at..at + 8] == part
    ensures s[at..at + 4] == part[0..4] && s[at + 4..at + 8] == part[4..8]
  {
    PartOf(s, at, 8, 0, 4);
    PartOf(s, at, 8, 4, 8);
  }

  lemma NakFrontOctets(first: nat, last: nat, count: nat)
    requires first < U32 && last < U32 && count < U32 * U32
    ensures var s := NakFront(first, last, count);
      && s[0] == 8 && FromBigEndian(s[1..5]) == first && FromBigEndian(s[5..9]) == last
      && FromBigEndian(s[9..17]) == count
  {
    WordBack(first);
    WordBack(last);
    Pow256Values();
    BigEndianRoundTrip(count, 8);
    hide BigEndian, FromBigEndian, Pow256;
    var s := NakFront(first, last, count);
    assert s[1..5] == BigEndian(first, 4) && s[5..9] == BigEndian(last, 4) && s[9..17] == BigEndian(count, 8);
  }

  lemma RangeOctets(g: Interval)
    requires g.start < U32 && g.end < U32
    ensures var s := RangeBytes(g); FromBigEndian(s[0..4]) == g.start && FromBigEndian(s[4..8]) == g.end
  {
    WordBack(g.start);
    WordBack(g.end);
    hide BigEndian, FromBigEndian;
    assert RangeBytes(g)[0..4] == BigEndian(g.start, 4) && RangeBytes(g)[4..8] == BigEndian(g.end, 4);
  }

  lemma FrontSlices(front: seq<byte>, rest: seq<byte>)
    requires |front| == 17
    ensures var s := front + rest;
      s[0] == front[0] && s[1..5] == front[1..5] && s[5..9] == front[5..9] && s[9..17] == front[9..17]
  {
  }

  lemma RestSlices(front: seq<byte>, rest: seq<byte>, k: nat)
    requires |front| == 17 && k + 8 <= |rest|
    ensures var s := front + rest;
      s[17 + k..21 + k] == rest[k..k + 4] && s[21 + k..25 + k] == rest[k + 4..k + 8]
  {
  }

  /** The body of a file data PDU: the offset in four octets, then the file's bytes. */
  lemma DataOctets(off: nat, payload: seq<byte>)
    requires off < U32
    ensures var s := SenderRequests.DataBody(off, payload);
      |s| == 4 + |payload| && FromBigEndian(s[..4]) == off && s[4..] == payload
  {
    WordBack(off);
    hide BigEndian, FromBigEndian;
    assert SenderRequests.DataBody(off, payload)[..4] == BigEndian(off, 4);
  }

  /** The fixed part of the metadata: code 7, segmentation control in the top bit of an octet, the file's size, then
      source and destination name behind their lengths. */
  lemma FixedOctets(segmentation: bv1, size: nat, source: Lv, dest: Lv)
    requires size < U32
    ensures var s := FixedBytes(segmentation, size, source, dest);
      && s[0] == 7 && s[1] == (if segmentation == 1 then 0x80 else 0) && FromBigEndian(s[2..6]) == size
      && s[6] == |source| && s[7..7 + |source|] == source
      && s[7 + |source|] == |dest| && s[8 + |source|..8 + |source| + |dest|] == dest
  {
    WordBack(size);
    TopBit(segmentation);
    hide BigEndian, FromBigEndian, SetBits, Octet;
    var head := HeadBytes(segmentation, size);
    assert head[2..6] == BigEndian(size, 4);
    SliceOfParts(head, LvBytes(source) + LvBytes(dest), 2, 6);
    LvParts(head, source, dest);
  }

  lemma TopBit(segmentation: bv1)
    ensures Octet(SetBits(0, 0, segmentation as bv8)) == if segmentation == 1 then 0x80 else 0
  {
    if segmentation == 0 {
      assert SetBits(0, 0, 0) == 0;
    } else {
      assert SetBits(0, 0, 1) == 0x80;
    }
  }

  /** Two length-value fields behind something else. */
  lemma LvParts(head: seq<byte>, a: Lv, b: Lv)
    ensures var s := head + LvBytes(a) + LvBytes(b);
      var j := |head| + 1 + |a|;
      && s == head + (LvBytes(a) + LvBytes(b)) && |s| == j + 1 + |b| && s[..|head|] == head
      && (forall i :: 0 <= i < |head| ==> s[i] == head[i])
      && s[|head|] == |a| && s[|head| + 1..j] == a && s[j] == |b| && s[j + 1..j + 1 + |b|] == b
  {
  }

  /** What every message begins with, and its first field. */
  lemma MessageHead(code: byte, field: Lv)
    ensures var s: seq<byte> := [0x63, 0x66, 0x64, 0x70, 0, code] + LvBytes(field);
      |s| == 7 + |field| && s[..6] == [0x63, 0x66, 0x64, 0x70, 0, code] && s[6] == |field| && s[7..7 + |field|] == field
  {
  }

  lemma FrontOfMessage(front: seq<byte>, a: seq<byte>, b: seq<byte>, d: seq<byte>)
    ensures front + (a + b + d) == front + a + b + d
  {
  }

  /** A message of three fields: what it begins with, then each behind its length. */
  lemma ThreeFields(code: byte, a: Lv, b: Lv, d: Lv)
    ensures var s: seq<byte> := [0x63, 0x66, 0x64, 0x70, 0, code] + LvBytes(a) + LvBytes(b) + LvBytes(d);
      var j := 7 + |a|;
      var k := j + 1 + |b|;
      && |s| == k + 1 + |d| && s[..6] == [0x63, 0x66, 0x64, 0x70, 0, code] && s[6] == |a| && s[7..j] == a
      && s[j] == |b| && s[j + 1..k] == b && s[k] == |d| && s[k + 1..k + 1 + |d|] == d
  {
    MessageHead(code, a);
    var head: seq<byte> := [0x63, 0x66, 0x64, 0x70, 0, code] + LvBytes(a);
    LvParts(head, b, d);
    hide LvBytes;
    SliceOfParts(head, LvBytes(b) + LvBytes(d), 0, 6);
    SliceOfParts(head, LvBytes(b) + LvBytes(d), 7, 7 + |a|);
  }

  /** A PROXY_PUT_REQUEST: "cfdp" and a zero, type 0, the destination behind its length, source and destination name. */
  lemma ProxyPutOctets(id: nat, source: Lv, dest: Lv)
    requires IdLength(id) > 0
    ensures var s, n := MessageBytes(ProxyPut(id, source, dest)), IdLength(id);
      var j := 7 + n;
      var k := j + 1 + |source|;
      && |s| == k + 1 + |dest| && s[..6] == [0x63, 0x66, 0x64, 0x70, 0, 0]
      && s[6] == n && FromBigEndian(s[7..j]) == id
      && s[j] == |source| && s[j + 1..k] == source && s[k] == |dest| && s[k + 1..k + 1 + |dest|] == dest
  {
    assert |IdBytes(id)| == IdLength(id);
    hide *;
    IdOctets(id);
    ThreeFields(0, IdBytes(id), source, dest);
    ProxyPutFields(id, source, dest);
  }

  lemma ProxyPutFields(id: nat, source: Lv, dest: Lv)
    ensures MessageBytes(ProxyPut(id, source, dest)) ==
      [0x63, 0x66, 0x64, 0x70, 0, 0] + LvBytes(IdBytes(id)) + LvBytes(source) + LvBytes(dest)
  {
    FrontOfMessage([0x63, 0x66, 0x64, 0x70, 0, 0], LvBytes(IdBytes(id)), LvBytes(source), LvBytes(dest));
    assert IdLvBytes(id) == LvBytes(IdBytes(id));
    hide IdBytes, LvBytes, IdLvBytes;
  }

  /** A CONTINUE_PARTIAL: type 10, then destination, originator and transaction, each behind its length. */
  lemma ContinuePartialOctets(d: nat, o: nat, t: nat)
    requires IdLength(d) > 0 && IdLength(o) > 0 && IdLength(t) > 0
    ensures var s := MessageBytes(ContinuePartial(d, o, t));
      var j := 7 + IdLength(d);
      var k := j + 1 + IdLength(o);
      && |s| == k + 1 + IdLength(t) && s[..6] == [0x63, 0x66, 0x64, 0x70, 0, 10]
      && s[6] == IdLength(d) && FromBigEndian(s[7..j]) == d
      && s[j] == IdLength(o) && FromBigEndian(s[j + 1..k]) == o
      && s[k] == IdLength(t) && FromBigEndian(s[k + 1..k + 1 + IdLength(t)]) == t
  {
    assert |IdBytes(d)| == IdLength(d) && |IdBytes(o)| == IdLength(o) && |IdBytes(t)| == IdLength(t);
    hide *;
    IdOctets(d);
    IdOctets(o);
    IdOctets(t);
    ThreeFields(10, IdBytes(d), IdBytes(o), IdBytes(t));
    ContinuePartialFields(d, o, t);
  }

  lemma ContinuePartialFields(d: nat, o: nat, t: nat)
    ensures MessageBytes(ContinuePartial(d, o, t)) ==
      [0x63, 0x66, 0x64, 0x70, 0, 10] + LvBytes(IdBytes(d)) + LvBytes(IdBytes(o)) + LvBytes(IdBytes(t))
  {
    FrontOfMessage([0x63, 0x66, 0x64, 0x70, 0, 10], LvBytes(IdBytes(d)), LvBytes(IdBytes(o)), LvBytes(IdBytes(t)));
    assert IdLvBytes(d) == LvBytes(IdBytes(d)) && IdLvBytes(o) == LvBytes(IdBytes(o));
    assert IdLvBytes(t) == LvBytes(IdBytes(t));
    hide IdBytes, LvBytes, IdLvBytes;
  }
}
