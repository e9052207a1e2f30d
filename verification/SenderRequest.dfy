/** The sending side as the code keeps it: one buffer, a running offset and checksum, loops that fill and send. */
module SenderRequests {
  import opened Options
  import opened Bytes
  import opened Intervals
  import opened Checksum
  import opened Segments
  import opened Delivery
  import opened HeaderCodec
  import opened NakCodec
  import R = Receiver
  import P = Protocol

  lemma QuadOfWord(x: nat)
    requires x < U32
    ensures Quad(BigEndian(x, 4)) == x
  {
    var s := BigEndian(x, 4);
    assert s[..3] == BigEndian(x / 256, 3);
    assert s[..3][..2] == BigEndian(x / 256 / 256, 2);
    assert s[..2][..1] == BigEndian(x / 256 / 256 / 256, 1);
  }

  /** The body of a file data PDU. */
  function DataBody(off: nat, payload: seq<byte>): seq<byte> {
    BigEndian(off, 4) + payload
  }

  /** A file data PDU read from its body. */
  function ReadData(body: seq<byte>): R.Pdu
    requires 4 <= |body| < 0x1_0000
  {
    R.Data(Quad(body[..4]), body[4..])
  }

  lemma DataRoundTrip(off: nat, payload: seq<byte>)
    requires off < U32 && |payload| + 4 < 0x1_0000
    ensures ReadData(DataBody(off, payload)) == R.Data(off, payload)
  {
    QuadOfWord(off);
    assert DataBody(off, payload)[..4] == BigEndian(off, 4);
    assert DataBody(off, payload)[4..] == payload;
  }

  class SenderRequest {
    /** The file behind the descriptor; it does not change during the transfer. */
    const contents: seq<byte>
    var totalSize: nat
    var nextOffset: nat
    var partial: uint32
    var started: bool
    var finished: bool

    constructor (contents: seq<byte>)
      ensures this.contents == contents && totalSize == |contents| && nextOffset == 0 && partial == 0
      ensures View() == P.Sender(false, 0, false)
    {
      this.contents := contents;
      totalSize, nextOffset, partial, started, finished := |contents|, 0, 0, false, false;
    }

    ghost function View(): P.Sender
      reads this
    {
      P.Sender(started, partial, finished)
    }

    /** Reads at most `size` octets at `offset`; `bytes` is -1 past the end of the file. */
    method GetOffset(size: nat, offset: nat) returns (bytes: int, read: seq<byte>)
      requires totalSize == |contents|
      ensures bytes == if offset >= |contents| then -1 else |read|
      ensures read == if offset >= |contents| then [] else contents[offset..Min(offset + size, |contents|)]
    {
      if offset >= totalSize {
        return -1, [];
      }
      read := contents[offset..Min(offset + size, totalSize)];
      bytes := |read|;
    }

    static lemma SumNext(c: Source, off: nat, sum: uint32)
      requires c.Valid() && SegmentsSummed(c) && Aligned(off, c.seg) && off < |c.bytes|
      ensures |c.Payload(off)| >= 4 && Aligned(off + c.seg, c.seg)
      ensures Add32(Add32(sum, CheckSum(c.Payload(off))), SumFrom(c, off + c.seg)) == Add32(sum, SumFrom(c, off))
    {
      PayloadSummed(c, off);
      hide CheckSum, Source.Payload, SegmentsSummed;
    }

    /** The file's checksum, read `stackBuffer` octets at a time: the sum the burst arrives at packet by packet. */
    method CheckSumFile(stackBuffer: nat, ghost c: Source) returns (sum: uint32)
      requires c.Valid() && c.bytes == contents && totalSize == |contents| && SegmentsSummed(c) && stackBuffer == c.seg
      ensures sum == SumFrom(c, 0)
    {
      hide CheckSum, SumFrom, SegmentsSummed, Aligned, Add32;
      sum := 0;
      var i := 0;
      SumStarts(c);
      while i < totalSize
        invariant Aligned(i, c.seg) && Add32(sum, SumFrom(c, i)) == SumFrom(c, 0)
        decreases |contents| - i
      {
        SumNext(c, i, sum);
        var bytes, read := GetOffset(stackBuffer, i);
        var next := CalcCheckSum(read);
        sum := Add32(sum, next);
        i := i + stackBuffer;
      }
      SumEnds(c, i, sum);
    }

    static lemma SumStarts(c: Source)
      requires c.Valid()
      ensures Aligned(0, c.seg) && Add32(0, SumFrom(c, 0)) == SumFrom(c, 0)
    {
    }

    static lemma SumEnds(c: Source, off: nat, sum: uint32)
      requires c.Valid() && off >= |c.bytes|
      ensures Add32(sum, SumFrom(c, off)) == sum
    {
    }

    /** Puts offset and file bytes behind the header, always as many as the packet holds. */
    method BuildDataPacket(packet: array<byte>, start: nat, end: nat, offset: nat) returns (dataLen: int)
      requires totalSize == |contents| && 3 <= start && start + 4 < end <= packet.Length && end - start < 0x1_0000
      modifies packet
      ensures dataLen == -1 <==> offset >= |contents|
      ensures offset < |contents| ==>
        var payload := contents[offset..Min(offset + (end - start - 4), |contents|)];
        dataLen == 4 + |payload| &&
        BodyPlaced(packet[..], old(packet[..]), start, DataBody(offset, payload), 4 + |payload|, 1)
    {
      ghost var was := packet[..];
      hide Overwritten, BigEndian, BodyPlaced, DataBody;
      PutBytes(packet, start, BigEndian(offset, 4));
      var bytes, read := GetOffset(end - start - 4, offset);
      if bytes <= 0 {
        return -1;
      }
      dataLen := bytes + 4;
      FinishData(packet, start, offset, read, was);
    }

    /** The bytes read go behind the offset, type and length into the header. */
    method FinishData(packet: array<byte>, start: nat, ghost offset: nat, read: seq<byte>, ghost was: seq<byte>)
      requires 3 <= start && start + 4 + |read| <= packet.Length == |was|
      requires packet[..] == Overwritten(was, start, BigEndian(offset, 4))
      modifies packet
      ensures BodyPlaced(packet[..], was, start, DataBody(offset, read), 4 + |read|, 1)
    {
      hide Overwritten, BigEndian, BodyPlaced, DataBody;
      DataInParts(was, start, offset, read);
      PutBytes(packet, start + 4, read);
      FinishBody(packet, start, DataBody(offset, read), was, 4 + |read|, 1);
    }

    lemma DataInParts(was: seq<byte>, start: nat, offset: nat, read: seq<byte>)
      requires start + 4 + |read| <= |was|
      ensures |DataBody(offset, read)| == 4 + |read|
      ensures Overwritten(Overwritten(was, start, BigEndian(offset, 4)), start + 4, read) ==
        Overwritten(was, start, DataBody(offset, read))
    {
      hide Overwritten, BigEndian;
      OverwrittenTwice(was, start, BigEndian(offset, 4), read);
    }

    /** One packet of the burst: the next segment into the buffer, its checksum and length into the file struct.
        `done` is the code's 1: this was the last one. */
    method CreateDataBurstPackets(packet: array<byte>, start: nat, length: nat, ghost c: Source) returns (done: bool)
      requires c.Valid() && c.bytes == contents && totalSize == |contents|
      requires 3 <= start && c.seg >= 4 && length == start + 4 + c.seg <= packet.Length && c.seg + 4 < 0x1_0000
      requires nextOffset < |contents| ==> |c.Payload(nextOffset)| >= 4
      modifies this`nextOffset, this`partial, packet
      ensures old(nextOffset) >= |contents| ==> !done && nextOffset == old(nextOffset) && partial == old(partial)
      ensures old(nextOffset) < |contents| ==>
        var payload := c.Payload(old(nextOffset));
        && nextOffset == c.End(old(nextOffset)) && done == (nextOffset == |contents|)
        && partial == Add32(old(partial), CheckSum(payload))
        && BodyPlaced(packet[..], old(packet[..]), start, DataBody(old(nextOffset), payload), 4 + |payload|, 1)
        && ReadPacket(packet[..], start) == Some(R.Data(old(nextOffset), payload))
    {
      hide BodyPlaced, DataBody, CheckSum, ReadPacket;
      if nextOffset >= totalSize {
        return false;
      }
      ghost var was := packet[..];
      var dataLen := BuildDataPacket(packet, start, length, nextOffset);
      var bytes := dataLen - 4;
      ghost var payload := c.Payload(nextOffset);
      Placed(packet[..], was, start, nextOffset, payload);
      PayloadOf(packet[..], was, start, nextOffset, payload);
      var sum := CalcCheckSum(packet[start + 4..start + 4 + bytes]);
      partial := Add32(partial, sum);
      nextOffset := nextOffset + bytes;
      done := nextOffset == totalSize;
    }

    lemma PayloadOf(s: seq<byte>, was: seq<byte>, start: nat, off: nat, payload: seq<byte>)
      requires BodyPlaced(s, was, start, DataBody(off, payload), 4 + |payload|, 1)
      ensures start + 4 + |payload| <= |s|
      ensures s[start + 4..start + 4 + |payload|] == payload
    {
      assert s[start + 4..start + 4 + |payload|] == s[start..start + 4 + |payload|][4..];
    }

    /** The transfer's start: metadata, the burst, EOF. A file of size zero gets its metadata only. */
    method AcknowledgedStart(packet: array<byte>, start: nat, length: nat, c: Source) returns (sent: seq<R.Pdu>)
      requires c.Valid() && c.bytes == contents && totalSize == |contents| && SegmentsSummed(c)
      requires 3 <= start && length == start + 4 + c.seg <= packet.Length && c.seg + 4 < 0x1_0000
      requires nextOffset == 0 && partial == 0 && !finished
      modifies this, packet
      ensures |contents| == 0 ==> sent == [R.Metadata(0)]
      ensures |contents| > 0 ==> (View(), sent) == P.StartSender(c)
      ensures totalSize == |contents|
    {
      started := true;
      sent := [R.Metadata(totalSize)];
      if totalSize == 0 {
        return;
      }
      var burst := Burst(packet, start, length, c);
      sent := sent + burst + [R.Eof(totalSize, partial)];
    }

    /** Packet number `last / seg` of the burst is in the buffer, the ones before it are in `sent`; `done` tells
        whether it is the last one. */
    ghost predicate Filled(packet: array<byte>, start: nat, c: Source, last: nat, sent: seq<R.Pdu>, done: bool)
      reads this, packet
    {
      && c.Valid() && c.bytes == contents && last < |contents| && 3 <= start && start + 4 <= packet.Length
      && InBurst(c, last, sent, partial) && nextOffset == c.End(last) && done == (nextOffset == |contents|)
      && ReadPacket(packet[..], start) == Some(R.Data(last, c.Payload(last)))
    }

    /** Fill the first packet. */
    method BurstFirst(packet: array<byte>, start: nat, length: nat, c: Source) returns (done: bool)
      requires c.Valid() && c.bytes == contents && totalSize == |contents| > 0 && SegmentsSummed(c)
      requires 3 <= start && length == start + 4 + c.seg <= packet.Length && c.seg + 4 < 0x1_0000
      requires nextOffset == 0 && partial == 0
      modifies this`nextOffset, this`partial, packet
      ensures Filled(packet, start, c, 0, [], done)
    {
      PayloadSummed(c, 0);
      BurstBegins(c);
      hide InBurst, BodyPlaced, SumWords, CheckSum, ReadPacket, SegmentsSummed, Aligned;
      done := CreateDataBurstPackets(packet, start, length, c);
    }

    /** Send the filled packet and fill the next. */
    method BurstNext(packet: array<byte>, start: nat, length: nat, c: Source, last: nat, sent: seq<R.Pdu>)
      returns (done: bool, sent': seq<R.Pdu>)
      requires totalSize == |contents| && Filled(packet, start, c, last, sent, false) && SegmentsSummed(c)
      requires 3 <= start && length == start + 4 + c.seg <= packet.Length && c.seg + 4 < 0x1_0000
      modifies this`nextOffset, this`partial, packet
      ensures Filled(packet, start, c, last + c.seg, sent', done)
    {
      hide InBurst, BodyPlaced, DataBody, SumWords, CheckSum, ReadPacket, Aligned, SegmentsSummed;
      sent' := sent + [ReadPacket(packet[..], start).value];
      BurstGrows(c, last, sent, partial);
      NextSummed(c, last, sent, partial);
      done := CreateDataBurstPackets(packet, start, length, c);
    }

    lemma BurstDone(packet: array<byte>, start: nat, c: Source, last: nat, sent: seq<R.Pdu>)
      requires Filled(packet, start, c, last, sent, true)
      ensures 3 <= start && start + 4 <= packet.Length && c.Valid()
      ensures ReadPacket(packet[..], start).Some?
      ensures sent + [ReadPacket(packet[..], start).value] == P.BurstFrom(c, 0)
      ensures partial == SumFrom(c, 0) && nextOffset == |contents|
    {
      hide InBurst, CheckSum, ReadPacket, P.BurstFrom, SumFrom;
      BurstEnds(c, last, sent, partial);
    }

    /** Fill a packet, send it, until the filled one is the last; then send that. */
    method Burst(packet: array<byte>, start: nat, length: nat, c: Source) returns (sent: seq<R.Pdu>)
      requires c.Valid() && c.bytes == contents && totalSize == |contents| > 0 && SegmentsSummed(c)
      requires 3 <= start && length == start + 4 + c.seg <= packet.Length && c.seg + 4 < 0x1_0000
      requires nextOffset == 0 && partial == 0
      modifies this`nextOffset, this`partial, packet
      ensures sent == P.BurstFrom(c, 0) && partial == SumFrom(c, 0) && nextOffset == |contents|
      ensures P.Payloads(sent) == contents && |sent| == Ceiling(|contents|, c.seg)
    {
      hide P.Payloads, Ceiling, Filled, ReadPacket, SegmentsSummed, P.BurstFrom, SumFrom;
      P.BurstFacts(c);
      sent := [];
      var done := BurstFirst(packet, start, length, c);
      var last: nat := 0;
      while !done
        invariant Filled(packet, start, c, last, sent, done)
        decreases |contents| - last
      {
        LastInFile(packet, start, c, last, sent, done);
        done, sent := BurstNext(packet, start, length, c, last, sent);
        last := last + c.seg;
      }
      BurstDone(packet, start, c, last, sent);
      sent := sent + [ReadPacket(packet[..], start).value];
    }

    lemma LastInFile(packet: array<byte>, start: nat, c: Source, last: nat, sent: seq<R.Pdu>, done: bool)
      requires Filled(packet, start, c, last, sent, done)
      ensures last < |contents|
    {
    }

    /** One requested range: packets from its start on, a segment apart, each as long as the buffer allows. */
    method SegmentOffset(packet: array<byte>, start: nat, buffLen: nat, offsetStart: nat, offsetEnd: nat,
                         ghost c: Source)
      returns (sent: seq<R.Pdu>)
      requires c.Valid() && c.bytes == contents && totalSize == |contents|
      requires 3 <= start && buffLen == start + 4 + c.seg <= packet.Length && c.seg + 4 < 0x1_0000
      modifies packet
      ensures sent == P.DataPdus(c, Retransmit(c, offsetStart, offsetEnd, c.seg))
    {
      hide P.DataPdus, Retransmit;
      var segmentLen := buffLen - start - 4;
      var i := offsetStart;
      sent := [];
      while i < offsetEnd
        invariant 0 < segmentLen
        invariant sent + P.DataPdus(c, Retransmit(c, i, offsetEnd, segmentLen)) ==
          P.DataPdus(c, Retransmit(c, offsetStart, offsetEnd, c.seg))
        decreases offsetEnd - i
      {
        ResendSplits(c, i, offsetEnd, segmentLen);
        if offsetEnd - i < segmentLen {
          segmentLen := offsetEnd - i;
        }
        var pdu := ResendAt(packet, start, buffLen, i, c);
        sent := sent + pdu;
        i := i + segmentLen;
      }
      NothingToResend(c, i, offsetEnd, segmentLen);
    }

    lemma NothingToResend(c: Source, i: nat, end: nat, segmentLen: nat)
      requires c.Valid() && i >= end && segmentLen > 0
      ensures P.DataPdus(c, Retransmit(c, i, end, segmentLen)) == []
    {
    }

    /** A NAK from behind its directive code: every range it lists is answered, in order. */
    method ProcessNakPdu(nak: seq<byte>, packet: array<byte>, start: nat, buffLen: nat, c: Source)
      returns (sent: seq<R.Pdu>)
      requires |nak| >= 16 && 16 + 8 * SegmentCount(nak) <= |nak|
      requires c.Valid() && c.bytes == contents && totalSize == |contents|
      requires 3 <= start && buffLen == start + 4 + c.seg <= packet.Length && c.seg + 4 < 0x1_0000
      modifies packet
      ensures sent == P.DataPdus(c, Retransmitted(c, DecodeNak(nak).segments))
    {
      sent := [];
      var i := 0;
      var packetIndex := 16;
      hide P.DataPdus, Retransmit, SegmentCount;
      assert sent == P.DataPdus(c, Retransmitted(c, ReadSegments(nak, 16, 0))) by { NoSegments(c); }
      while i < SegmentCount(nak)
        invariant i <= SegmentCount(nak) && packetIndex == 16 + 8 * i
        invariant sent == P.DataPdus(c, Retransmitted(c, ReadSegments(nak, 16, i)))
      {
        var g := ReadRange(nak, packetIndex);
        OneMoreAnswered(c, ReadSegments(nak, 16, i), g);
        var answer := SegmentOffset(packet, start, buffLen, g.start, g.end, c);
        sent := sent + answer;
        packetIndex := packetIndex + 8;
        i := i + 1;
      }
    }

    lemma NoSegments(c: Source)
      requires c.Valid()
      ensures P.DataPdus(c, Retransmitted(c, [])) == []
    {
    }

    /** The other PDUs the sender reacts to. */
    method ParsePacketClient(p: R.Pdu, c: Source) returns (sent: seq<R.Pdu>)
      requires c.Valid() && c.bytes == contents && totalSize == |contents| && !p.Nak?
      modifies this`finished
      ensures (View(), sent) == P.OnSenderPdu(c, old(View()), p)
    {
      match p
      case Finished =>
        finished := true;
        sent := [R.AckFinished];
      case NakMetadata => sent := [R.Metadata(totalSize)];
      case NakEof => sent := [R.Eof(totalSize, partial)];
      case _ => sent := [];
    }

    /** One retransmitted packet, or none past the end of the file. */
    method ResendAt(packet: array<byte>, start: nat, buffLen: nat, i: nat, ghost c: Source) returns (sent: seq<R.Pdu>)
      requires c.Valid() && c.bytes == contents && totalSize == |contents|
      requires 3 <= start && buffLen == start + 4 + c.seg <= packet.Length && c.seg + 4 < 0x1_0000
      modifies packet
      ensures sent == if i < |contents| then [R.Data(i, c.Payload(i))] else []
    {
      ghost var was := packet[..];
      var dataLen := BuildDataPacket(packet, start, buffLen, i);
      if dataLen < 0 {
        return [];
      }
      Placed(packet[..], was, start, i, c.Payload(i));
      sent := [ReadPacket(packet[..], start).value];
    }
  }

  lemma {:induction false} RetransmittedConcat(c: Source, a: seq<Interval>, b: seq<Interval>)
    requires c.Valid()
    ensures Retransmitted(c, a + b) == Retransmitted(c, a) + Retransmitted(c, b)
  {
    if a == [] {
      assert a + b == b;
    } else {
      assert (a + b)[0] == a[0] && (a + b)[1..] == a[1..] + b;
      RetransmittedConcat(c, a[1..], b);
    }
  }

  lemma {:induction false} DataPdusConcat(c: Source, a: seq<nat>, b: seq<nat>)
    requires c.Valid()
    ensures P.DataPdus(c, a + b) == P.DataPdus(c, a) + P.DataPdus(c, b)
  {
    if a == [] {
      assert a + b == b;
    } else {
      assert (a + b)[0] == a[0] && (a + b)[1..] == a[1..] + b;
      DataPdusConcat(c, a[1..], b);
    }
  }

  lemma OneMoreAnswered(c: Source, gs: seq<Interval>, g: Interval)
    requires c.Valid()
    ensures P.DataPdus(c, Retransmitted(c, gs + [g])) ==
      P.DataPdus(c, Retransmitted(c, gs)) + P.DataPdus(c, Retransmit(c, g.start, g.end, c.seg))
  {
    RetransmittedConcat(c, gs, [g]);
    assert Retransmitted(c, [g]) == Retransmit(c, g.start, g.end, c.seg) by {
      assert Retransmitted(c, [g][1..]) == [];
    }
    DataPdusConcat(c, Retransmitted(c, gs), Retransmit(c, g.start, g.end, c.seg));
  }

  /** In the middle of the burst: `sent` is out, the packet that starts at `last` is filled and not yet sent. */
  predicate InBurst(c: Source, last: nat, sent: seq<R.Pdu>, partial: uint32)
    requires c.Valid() && last < |c.bytes|
  {
    && Aligned(last, c.seg)
    && sent + [R.Data(last, c.Payload(last))] + P.BurstFrom(c, last + c.seg) == P.BurstFrom(c, 0)
    && Add32(partial, SumFrom(c, last + c.seg)) == SumFrom(c, 0)
  }

  lemma BurstBegins(c: Source)
    requires c.Valid() && |c.bytes| > 0
    ensures InBurst(c, 0, [], Add32(0, CheckSum(c.Payload(0))))
  {
    BurstStep(c, 0);
    hide CheckSum, P.BurstFrom, SumFrom;
    var first, rest := [R.Data(0, c.Payload(0))], P.BurstFrom(c, c.seg);
    assert [] + first + rest == first + rest;
  }

  lemma NextSummed(c: Source, last: nat, sent: seq<R.Pdu>, partial: uint32)
    requires c.Valid() && SegmentsSummed(c) && last + c.seg < |c.bytes| && InBurst(c, last, sent, partial)
    ensures |c.Payload(last + c.seg)| >= 4
  {
    NextAligned(last, c.seg);
    PayloadSummed(c, last + c.seg);
  }

  lemma BurstGrows(c: Source, last: nat, sent: seq<R.Pdu>, partial: uint32)
    requires c.Valid() && last + c.seg < |c.bytes| && InBurst(c, last, sent, partial)
    ensures InBurst(c, last + c.seg, sent + [R.Data(last, c.Payload(last))],
                    Add32(partial, CheckSum(c.Payload(last + c.seg))))
  {
    hide CheckSum, P.BurstFrom, SumFrom, Aligned, Source.Payload, Add32;
    var next := last + c.seg;
    NextAligned(last, c.seg);
    BurstStep(c, next);
    Add32Moves(partial, CheckSum(c.Payload(next)), SumFrom(c, next + c.seg));
    Regroup(sent + [R.Data(last, c.Payload(last))], [R.Data(next, c.Payload(next))], P.BurstFrom(c, next + c.seg));
  }

  lemma Regroup(a: seq<R.Pdu>, b: seq<R.Pdu>, d: seq<R.Pdu>)
    ensures a + b + d == a + (b + d)
  {
  }

  lemma BurstEnds(c: Source, last: nat, sent: seq<R.Pdu>, partial: uint32)
    requires c.Valid() && last < |c.bytes| && c.End(last) == |c.bytes| && InBurst(c, last, sent, partial)
    ensures sent + [R.Data(last, c.Payload(last))] == P.BurstFrom(c, 0) && partial == SumFrom(c, 0)
  {
    BurstStep(c, last + c.seg);
    hide CheckSum, P.BurstFrom, SumFrom;
    var all := sent + [R.Data(last, c.Payload(last))];
    assert all + [] == all;
  }

  lemma BurstStep(c: Source, off: nat)
    requires c.Valid()
    ensures off < |c.bytes| ==> P.BurstFrom(c, off) == [R.Data(off, c.Payload(off))] + P.BurstFrom(c, off + c.seg)
    ensures off < |c.bytes| ==> SumFrom(c, off) == Add32(CheckSum(c.Payload(off)), SumFrom(c, off + c.seg))
    ensures off >= |c.bytes| ==> P.BurstFrom(c, off) == [] && SumFrom(c, off) == 0
  {
    hide CheckSum;
  }

  /** The packets for a range are the one at its start and those for the rest. */
  lemma ResendSplits(c: Source, i: nat, end: nat, segmentLen: nat)
    requires c.Valid() && i < end && 0 < segmentLen
    ensures var step := Min(segmentLen, end - i);
      P.DataPdus(c, Retransmit(c, i, end, segmentLen)) ==
        (if i < |c.bytes| then [R.Data(i, c.Payload(i))] else []) + P.DataPdus(c, Retransmit(c, i + step, end, step))
  {
    var step := Min(segmentLen, end - i);
    var rest := Retransmit(c, i + step, end, step);
    if i < |c.bytes| {
      assert ([i] + rest)[1..] == rest;
    } else {
      assert [] + rest == rest;
    }
  }

  /** The data PDU a receiver reads from a packet whose body starts at `start`, if its type and its length field allow
      one. */
  function ReadPacket(s: seq<byte>, start: nat): Option<R.Pdu>
    requires 3 <= start && start + 4 <= |s|
  {
    var length := FromBigEndian(s[1..3]);
    if PduType(s) == 1 && 4 <= length < 0x1_0000 && start + length <= |s|
    then Some(ReadData(s[start..start + length])) else None
  }

  lemma Placed(s: seq<byte>, was: seq<byte>, start: nat, off: nat, payload: seq<byte>)
    requires off < U32 && |payload| + 4 < 0x1_0000
    requires BodyPlaced(s, was, start, DataBody(off, payload), 4 + |payload|, 1)
    ensures start + 4 <= |s| && ReadPacket(s, start) == Some(R.Data(off, payload))
  {
    TypePlaced(s, was, start, DataBody(off, payload), 4 + |payload|, 1);
    hide PduType;
    DataRoundTrip(off, payload);
    LengthBack(4 + |payload|);
    assert s[1..3] == s[..3][1..] == BigEndian(4 + |payload|, 2);
    assert |DataBody(off, payload)| == 4 + |payload|;
  }
}
