/** The NAK PDU: scopes, a 64-bit count, and as many missing ranges as fit the packet. */
module NakCodec {
  import opened Bytes
  import opened Intervals
  import R = Receiver
  import opened LinkedList
  import F = FileObject
  import opened HeaderCodec

  const NAK_PDU: byte := 8

  predicate Words(gs: seq<Interval>) {
    forall i :: 0 <= i < |gs| ==> gs[i].start < U32 && gs[i].end < U32
  }

  function RangeBytes(g: Interval): (s: seq<byte>)
    ensures |s| == 8
  {
    BigEndian(g.start, 4) + BigEndian(g.end, 4)
  }

  function SegmentBytes(gs: seq<Interval>): (s: seq<byte>)
    ensures |s| == 8 * |gs|
  {
    if gs == [] then [] else SegmentBytes(gs[..|gs| - 1]) + RangeBytes(gs[|gs| - 1])
  }

  /** How many ranges fit behind the 17 octets of directive code, scopes and count. */
  function MaxSegments(start: nat, packetLen: nat): (max: nat)
    requires start + 17 <= packetLen
    ensures start + 17 + 8 * max <= packetLen
  {
    (packetLen - (start + 17)) / 8
  }

  function ScopeBytes(gs: seq<Interval>, count: nat): (s: seq<byte>)
    requires gs != []
    ensures |s| == 16
  {
    BigEndian(gs[0].start, 4) + BigEndian(gs[|gs| - 1].end, 4) + BigEndian(count, 8)
  }

  /** The body the builder leaves for a missing list and a limit on the number of ranges. */
  function NakBody(gs: seq<Interval>, max: nat): seq<byte>
    requires gs != []
  {
    var requested := R.Requested(gs, max);
    [NAK_PDU] + ScopeBytes(gs, |requested|) + SegmentBytes(requested)
  }

  datatype Nak = Nak(startScope: nat, endScope: nat, segments: seq<Interval>)

  function ReadRange(s: seq<byte>, at: nat): Interval
    requires at + 8 <= |s|
  {
    Interval(FromBigEndian(s[at..at + 4]), FromBigEndian(s[at + 4..at + 8]))
  }

  function ReadSegments(s: seq<byte>, at: nat, count: nat): (gs: seq<Interval>)
    requires at + 8 * count <= |s|
    ensures |gs| == count
  {
    if count == 0 then [] else ReadSegments(s, at, count - 1) + [ReadRange(s, at + 8 * (count - 1))]
  }

  function SegmentCount(s: seq<byte>): nat
    requires |s| >= 16
  {
    FromBigEndian(s[8..16])
  }

  /** The parser, from behind the directive code. */
  function DecodeNak(s: seq<byte>): Nak
    requires |s| >= 16 && 16 + 8 * SegmentCount(s) <= |s|
  {
    Nak(FromBigEndian(s[0..4]), FromBigEndian(s[4..8]), ReadSegments(s, 16, SegmentCount(s)))
  }

  lemma WordBack(x: nat)
    requires x < U32
    ensures FromBigEndian(BigEndian(x, 4)) == x
  {
    Pow256Values();
    BigEndianRoundTrip(x, 4);
  }

  predicate Holds(s: seq<byte>, at: nat, part: seq<byte>) {
    at + |part| <= |s| && s[at..at + |part|] == part
  }

  lemma RangeBack(s: seq<byte>, at: nat, g: Interval)
    requires g.start < U32 && g.end < U32 && Holds(s, at, RangeBytes(g))
    ensures at + 8 <= |s| && ReadRange(s, at) == g
  {
    WordBack(g.start);
    WordBack(g.end);
    hide BigEndian, FromBigEndian;
    assert s[at..at + 4] == s[at..at + 8][..4];
    assert s[at + 4..at + 8] == s[at..at + 8][4..];
  }

  lemma HoldsPart(s: seq<byte>, at: nat, whole: seq<byte>, i: nat, j: nat)
    requires Holds(s, at, whole) && i <= j <= |whole|
    ensures Holds(s, at + i, whole[i..j])
  {
    PartOf(s, at, |whole|, i, j);
  }

  lemma {:induction false} ReadAt(s: seq<byte>, at: nat, count: nat, i: nat)
    requires i < count && at + 8 * count <= |s|
    ensures ReadSegments(s, at, count)[i] == ReadRange(s, at + 8 * i)
    decreases count
  {
    hide ReadRange;
    if i < count - 1 { ReadAt(s, at, count - 1, i); }
  }

  lemma LastSegment(gs: seq<Interval>)
    requires gs != []
    ensures SegmentBytes(gs) == SegmentBytes(gs[..|gs| - 1]) + RangeBytes(gs[|gs| - 1])
  {
    hide RangeBytes;
  }

  lemma {:induction false} WrittenAt(gs: seq<Interval>, i: nat)
    requires i < |gs|
    ensures SegmentBytes(gs)[8 * i..8 * i + 8] == RangeBytes(gs[i])
    decreases |gs|
  {
    var k := |gs| - 1;
    LastSegment(gs);
    hide RangeBytes, SegmentBytes;
    var front, last := SegmentBytes(gs[..k]), RangeBytes(gs[k]);
    if i < k {
      WrittenAt(gs[..k], i);
      SliceOfParts(front, last, 8 * i, 8 * i + 8);
    } else {
      SliceOfParts(front, last, 0, 0);
    }
  }

  lemma SegmentsBack(s: seq<byte>, at: nat, gs: seq<Interval>)
    requires Words(gs) && Holds(s, at, SegmentBytes(gs))
    ensures at + 8 * |gs| <= |s| && ReadSegments(s, at, |gs|) == gs
  {
    hide SegmentBytes, RangeBytes, ReadRange, ReadSegments;
    forall i | 0 <= i < |gs| ensures ReadSegments(s, at, |gs|)[i] == gs[i] {
      ReadAt(s, at, |gs|, i);
      WrittenAt(gs, i);
      HoldsPart(s, at, SegmentBytes(gs), 8 * i, 8 * i + 8);
      RangeBack(s, at + 8 * i, gs[i]);
    }
  }

  /** Decoding a built NAK yields the first ranges that fit, in order, and scopes that span the whole list. */
  lemma NakRoundTrip(gs: seq<Interval>, max: nat, rest: seq<byte>)
    requires gs != [] && Words(gs) && Min(|gs|, max) < U32 * U32
    ensures var s := NakBody(gs, max)[1..] + rest;
      && |s| >= 16 && 16 + 8 * SegmentCount(s) <= |s|
      && DecodeNak(s) == Nak(gs[0].start, gs[|gs| - 1].end, R.Requested(gs, max))
  {
    var requested := R.Requested(gs, max);
    var s := NakBody(gs, max)[1..] + rest;
    var a, b, n := BigEndian(gs[0].start, 4), BigEndian(gs[|gs| - 1].end, 4), BigEndian(|requested|, 8);
    WordBack(gs[0].start);
    WordBack(gs[|gs| - 1].end);
    Pow256Values();
    BigEndianRoundTrip(|requested|, 8);
    hide BigEndian, FromBigEndian, Pow256, R.Requested;
    assert s == a + b + n + SegmentBytes(requested) + rest;
    assert s[0..4] == a && s[4..8] == b && s[8..16] == n;
    assert s[16..16 + 8 * |requested|] == SegmentBytes(requested);
    RequestedWords(gs, max);
    SegmentsBack(s, 16, requested);
  }

  lemma RequestedWords(gs: seq<Interval>, max: nat)
    requires Words(gs)
    ensures Words(R.Requested(gs, max))
  {
  }

  /** The built PDU stays within the packet. */
  lemma NakFits(gs: seq<Interval>, start: nat, packetLen: nat)
    requires gs != [] && start + 17 <= packetLen
    ensures start + |NakBody(gs, MaxSegments(start, packetLen))| <= packetLen
  {
  }

  /** And nothing more would have fitted: it lists all ranges, or has no room for another. */
  lemma NakFills(gs: seq<Interval>, start: nat, packetLen: nat)
    requires gs != [] && start + 17 <= packetLen
    ensures var max := MaxSegments(start, packetLen);
      |R.Requested(gs, max)| == |gs| || start + |NakBody(gs, max)| + 8 > packetLen
  {
  }

  /** Builds the NAK behind the header: the ranges by iterating the list until the packet is full, then
      the scopes and the count in front of them. Returns the data length as its 16-bit field holds it. */
  method BuildNakPacket(packet: array<byte>, start: nat, packetLen: nat, f: F.File) returns (dataLen: nat)
    requires f.Valid() && f.Gaps() != []
    requires 3 <= start && start + 17 <= packetLen <= packet.Length
    modifies packet
    ensures BodyPlaced(packet[..], old(packet[..]), start, NakBody(old(f.Gaps()), MaxSegments(start, packetLen)),
                       dataLen, 0)
    ensures dataLen == |NakBody(old(f.Gaps()), MaxSegments(start, packetLen))| % 0x1_0000
    ensures PduType(packet[..]) == PduType(old(packet[..]))
  {
    ghost var was, gs := packet[..], f.Gaps();
    hide MaxSegments, F.File.Gaps, F.File.Valid, Overwritten, SegmentBytes, NakBody, R.Requested, BodyPlaced;
    hide PduType;
    var max := MaxSegments(start, packetLen);
    var first, last := f.Scope();
    var count := FillNakArray(packet, start + 17, max, f, gs);
    dataLen := FinishNak(packet, start, first, last, count, was, gs, max);
    TypePlaced(packet[..], was, start, NakBody(gs, max), dataLen, 0);
  }

  /** Directive code, scopes and count, in front of the ranges, and the header's data length. */
  method FinishNak(packet: array<byte>, start: nat, first: nat, last: nat, count: nat, ghost was: seq<byte>,
                   ghost gs: seq<Interval>, ghost max: nat)
    returns (dataLen: nat)
    requires gs != [] && first == gs[0].start && last == gs[|gs| - 1].end && count == |R.Requested(gs, max)|
    requires 3 <= start && start + 17 + 8 * max <= packet.Length == |was|
    requires packet[..] == Overwritten(was, start + 17, SegmentBytes(R.Requested(gs, max)))
    modifies packet
    ensures BodyPlaced(packet[..], was, start, NakBody(gs, max), dataLen, 0)
    ensures dataLen == |NakBody(gs, max)| % 0x1_0000
  {
    hide Overwritten, SegmentBytes, NakBody, NakFront, R.Requested, BodyPlaced;
    BodyInParts(gs, max);
    dataLen := (17 + 8 * count) % 0x1_0000;
    PutFront(packet, start, NakFront(first, last, count), SegmentBytes(R.Requested(gs, max)), was, dataLen);
  }

  /** Directive code, scopes and count. */
  function NakFront(first: nat, last: nat, count: nat): (s: seq<byte>)
    ensures |s| == 17
  {
    [NAK_PDU] + (BigEndian(first, 4) + BigEndian(last, 4) + BigEndian(count, 8))
  }

  lemma BodyInParts(gs: seq<Interval>, max: nat)
    requires gs != []
    ensures NakBody(gs, max) ==
      NakFront(gs[0].start, gs[|gs| - 1].end, |R.Requested(gs, max)|) + SegmentBytes(R.Requested(gs, max))
    ensures |SegmentBytes(R.Requested(gs, max))| == 8 * |R.Requested(gs, max)| <= 8 * max
  {
  }

  /** Scopes and count go in front of the ranges already written, then the header takes its data length. */
  method PutFront(packet: array<byte>, start: nat, head: seq<byte>, ghost tail: seq<byte>, ghost was: seq<byte>,
                  dataLen: nat)
    requires 3 <= start && start + |head| + |tail| <= packet.Length == |was|
    requires packet[..] == Overwritten(was, start + |head|, tail)
    modifies packet
    ensures BodyPlaced(packet[..], was, start, head + tail, dataLen, 0)
  {
    PutBytes(packet, start, head);
    FrontWritten(was, start, head, tail);
    FinishBody(packet, start, head + tail, was, dataLen, 0);
  }

  /** Writing the front part after the back part writes both. */
  lemma FrontWritten(s: seq<byte>, at: nat, a: seq<byte>, b: seq<byte>)
    requires at + |a| + |b| <= |s|
    ensures Overwritten(Overwritten(s, at + |a|, b), at, a) == Overwritten(s, at, a + b)
  {
  }

  /** The first `k` ranges have been visited, as many of them as fit written at `at`. */
  predicate RangesWritten(s: seq<byte>, was: seq<byte>, at: nat, gs: seq<Interval>, k: nat, count: nat, max: nat) {
    && k <= |gs| && count == Min(k, max) && at + 8 * count <= |was|
    && |SegmentBytes(gs[..count])| == 8 * count && s == Overwritten(was, at, SegmentBytes(gs[..count]))
  }

  lemma AllRangesWritten(s: seq<byte>, was: seq<byte>, at: nat, gs: seq<Interval>, count: nat, max: nat)
    requires RangesWritten(s, was, at, gs, |gs|, count, max)
    ensures count == |R.Requested(gs, max)| && |SegmentBytes(R.Requested(gs, max))| == 8 * count
    ensures at + 8 * count <= |was| && s == Overwritten(was, at, SegmentBytes(R.Requested(gs, max)))
  {
    hide SegmentBytes, Overwritten;
    assert gs[..count] == R.Requested(gs, max);
  }

  /** The callback's loop: one range after another into the packet, up to `max`. */
  method FillNakArray(packet: array<byte>, at: nat, max: nat, f: F.File, ghost gs: seq<Interval>)
    returns (count: nat)
    requires f.Valid() && f.Gaps() == gs && at + 8 * max <= packet.Length
    modifies packet
    ensures count == |R.Requested(gs, max)|
    ensures packet[..] == Overwritten(old(packet[..]), at, SegmentBytes(R.Requested(gs, max)))
  {
    ghost var was := packet[..];
    var cur := f.missing.head.next;
    ghost var k := 0;
    count := 0;
    f.FirstCursor();
    f.CursorFacts(cur, k);
    NothingWritten(was, at, gs, max);
    hide F.File.Valid, F.File.Gaps, F.File.Cursor, SegmentBytes, RangesWritten, Overwritten, R.Requested;
    while cur.next != null && cur != f.missing.tail
      invariant f.Valid() && f.Gaps() == gs
      invariant cur != null && f.Cursor(cur, k) && k <= |gs|
      invariant (cur.next != null && cur != f.missing.tail) <==> k < |gs|
      invariant RangesWritten(packet[..], was, at, gs, k, count, max)
      decreases |gs| - k
    {
      count := FillStep(packet, at, max, f, cur, k, count, was, gs);
      f.CursorFacts(cur, k);
      cur := cur.next;
      k := k + 1;
      f.CursorFacts(cur, k);
    }
    AllRangesWritten(packet[..], was, at, gs, count, max);
  }

  /** The callback on one node. */
  method FillStep(packet: array<byte>, at: nat, max: nat, f: F.File, cur: Node<F.Offset>, ghost k: nat, count: nat,
                  ghost was: seq<byte>, ghost gs: seq<Interval>)
    returns (count': nat)
    requires f.Valid() && f.Gaps() == gs && f.Cursor(cur, k) && k < |gs|
    requires at + 8 * max <= packet.Length == |was|
    requires RangesWritten(packet[..], was, at, gs, k, count, max)
    modifies packet
    ensures RangesWritten(packet[..], was, at, gs, k + 1, count', max)
  {
    f.CursorFacts(cur, k);
    hide F.File.Valid, F.File.Gaps, F.File.Cursor, SegmentBytes, RangeBytes, Overwritten, BigEndian;
    if count == max {
      return count;
    }
    var g := Interval(cur.element.value.start, cur.element.value.end);
    OneMoreRange(was, at, gs, count);
    PutBytes(packet, at + 8 * count, RangeBytes(g));
    count' := count + 1;
  }

  lemma NothingWritten(s: seq<byte>, at: nat, gs: seq<Interval>, max: nat)
    requires at <= |s|
    ensures RangesWritten(s, s, at, gs, 0, 0, max)
  {
  }

  lemma OneMoreRange(s: seq<byte>, at: nat, gs: seq<Interval>, k: nat)
    requires k < |gs| && at + 8 * (k + 1) <= |s|
    ensures |SegmentBytes(gs[..k + 1])| == 8 * (k + 1)
    ensures Overwritten(Overwritten(s, at, SegmentBytes(gs[..k])), at + 8 * k, RangeBytes(gs[k])) ==
      Overwritten(s, at, SegmentBytes(gs[..k + 1]))
  {
    assert gs[..k + 1][..k] == gs[..k];
    OverwrittenTwice(s, at, SegmentBytes(gs[..k]), RangeBytes(gs[k]));
  }
}
