/** The grid of segments a file is cut into, and the packets the sender makes from it. */
module Segments {
  import opened Bytes
  import opened Division
  import opened Intervals
  import opened Checksum

  /** The file being sent and the payload size of a full data packet. */
  datatype Source = Source(bytes: seq<byte>, seg: nat) {
    predicate Valid() { seg > 0 && |bytes| < 0x8000_0000 && seg < 0x1_0000 }

    /** Where the packet that starts at `off` ends. */
    function End(off: nat): nat { Min(off + seg, |bytes|) }

    function Payload(off: nat): field
      requires Valid() && off <= |bytes|
    {
      bytes[off..End(off)]
    }
  }

  /** Segments long enough for the checksum code to be defined. */
  predicate SegmentsSummed(c: Source)
    requires c.seg > 0
  {
    c.seg >= 4 && (|c.bytes| % c.seg == 0 || |c.bytes| % c.seg >= 4)
  }

  /** `x` is a whole number of full segments. */
  predicate Aligned(x: nat, seg: nat)
    requires seg > 0
  {
    x == 0 || (x >= seg && Aligned(x - seg, seg))
  }

  lemma {:induction false} AlignedIsMultiple(x: nat, seg: nat)
    requires seg > 0
    ensures Aligned(x, seg) <==> x % seg == 0
  {
    if x >= seg {
      AlignedIsMultiple(x - seg, seg);
      OneMultipleLess(x, seg);
    } else {
      SmallModulo(x, seg);
    }
  }

  /** The quotient rounded up. */
  function Ceiling(x: nat, d: nat): nat
    requires d > 0
  {
    (x + d - 1) / d
  }

  /** It counts the parts of size `d` that `x` is cut into, the last of them smaller. */
  lemma CeilingStep(x: nat, d: nat)
    requires d > 0
    ensures Ceiling(x, d) == if x == 0 then 0 else 1 + Ceiling(x - Min(x, d), d)
  {
    if x == 0 {
      QuotientIs(d - 1, d, 0, d - 1);
    } else if x <= d {
      QuotientIs(x + d - 1, d, 1, x - 1);
      QuotientIs(d - 1, d, 0, d - 1);
    } else {
      var q, r := (x - 1) / d, (x - 1) % d;
      QuotientIs(x + d - 1, d, q + 1, r);
    }
  }

  lemma {:induction false} AlignedModulo(n: nat, x: nat, seg: nat)
    requires seg > 0 && Aligned(x, seg) && x <= n
    ensures (n - x) % seg == n % seg
  {
    if x != 0 {
      AlignedModulo(n - seg, x - seg, seg);
      OneMultipleLess(n, seg);
    }
  }

  /** Every packet of such a file carries at least four octets. */
  lemma PayloadSummed(c: Source, off: nat)
    requires c.Valid() && SegmentsSummed(c) && off < |c.bytes| && Aligned(off, c.seg)
    ensures |c.Payload(off)| >= 4
  {
    AlignedModulo(|c.bytes|, off, c.seg);
    hide Aligned;
    if |c.bytes| - off < c.seg { SmallModulo(|c.bytes| - off, c.seg); }
  }

  lemma {:induction false} AlignedStep(x: nat, y: nat, seg: nat)
    requires seg > 0 && Aligned(x, seg) && Aligned(y, seg) && x < y
    ensures x + seg <= y && Aligned(x + seg, seg)
  {
    if x != 0 { AlignedStep(x - seg, y - seg, seg); }
  }

  lemma NextAligned(x: nat, seg: nat)
    requires seg > 0 && Aligned(x, seg)
    ensures Aligned(x + seg, seg)
  {
  }

  /** A packet's segment lies on the grid and carries the file's bytes. */
  predicate OnGrid(c: Source, off: nat, payload: field) {
    c.Valid() && off < |c.bytes| && Aligned(off, c.seg) && payload == c.Payload(off)
  }

  /** A gap boundary the sender can hit: a multiple of the segment size or the end of the file. */
  predicate Boundary(c: Source, x: nat)
    requires c.Valid()
  {
    Aligned(x, c.seg) || x == |c.bytes|
  }

  /** Sum of the segment checksums from `off` on. */
  function SumFrom(c: Source, off: nat): uint32
    requires c.Valid()
    decreases |c.bytes| + c.seg - off
  {
    if off >= |c.bytes| then 0 else Add32(CheckSum(c.Payload(off)), SumFrom(c, off + c.seg))
  }

  /** Sum of the checksums of the segments that start from `off` on and before `end`. */
  function SumTo(c: Source, off: nat, end: nat): uint32
    requires c.Valid()
    decreases end + c.seg - off
  {
    if off >= end || off >= |c.bytes| then 0 else Add32(CheckSum(c.Payload(off)), SumTo(c, off + c.seg, end))
  }

  /** Sum of the checksums of the segments that no gap covers, each once. */
  ghost function SumReceived(c: Source, gs: seq<Interval>, off: nat): uint32
    requires c.Valid()
    decreases |c.bytes| + c.seg - off
  {
    if off >= |c.bytes| then 0
    else if Misses(gs, off) then SumReceived(c, gs, off + c.seg)
    else Add32(CheckSum(c.Payload(off)), SumReceived(c, gs, off + c.seg))
  }

  lemma SumReceivedStep(c: Source, gs: seq<Interval>, off: nat)
    requires c.Valid()
    ensures SumReceived(c, gs, off) ==
      if off >= |c.bytes| then 0
      else if Misses(gs, off) then SumReceived(c, gs, off + c.seg)
      else Add32(CheckSum(c.Payload(off)), SumReceived(c, gs, off + c.seg))
  {
    hide Misses, CheckSum, Add32;
  }

  lemma {:induction false} SumReceivedAll(c: Source, gs: seq<Interval>, off: nat)
    requires c.Valid()
    requires forall x: nat :: x < |c.bytes| ==> !Misses(gs, x)
    ensures SumReceived(c, gs, off) == SumFrom(c, off)
    decreases |c.bytes| + c.seg - off
  {
    if off < |c.bytes| { SumReceivedAll(c, gs, off + c.seg); }
  }

  lemma {:induction false} SumReceivedNone(c: Source, gs: seq<Interval>, off: nat)
    requires c.Valid()
    requires forall x: nat :: x < |c.bytes| ==> Misses(gs, x)
    ensures SumReceived(c, gs, off) == 0
    decreases |c.bytes| + c.seg - off
  {
    if off < |c.bytes| { SumReceivedNone(c, gs, off + c.seg); }
  }

  /** The sum depends on the missing bytes only. */
  lemma {:induction false} SumReceivedSame(c: Source, gs: seq<Interval>, gs': seq<Interval>, off: nat)
    requires c.Valid() && forall x: nat :: x < |c.bytes| ==> (Misses(gs, x) <==> Misses(gs', x))
    ensures SumReceived(c, gs, off) == SumReceived(c, gs', off)
    decreases |c.bytes| + c.seg - off
  {
    if off < |c.bytes| { SumReceivedSame(c, gs, gs', off + c.seg); }
  }

  /** Behind `b` the segments before `end` are received and the others missing. */
  lemma {:induction false} SumReceivedTo(c: Source, gs: seq<Interval>, b: nat, end: nat, off: nat)
    requires c.Valid() && b <= off
    requires forall x: nat :: b <= x < |c.bytes| ==> (Misses(gs, x) <==> x >= end)
    ensures SumReceived(c, gs, off) == SumTo(c, off, end)
    decreases |c.bytes| + c.seg - off
  {
    if off < |c.bytes| { SumReceivedTo(c, gs, b, end, off + c.seg); }
  }

  /** Making the segments from `b` on missing again takes what they contributed before `end` out of the sum. */
  lemma {:induction false} SumReopened(c: Source, gs: seq<Interval>, gs': seq<Interval>, b: nat, end: nat, off: nat)
    requires c.Valid() && Aligned(b, c.seg) && Aligned(off, c.seg) && off <= b
    requires forall x: nat :: x < b && x < |c.bytes| ==> (Misses(gs, x) <==> Misses(gs', x))
    requires forall x: nat :: b <= x < |c.bytes| ==> (Misses(gs, x) <==> x >= end) && Misses(gs', x)
    ensures SumReceived(c, gs, off) == Add32(SumReceived(c, gs', off), SumTo(c, b, end))
    decreases b - off
  {
    hide Misses, Aligned, CheckSum, SumTo, SumReceived;
    if off == b {
      SumReceivedTo(c, gs, b, end, b);
      SumReceivedTo(c, gs', b, b, b);
      SumToNone(c, b, b);
    } else {
      AlignedStep(off, b, c.seg);
      SumReceivedStep(c, gs, off);
      SumReceivedStep(c, gs', off);
      if off >= |c.bytes| {
        SumToNone(c, b, end);
      } else {
        SumReopened(c, gs, gs', b, end, off + c.seg);
        hide Add32;
        if !Misses(gs, off) {
          Add32Moves(CheckSum(c.Payload(off)), SumReceived(c, gs', off + c.seg), SumTo(c, b, end));
        }
      }
    }
  }

  lemma SumToNone(c: Source, b: nat, end: nat)
    requires c.Valid() && b >= Min(end, |c.bytes|)
    ensures SumTo(c, b, end) == 0
  {
  }

  /** Taking one segment adds its checksum once, wherever it lies. */
  lemma {:induction false} SumReceivedAdds(c: Source, gs: seq<Interval>, gs': seq<Interval>, o: nat, off: nat)
    requires c.Valid() && Aligned(off, c.seg) && Aligned(o, c.seg) && o < |c.bytes|
    requires Misses(gs, o)
    requires forall x: nat :: Misses(gs', x) <==> Misses(gs, x) && !(o <= x < c.End(o))
    ensures SumReceived(c, gs', off) ==
      Add32(SumReceived(c, gs, off), if off <= o then CheckSum(c.Payload(o)) else 0)
    decreases |c.bytes| + c.seg - off
  {
    hide Misses, CheckSum, SumReceived;
    SumReceivedStep(c, gs, off);
    SumReceivedStep(c, gs', off);
    if off < |c.bytes| {
      NextAligned(off, c.seg);
      if off < o {
        AlignedStep(off, o, c.seg);
      } else if o < off {
        AlignedStep(o, off, c.seg);
      }
      hide Aligned;
      SumReceivedAdds(c, gs, gs', o, off + c.seg);
      assert Misses(gs', off) <==> Misses(gs, off) && off != o;
      if off < o && !Misses(gs, off) {
        Add32Moves(CheckSum(c.Payload(off)), SumReceived(c, gs, off + c.seg), CheckSum(c.Payload(o)));
      }
    }
  }

  /** Offsets the sender retransmits for one requested range. Each packet it makes is full length
      (or ends with the file), even where the range ends earlier. */
  function Retransmit(c: Source, s: nat, e: nat, seg: nat): seq<nat>
    requires 0 < seg
    decreases e - s
  {
    if s >= e then []
    else
      var step := Min(seg, e - s);
      (if s < |c.bytes| then [s] else []) + Retransmit(c, s + step, e, step)
  }

  /** From an aligned start the retransmitted offsets are the aligned ones, in order. */
  function GridOffsets(c: Source, s: nat, e: nat): seq<nat>
    requires c.Valid()
    decreases e - s
  {
    if s >= e then [] else [s] + GridOffsets(c, s + c.seg, e)
  }

  lemma {:induction false} RetransmitOnGrid(c: Source, s: nat, e: nat)
    requires c.Valid() && e <= |c.bytes|
    ensures Retransmit(c, s, e, c.seg) == GridOffsets(c, s, e)
    decreases e - s
  {
    if s < e {
      if e - s <= c.seg {
        assert Retransmit(c, e, e, e - s) == [];
        assert GridOffsets(c, s + c.seg, e) == [];
      } else {
        RetransmitOnGrid(c, s + c.seg, e);
      }
    }
  }

  /** Every offset the sender retransmits is aligned when the range starts aligned. */
  lemma {:induction false} RetransmitAligned(c: Source, s: nat, e: nat, o: nat)
    requires c.Valid() && (Aligned(s, c.seg) || s >= |c.bytes|)
    requires o in Retransmit(c, s, e, c.seg)
    ensures Aligned(o, c.seg) && o < |c.bytes|
    decreases e - s
  {
    if e - s <= c.seg {
      assert Retransmit(c, e, e, e - s) == [];
    } else if o != s || s >= |c.bytes| {
      RetransmitAligned(c, s + c.seg, e, o);
    }
  }
}
