/** Whole runs of data packets: confluence of delivery, and rounds of requested retransmission. */
module Delivery {
  import opened Bytes
  import opened Intervals
  import opened Checksum
  import opened Segments
  import opened Receiver
  import opened FileLemmas

  predicate AllOnGrid(c: Source, offs: seq<nat>)
    requires c.Valid()
  {
    forall i :: 0 <= i < |offs| ==> offs[i] < |c.bytes| && Aligned(offs[i], c.seg)
  }

  /** The file after the packets that start at `offs` arrive in that order. */
  function DeliverAll(c: Source, f: File, offs: seq<nat>): File
    requires c.Valid() && AllOnGrid(c, offs)
    decreases |offs|
  {
    if offs == [] then f
    else DeliverAll(c, ProcessData(f, offs[0], c.Payload(offs[0])), offs[1..])
  }

  // ----- confluence

  ghost predicate InSegments(c: Source, got: set<nat>, x: nat) {
    exists o :: o in got && o <= x < c.End(o)
  }

  /** What the missing bytes and the contents are once exactly the segments `got` arrived. */
  ghost predicate Shaped(c: Source, data: seq<byte>, gs: seq<Interval>, got: set<nat>) {
    && (forall x: nat :: Misses(gs, x) <==> x < |c.bytes| && !InSegments(c, got, x))
    && (forall x: nat :: x < |data| && Misses(gs, x) ==> data[x] == 0)
    && (forall o :: o in got ==> c.End(o) <= |data|)
    && (data == [] || exists o :: o in got && |data| == c.End(o))
  }

  /** `f` is what delivery of exactly the segments `got` must leave: missing bytes, contents and sum. */
  ghost predicate Described(c: Source, f: File, got: set<nat>) {
    Exact(c, f.data, f.partial, f.gaps) && Shaped(c, f.data, f.gaps, got)
  }

  lemma FreshDescribed(c: Source)
    requires c.Valid() && |c.bytes| > 0
    ensures Described(c, AddFirstOffset(EmptyFile, |c.bytes|), {})
  {
    FreshFileExact(c);
    var gs := [Interval(0, |c.bytes|)];
    assert AddFirstOffset(EmptyFile, |c.bytes|).gaps == gs;
    forall x: nat ensures Misses(gs, x) <==> x < |c.bytes| {
      if x < |c.bytes| { assert gs[0].start <= x < gs[0].end; }
    }
  }

  lemma DescribedStep(c: Source, f: File, got: set<nat>, off: nat)
    requires Described(c, f, got) && off < |c.bytes| && Aligned(off, c.seg)
    requires forall o :: o in got ==> o < |c.bytes| && Aligned(o, c.seg)
    ensures Described(c, ProcessData(f, off, c.Payload(off)), got + {off})
  {
    if Receive(f.gaps, off, c.End(off)).1 {
      DescribedTaken(c, f, got, off);
    } else {
      hide Exact, Shaped;
      AlreadyReceived(c, f, got, off);
      assert got + {off} == got;
      hide *;
      DataStep(c, f, off);
    }
  }

  lemma DescribedTaken(c: Source, f: File, got: set<nat>, off: nat)
    requires Described(c, f, got) && off < |c.bytes| && Aligned(off, c.seg)
    requires Receive(f.gaps, off, c.End(off)).1
    ensures Described(c, ProcessData(f, off, c.Payload(off)), got + {off})
  {
    assert c.Valid();
    hide Aligned, Receive, WriteAt, ProcessData, Exact, Shaped;
    DataStep(c, f, off);
    ExactStep(c, f, off);
    ShapeStep(c, f, got, off);
  }

  lemma ShapeStep(c: Source, f: File, got: set<nat>, off: nat)
    requires Described(c, f, got) && off < |c.bytes| && Aligned(off, c.seg)
    requires Receive(f.gaps, off, c.End(off)).1
    ensures Shaped(c, WriteAt(f.data, off, c.Payload(off)), Receive(f.gaps, off, c.End(off)).0, got + {off})
  {
    hide Receive, WriteAt;
    MissingShrinks(c, f.gaps, got, off);
    GrownBy(c, f, got, off);
  }

  /** A packet that is turned away was received before. */
  lemma AlreadyReceived(c: Source, f: File, got: set<nat>, off: nat)
    requires Described(c, f, got) && off < |c.bytes| && Aligned(off, c.seg)
    requires forall o :: o in got ==> o < |c.bytes| && Aligned(o, c.seg)
    requires !Receive(f.gaps, off, c.End(off)).1
    ensures off in got
  {
    hide Receive, Agrees, SumsTo;
    TakenIffFirstByteMissing(c, f.gaps, off);
    hide Misses, Exact;
    assert InSegments(c, got, off);
    var o :| o in got && o <= off < c.End(o);
    if o < off { AlignedStep(o, off, c.seg); }
  }

  lemma MissingShrinks(c: Source, gs: seq<Interval>, got: set<nat>, off: nat)
    requires c.Valid() && off < |c.bytes| && Aligned(off, c.seg) && Canonical(gs)
    requires Receive(gs, off, c.End(off)).1
    requires forall x: nat :: Misses(gs, x) <==> x < |c.bytes| && !InSegments(c, got, x)
    ensures forall x: nat :: Misses(Receive(gs, off, c.End(off)).0, x) <==>
      x < |c.bytes| && !InSegments(c, got + {off}, x)
  {
    EndIsBoundary(c, off);
    forall x: nat ensures Misses(Receive(gs, off, c.End(off)).0, x) <==>
      x < |c.bytes| && !InSegments(c, got + {off}, x)
    {
      CarveMisses(gs, off, c.End(off), x);
      OneMoreSegment(c, got, off, x);
    }
  }

  lemma OneMoreSegment(c: Source, got: set<nat>, off: nat, x: nat)
    ensures InSegments(c, got + {off}, x) <==> InSegments(c, got, x) || off <= x < c.End(off)
  {
    if InSegments(c, got, x) {
      var o :| o in got && o <= x < c.End(o);
      assert o in got + {off};
    }
    if off <= x < c.End(off) {
      assert off in got + {off};
    }
  }

  /** Length and zero holes of the contents after a write. */
  lemma GrownBy(c: Source, f: File, got: set<nat>, off: nat)
    requires c.Valid() && off < |c.bytes| && Aligned(off, c.seg)
    requires Canonical(f.gaps) && Receive(f.gaps, off, c.End(off)).1
    requires forall x: nat :: x < |f.data| && Misses(f.gaps, x) ==> f.data[x] == 0
    requires forall o :: o in got ==> c.End(o) <= |f.data|
    requires f.data == [] || exists o :: o in got && |f.data| == c.End(o)
    ensures var d := WriteAt(f.data, off, c.Payload(off));
      && (forall x: nat :: x < |d| && Misses(Receive(f.gaps, off, c.End(off)).0, x) ==> d[x] == 0)
      && (forall o :: o in got + {off} ==> c.End(o) <= |d|)
      && (d == [] || exists o :: o in got + {off} && |d| == c.End(o))
  {
    EndIsBoundary(c, off);
    var d := WriteAt(f.data, off, c.Payload(off));
    forall x: nat | x < |d| && Misses(Receive(f.gaps, off, c.End(off)).0, x) ensures d[x] == 0 {
      CarveMisses(f.gaps, off, c.End(off), x);
    }
    if |d| == c.End(off) {
      assert off in got + {off};
    } else {
      var o :| o in got && |f.data| == c.End(o);
      assert o in got + {off};
    }
  }

  ghost function Offsets(offs: seq<nat>): set<nat> { set o | o in offs }

  lemma {:induction false} DeliverDescribed(c: Source, f: File, got: set<nat>, offs: seq<nat>)
    requires c.Valid() && AllOnGrid(c, offs) && Described(c, f, got)
    requires forall o :: o in got ==> o < |c.bytes| && Aligned(o, c.seg)
    ensures Described(c, DeliverAll(c, f, offs), got + Offsets(offs))
    decreases |offs|
  {
    hide Described, ProcessData, Aligned;
    if offs == [] {
      assert got + Offsets(offs) == got;
    } else {
      DescribedStep(c, f, got, offs[0]);
      DeliverDescribed(c, ProcessData(f, offs[0], c.Payload(offs[0])), got + {offs[0]}, offs[1..]);
      assert offs == [offs[0]] + offs[1..];
      assert got + {offs[0]} + Offsets(offs[1..]) == got + Offsets(offs);
    }
  }

  lemma DescribedUnique(c: Source, f: File, f': File, got: set<nat>)
    requires Described(c, f, got) && Described(c, f', got)
    ensures f.gaps == f'.gaps && f.data == f'.data && f.partial == f'.partial
  {
    CanonicalUnique(f.gaps, f'.gaps);
    SameLength(c, f, f', got);
    forall x: nat | x < |f.data| ensures f.data[x] == f'.data[x] {
      if !Misses(f.gaps, x) { assert HoldsByte(c, f.data, x) && HoldsByte(c, f'.data, x); }
    }
  }

  lemma SameLength(c: Source, f: File, f': File, got: set<nat>)
    requires Described(c, f, got) && Described(c, f', got)
    ensures |f.data| == |f'.data|
  {
    if f.data != [] {
      var o :| o in got && |f.data| == c.End(o);
    }
    if f'.data != [] {
      var o :| o in got && |f'.data| == c.End(o);
    }
  }

  /** Delivery leaves the other fields alone. */
  lemma {:induction false} DeliverKeepsRest(c: Source, f: File, offs: seq<nat>)
    requires c.Valid() && AllOnGrid(c, offs)
    ensures var f' := DeliverAll(c, f, offs);
      f' == f.(gaps := f'.gaps, data := f'.data, partial := f'.partial)
    decreases |offs|
  {
    if offs != [] { DeliverKeepsRest(c, ProcessData(f, offs[0], c.Payload(offs[0])), offs[1..]); }
  }

  /** Confluence: order and repetition of packets do not matter, only which segments arrived. */
  lemma DeliveryConfluent(c: Source, offs: seq<nat>, offs': seq<nat>)
    requires c.Valid() && |c.bytes| > 0 && AllOnGrid(c, offs) && AllOnGrid(c, offs')
    requires forall o :: o in offs <==> o in offs'
    ensures var f := AddFirstOffset(EmptyFile, |c.bytes|); DeliverAll(c, f, offs) == DeliverAll(c, f, offs')
  {
    var f := AddFirstOffset(EmptyFile, |c.bytes|);
    FreshDescribed(c);
    DeliverDescribed(c, f, {}, offs);
    DeliverDescribed(c, f, {}, offs');
    assert {} + Offsets(offs) == {} + Offsets(offs');
    DescribedUnique(c, DeliverAll(c, f, offs), DeliverAll(c, f, offs'), {} + Offsets(offs));
    DeliverKeepsRest(c, f, offs);
    DeliverKeepsRest(c, f, offs');
  }

  // ----- rounds of NAK and retransmission

  /** Offsets of all packets sent for the ranges a NAK lists. */
  function Retransmitted(c: Source, gs: seq<Interval>): seq<nat>
    requires c.Valid()
  {
    if gs == [] then [] else Retransmit(c, gs[0].start, gs[0].end, c.seg) + Retransmitted(c, gs[1..])
  }

  lemma {:induction false} DeliverConcat(c: Source, f: File, a: seq<nat>, b: seq<nat>)
    requires c.Valid() && AllOnGrid(c, a) && AllOnGrid(c, b)
    ensures AllOnGrid(c, a + b)
    ensures DeliverAll(c, f, a + b) == DeliverAll(c, DeliverAll(c, f, a), b)
    decreases |a|
  {
    if a == [] {
      assert a + b == b;
    } else {
      assert (a + b)[1..] == a[1..] + b && (a + b)[0] == a[0];
      DeliverConcat(c, ProcessData(f, a[0], c.Payload(a[0])), a[1..], b);
    }
  }

  /** The first packet sent for the first gap ends inside it or with it. */
  lemma FirstPacketFits(c: Source, g: Interval)
    requires c.Valid() && Aligned(g.start, c.seg) && g.start < g.end <= |c.bytes| && Boundary(c, g.end)
    ensures g.start < c.End(g.start) <= g.end
    ensures c.End(g.start) < g.end ==> c.End(g.start) == g.start + c.seg
  {
    if g.end != |c.bytes| { AlignedStep(g.start, g.end, c.seg); }
  }

  lemma ExactIsValid(c: Source, f: File)
    requires Exact(c, f.data, f.partial, f.gaps)
    ensures c.Valid()
  {
  }

  /** It trims the gap from the left, or closes it. */
  lemma GapTrimmed(c: Source, f: File)
    requires Exact(c, f.data, f.partial, f.gaps) && f.gaps != [] && Aligned(f.gaps[0].start, c.seg)
    ensures var g := f.gaps[0];
      var e := c.End(g.start);
      g.start < |c.bytes| && g.start < e <= g.end && e <= g.start + c.seg && (e < g.end ==> e == g.start + c.seg) &&
      var f1 := ProcessData(f, g.start, c.Payload(g.start));
      && Exact(c, f1.data, f1.partial, f1.gaps)
      && (e == g.end ==> f1.gaps == f.gaps[1..])
      && (e < g.end ==> f1.gaps != [] && f1.gaps[0] == Interval(e, g.end) && f1.gaps[1..] == f.gaps[1..])
  {
    var g := f.gaps[0];
    assert c.Valid() && g.start < g.end <= |c.bytes| && Boundary(c, g.end);
    hide Exact, Aligned;
    FirstPacketFits(c, g);
    DataStep(c, f, g.start);
    ExactStep(c, f, g.start);
    assert FirstEnclosing(f.gaps, g.start, c.End(g.start)) == 0;
  }

  lemma DeliverGridCons(c: Source, f: File, off: nat, end: nat)
    requires c.Valid() && Aligned(off, c.seg) && off < end && off < |c.bytes|
    requires AllOnGrid(c, GridOffsets(c, off + c.seg, end))
    ensures AllOnGrid(c, GridOffsets(c, off, end))
    ensures DeliverAll(c, f, GridOffsets(c, off, end)) ==
      DeliverAll(c, ProcessData(f, off, c.Payload(off)), GridOffsets(c, off + c.seg, end))
  {
    var offs := GridOffsets(c, off, end);
    assert offs[0] == off && offs[1..] == GridOffsets(c, off + c.seg, end);
  }

  lemma NoMoreOffsets(c: Source, f: File, off: nat, end: nat)
    requires c.Valid() && end <= off
    ensures AllOnGrid(c, GridOffsets(c, off, end)) && DeliverAll(c, f, GridOffsets(c, off, end)) == f
  {
  }

  /** After the packets `offs` exactly `gs` is missing, and the file is exact. */
  ghost predicate Leave(c: Source, f: File, offs: seq<nat>, gs: seq<Interval>) {
    c.Valid() && AllOnGrid(c, offs) &&
    var f' := DeliverAll(c, f, offs);
    f'.gaps == gs && Exact(c, f'.data, f'.partial, f'.gaps)
  }

  lemma LastOffset(c: Source, f: File, off: nat, end: nat)
    requires Exact(c, f.data, f.partial, f.gaps) && end <= off
    ensures Leave(c, f, GridOffsets(c, off, end), f.gaps)
  {
    ExactIsValid(c, f);
    NoMoreOffsets(c, f, off, end);
  }

  lemma OneOffsetMore(c: Source, f: File, off: nat, end: nat, gs: seq<Interval>)
    requires c.Valid() && Aligned(off, c.seg) && off < end && off < |c.bytes|
    requires Leave(c, ProcessData(f, off, c.Payload(off)), GridOffsets(c, off + c.seg, end), gs)
    ensures Leave(c, f, GridOffsets(c, off, end), gs)
  {
    hide Exact;
    DeliverGridCons(c, f, off, end);
  }

  /** The packets sent for the first gap close exactly that gap. */
  lemma {:induction false} FirstGapFilled(c: Source, f: File)
    requires Exact(c, f.data, f.partial, f.gaps) && f.gaps != [] && Aligned(f.gaps[0].start, c.seg)
    ensures Leave(c, f, GridOffsets(c, f.gaps[0].start, f.gaps[0].end), f.gaps[1..])
    decreases f.gaps[0].end - f.gaps[0].start
  {
    ExactIsValid(c, f);
    hide *;
    GapTrimmed(c, f);
    var g := f.gaps[0];
    if c.End(g.start) == g.end {
      GapTakenWhole(c, f);
    } else {
      NextAligned(g.start, c.seg);
      FirstGapFilled(c, ProcessData(f, g.start, c.Payload(g.start)));
      GapTakenOn(c, f);
    }
  }

  lemma GapTakenWhole(c: Source, f: File)
    requires Exact(c, f.data, f.partial, f.gaps) && f.gaps != [] && Aligned(f.gaps[0].start, c.seg)
    requires c.End(f.gaps[0].start) == f.gaps[0].end
    ensures Leave(c, f, GridOffsets(c, f.gaps[0].start, f.gaps[0].end), f.gaps[1..])
  {
    ExactIsValid(c, f);
    hide *;
    GapTrimmed(c, f);
    var g := f.gaps[0];
    LastOffset(c, ProcessData(f, g.start, c.Payload(g.start)), g.start + c.seg, g.end);
    OneOffsetMore(c, f, g.start, g.end, f.gaps[1..]);
  }

  lemma GapTakenOn(c: Source, f: File)
    requires Exact(c, f.data, f.partial, f.gaps) && f.gaps != [] && Aligned(f.gaps[0].start, c.seg)
    requires c.Valid() && f.gaps[0].start < |c.bytes| && c.End(f.gaps[0].start) != f.gaps[0].end
    requires var f1 := ProcessData(f, f.gaps[0].start, c.Payload(f.gaps[0].start));
      f1.gaps != [] && Leave(c, f1, GridOffsets(c, f1.gaps[0].start, f1.gaps[0].end), f1.gaps[1..])
    ensures Leave(c, f, GridOffsets(c, f.gaps[0].start, f.gaps[0].end), f.gaps[1..])
  {
    hide *;
    GapTrimmed(c, f);
    OneOffsetMore(c, f, f.gaps[0].start, f.gaps[0].end, f.gaps[1..]);
  }

  /** The packets sent for the first gap are those of its grid. */
  lemma FirstGapOnGrid(c: Source, f: File)
    requires Exact(c, f.data, f.partial, f.gaps) && f.gaps != []
    ensures c.Valid() && Aligned(f.gaps[0].start, c.seg)
    ensures Retransmit(c, f.gaps[0].start, f.gaps[0].end, c.seg) == GridOffsets(c, f.gaps[0].start, f.gaps[0].end)
  {
    var g := f.gaps[0];
    assert g.start < g.end && g.end <= |c.bytes| && Boundary(c, g.start);
    RetransmitOnGrid(c, g.start, g.end);
  }

  /** A loss-free round for the first `k` gaps removes exactly those, and keeps the file exact. */
  lemma {:induction false} GapsFilled(c: Source, f: File, k: nat)
    requires Exact(c, f.data, f.partial, f.gaps) && k <= |f.gaps|
    ensures var offs := Retransmitted(c, f.gaps[..k]);
      AllOnGrid(c, offs) &&
      var f' := DeliverAll(c, f, offs);
      f'.gaps == f.gaps[k..] && Exact(c, f'.data, f'.partial, f'.gaps)
    decreases k
  {
    if k > 0 {
      FirstGapOnGrid(c, f);
      hide Exact, Aligned, DeliverAll, GridOffsets, Retransmit;
      var g := f.gaps[0];
      FirstGapFilled(c, f);
      var first := GridOffsets(c, g.start, g.end);
      var f1 := DeliverAll(c, f, first);
      GapsFilled(c, f1, k - 1);
      assert f.gaps[..k][1..] == f1.gaps[..k - 1];
      hide AllOnGrid;
      DeliverConcat(c, f, first, Retransmitted(c, f1.gaps[..k - 1]));
    }
  }

  /** One loss-free round: the receiver asks for at most `max` gaps and every answer arrives in order. */
  function NakRound(c: Source, f: File, max: nat): File
    requires c.Valid()
  {
    var offs := Retransmitted(c, Requested(f.gaps, max));
    if AllOnGrid(c, offs) then DeliverAll(c, f, offs) else f
  }

  lemma RoundFills(c: Source, f: File, max: nat)
    requires Exact(c, f.data, f.partial, f.gaps)
    ensures c.Valid()
    ensures var f' := NakRound(c, f, max);
      f'.gaps == f.gaps[Min(|f.gaps|, max)..] && Exact(c, f'.data, f'.partial, f'.gaps)
  {
    ExactIsValid(c, f);
    hide Exact, DeliverAll, Retransmitted;
    GapsFilled(c, f, Min(|f.gaps|, max));
  }

  function NakRounds(c: Source, f: File, max: nat, rounds: nat): File
    requires c.Valid()
    decreases rounds
  {
    if rounds == 0 then f else NakRounds(c, NakRound(c, f, max), max, rounds - 1)
  }

  lemma OneRoundLess(k: nat, max: nat, rounds: nat)
    requires k <= rounds * max && rounds > 0
    ensures k - Min(k, max) <= (rounds - 1) * max
  {
    assert (rounds - 1) * max == rounds * max - max;
  }

  lemma NoRounds(c: Source, f: File, max: nat)
    requires Exact(c, f.data, f.partial, f.gaps) && |c.bytes| > 0 && f.gaps == []
    ensures c.Valid() && NakRounds(c, f, max, 0) == f && f.data == c.bytes && f.partial == SumFrom(c, 0)
  {
    ExactAndEmptyIsComplete(c, f.data, f.partial);
  }

  lemma RoundLess(c: Source, f: File, max: nat, rounds: nat)
    requires Exact(c, f.data, f.partial, f.gaps) && |f.gaps| <= rounds * max && rounds > 0
    ensures c.Valid()
    ensures var f' := NakRound(c, f, max);
      && Exact(c, f'.data, f'.partial, f'.gaps) && |f'.gaps| <= (rounds - 1) * max
      && NakRounds(c, f, max, rounds) == NakRounds(c, f', max, rounds - 1)
  {
    ExactIsValid(c, f);
    hide Exact, NakRound;
    RoundFills(c, f, max);
    OneRoundLess(|f.gaps|, max, rounds);
  }

  /** Once `rounds * max` covers the gaps, the receiver holds the whole file and the sender's checksum. */
  lemma {:induction false} RoundsComplete(c: Source, f: File, max: nat, rounds: nat)
    requires Exact(c, f.data, f.partial, f.gaps) && |c.bytes| > 0
    requires |f.gaps| <= rounds * max
    ensures var f' := NakRounds(c, f, max, rounds);
      f'.gaps == [] && f'.data == c.bytes && f'.partial == SumFrom(c, 0)
    decreases rounds
  {
    ExactIsValid(c, f);
    hide *;
    if rounds == 0 {
      NoRounds(c, f, max);
    } else {
      RoundLess(c, f, max, rounds);
      RoundsComplete(c, NakRound(c, f, max), max, rounds - 1);
    }
  }
}
