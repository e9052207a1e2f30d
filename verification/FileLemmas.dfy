/** What a sequence of data packets does to the receiver's file: gaps, bytes and checksum together. */
module FileLemmas {
  import opened Bytes
  import opened Intervals
  import opened Checksum
  import opened Segments
  import opened Receiver

  /** Every byte below `bound` is missing or holds the sender's byte, and nothing lies past the file's end. */
  ghost predicate Agrees(c: Source, data: seq<byte>, gs: seq<Interval>, bound: nat) {
    && |data| <= |c.bytes|
    && forall x: nat :: x < |c.bytes| && x < bound ==> Misses(gs, x) || HoldsByte(c, data, x)
  }

  predicate HoldsByte(c: Source, data: seq<byte>, x: nat)
    requires x < |c.bytes|
  {
    x < |data| && data[x] == c.bytes[x]
  }

  /** Gap starts lie on the grid or at the end of the file. */
  ghost predicate StartsOnGrid(c: Source, gs: seq<Interval>)
    requires c.Valid()
  {
    forall i :: 0 <= i < |gs| ==> gs[i].start <= |c.bytes| && Boundary(c, gs[i].start)
  }

  /** Both ends of every gap lie on the grid or at the end of the file. */
  ghost predicate GapsOnGrid(c: Source, gs: seq<Interval>)
    requires c.Valid()
  {
    && StartsOnGrid(c, gs)
    && forall i :: 0 <= i < |gs| ==> gs[i].end <= |c.bytes| && Boundary(c, gs[i].end)
  }

  /** A new list's bounds come from the old list or from the segment. */
  lemma ReceiveBounds(gs: seq<Interval>, s: nat, e: nat, j: nat)
    requires j < |Receive(gs, s, e).0|
    ensures var g := Receive(gs, s, e).0[j];
      exists i :: 0 <= i < |gs| && (g.start == gs[i].start || g.start == e) && (g.end == gs[i].end || g.end == s)
  {
    var i := FirstEnclosing(gs, s, e);
    if i < |gs| {
      var n := |Carve(gs[i], s, e)|;
      var k := if j < i then j else if j < i + n then i else j - n + 1;
      assert 0 <= k < |gs|;
      var g := Receive(gs, s, e).0[j];
      assert (g.start == gs[k].start || g.start == e) && (g.end == gs[k].end || g.end == s);
    } else {
      var g := Receive(gs, s, e).0[j];
      assert g == gs[j];
    }
  }

  lemma EndIsBoundary(c: Source, off: nat)
    requires c.Valid() && off < |c.bytes| && Aligned(off, c.seg)
    ensures off < c.End(off) <= |c.bytes| && Boundary(c, c.End(off)) && |c.Payload(off)| == c.End(off) - off
  {
    assert Aligned(off + c.seg, c.seg);
  }

  lemma StartsStayOnGrid(c: Source, gs: seq<Interval>, off: nat)
    requires c.Valid() && off < |c.bytes| && Aligned(off, c.seg)
    requires StartsOnGrid(c, gs)
    ensures StartsOnGrid(c, Receive(gs, off, c.End(off)).0)
  {
    EndIsBoundary(c, off);
    var r := Receive(gs, off, c.End(off)).0;
    forall j | 0 <= j < |r| ensures r[j].start <= |c.bytes| && Boundary(c, r[j].start) {
      ReceiveBounds(gs, off, c.End(off), j);
    }
  }

  /** The segment grid is kept by every packet the sender can emit. */
  lemma GapsStayOnGrid(c: Source, gs: seq<Interval>, off: nat)
    requires c.Valid() && off < |c.bytes| && Aligned(off, c.seg)
    requires GapsOnGrid(c, gs)
    ensures GapsOnGrid(c, Receive(gs, off, c.End(off)).0)
  {
    StartsStayOnGrid(c, gs, off);
    var r := Receive(gs, off, c.End(off)).0;
    forall j | 0 <= j < |r| ensures r[j].end <= |c.bytes| && Boundary(c, r[j].end) {
      ReceiveBounds(gs, off, c.End(off), j);
    }
  }

  /** On the grid a packet is taken exactly when its first byte is missing. */
  lemma TakenIffFirstByteMissing(c: Source, gs: seq<Interval>, off: nat)
    requires c.Valid() && off < |c.bytes| && Aligned(off, c.seg)
    requires Ordered(gs) && GapsOnGrid(c, gs)
    ensures Receive(gs, off, c.End(off)).1 <==> Misses(gs, off)
  {
    EndIsBoundary(c, off);
    TakenIffAllMissing(gs, off, c.End(off));
    if Misses(gs, off) {
      var i :| 0 <= i < |gs| && gs[i].start <= off < gs[i].end;
      assert Boundary(c, gs[i].end);
      if gs[i].end != |c.bytes| { AlignedStep(off, gs[i].end, c.seg); }
      assert Encloses(gs[i], off, c.End(off));
    }
  }

  /** The file after a grid packet, in terms of the bytes written. */
  lemma DataStep(c: Source, f: File, off: nat)
    requires c.Valid() && off < |c.bytes| && Aligned(off, c.seg)
    ensures var r := Receive(f.gaps, off, c.End(off));
      ProcessData(f, off, c.Payload(off)) ==
        if r.1 then f.(gaps := r.0, data := WriteAt(f.data, off, c.Payload(off)),
                       partial := Add32(f.partial, CheckSum(c.Payload(off))))
        else f
  {
    EndIsBoundary(c, off);
    assert Add32(off, |c.Payload(off)|) == c.End(off);
  }

  /** File agreement is kept by every packet, and a byte once received is never written again. */
  lemma AgreementKept(c: Source, data: seq<byte>, gs: seq<Interval>, off: nat, bound: nat)
    requires c.Valid() && off < |c.bytes| && Aligned(off, c.seg)
    requires Ordered(gs) && Agrees(c, data, gs, bound) && Receive(gs, off, c.End(off)).1
    ensures Agrees(c, WriteAt(data, off, c.Payload(off)), Receive(gs, off, c.End(off)).0, bound)
    ensures forall x: nat :: x < |data| && !Misses(gs, x) ==> WriteAt(data, off, c.Payload(off))[x] == data[x]
  {
    hide Receive;
    EndIsBoundary(c, off);
    TakenIffAllMissing(gs, off, c.End(off));
    var gs', data' := Receive(gs, off, c.End(off)).0, WriteAt(data, off, c.Payload(off));
    forall x: nat | x < |c.bytes| && x < bound ensures Misses(gs', x) || HoldsByte(c, data', x) {
      CarveMisses(gs, off, c.End(off), x);
      assert Misses(gs, x) || HoldsByte(c, data, x);
    }
  }

  /** Everything the receiver knows about a file is exact: the gaps are the one canonical list on the grid,
      the bytes outside them are the sender's, and the running checksum counts each received segment once. */
  ghost predicate Exact(c: Source, data: seq<byte>, partial: uint32, gs: seq<Interval>) {
    && c.Valid() && Canonical(gs) && GapsOnGrid(c, gs)
    && Agrees(c, data, gs, |c.bytes|)
    && SumsTo(c, gs, partial)
  }

  ghost predicate SumsTo(c: Source, gs: seq<Interval>, partial: uint32)
    requires c.Valid()
  {
    partial == SumReceived(c, gs, 0)
  }

  lemma FreshFileExact(c: Source)
    requires c.Valid() && |c.bytes| > 0
    ensures Exact(c, [], 0, [Interval(0, |c.bytes|)])
  {
    var gs := [Interval(0, |c.bytes|)];
    forall x: nat | x < |c.bytes| ensures Misses(gs, x) { assert gs[0].start <= x < gs[0].end; }
    SumReceivedNone(c, gs, 0);
  }

  lemma SumStep(c: Source, gs: seq<Interval>, off: nat, partial: uint32)
    requires c.Valid() && Canonical(gs) && off < |c.bytes| && Aligned(off, c.seg)
    requires Receive(gs, off, c.End(off)).1 && SumsTo(c, gs, partial)
    ensures SumsTo(c, Receive(gs, off, c.End(off)).0, Add32(partial, CheckSum(c.Payload(off))))
  {
    EndIsBoundary(c, off);
    ReceiveIsSubtraction(gs, off, c.End(off));
    SumReceivedAdds(c, gs, Receive(gs, off, c.End(off)).0, off, 0);
  }

  /** A packet taken keeps the file exact: nothing is counted twice, nothing is lost. */
  lemma ExactKept(c: Source, data: seq<byte>, partial: uint32, gs: seq<Interval>, off: nat)
    requires Exact(c, data, partial, gs) && off < |c.bytes| && Aligned(off, c.seg)
    requires Receive(gs, off, c.End(off)).1
    ensures Exact(c, WriteAt(data, off, c.Payload(off)), Add32(partial, CheckSum(c.Payload(off))),
                  Receive(gs, off, c.End(off)).0)
  {
    assert Canonical(Receive(gs, off, c.End(off)).0) by {
      EndIsBoundary(c, off);
      CarveOrdered(gs, off, c.End(off));
    }
    GapsStayOnGrid(c, gs, off);
    AgreementKept(c, data, gs, off, |c.bytes|);
    SumStep(c, gs, off, partial);
  }

  lemma ExactStep(c: Source, f: File, off: nat)
    requires Exact(c, f.data, f.partial, f.gaps) && off < |c.bytes| && Aligned(off, c.seg)
    ensures var f' := ProcessData(f, off, c.Payload(off)); Exact(c, f'.data, f'.partial, f'.gaps)
  {
    DataStep(c, f, off);
    if Receive(f.gaps, off, c.End(off)).1 { ExactKept(c, f.data, f.partial, f.gaps, off); }
  }

  /** With nothing missing, the bytes are the file and the checksum is the one the sender announces. */
  lemma ExactAndEmptyIsComplete(c: Source, data: seq<byte>, partial: uint32)
    requires Exact(c, data, partial, []) && |c.bytes| > 0
    ensures data == c.bytes && partial == SumFrom(c, 0)
  {
    AgreesEverywhere(c, data);
    SumReceivedAll(c, [], 0);
  }

  lemma AgreesEverywhere(c: Source, data: seq<byte>)
    requires Agrees(c, data, [], |c.bytes|) && |c.bytes| > 0
    ensures data == c.bytes
  {
    assert !Misses([], |c.bytes| - 1);
    forall x: nat | x < |c.bytes| ensures x < |data| && data[x] == c.bytes[x] {
      assert !Misses([], x);
    }
  }
}
