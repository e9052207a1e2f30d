/** Data that arrives before the metadata: the temporary file and its promotion to the real one. */
module TempLemmas {
  import opened Bytes
  import opened Intervals
  import opened Checksum
  import opened Segments
  import opened Receiver
  import opened FileLemmas

  /** The gap list after promotion to a file of `size` bytes. */
  function Promoted(gs: seq<Interval>, size: nat): seq<Interval> {
    if gs == [] then [] else ExtendLast(gs, size)
  }

  /** The missing bytes of a file of `size` bytes when `gs` is what is missing below the temporary size. */
  ghost predicate StillMissing(gs: seq<Interval>, size: nat, x: nat) {
    x < size && (Misses(gs, x) || x >= TEMP_FILESIZE)
  }

  lemma ExtendMisses(gs: seq<Interval>, size: nat, x: nat)
    requires gs != [] && gs[|gs| - 1].start <= gs[|gs| - 1].end
    ensures Misses(ExtendLast(gs, size), x) <==> Misses(gs[..|gs| - 1], x) || gs[|gs| - 1].start <= x < size
    ensures Misses(gs, x) <==> Misses(gs[..|gs| - 1], x) || gs[|gs| - 1].start <= x < gs[|gs| - 1].end
  {
    var init, last := gs[..|gs| - 1], gs[|gs| - 1];
    assert gs == init + [last];
    ConcatMisses(init, [last], x);
    ConcatMisses(init, [Interval(last.start, size)], x);
    SingleMisses(last, x);
    SingleMisses(Interval(last.start, size), x);
  }

  /** Promotion yields the canonical list of what is really missing exactly when the last gap still reaches the
      end of the temporary file (or of the shorter real one) and starts inside the real file; with no gap left,
      exactly when the real file is no longer than the temporary one. */
  lemma PromotionExactIff(gs: seq<Interval>, size: nat)
    requires Canonical(gs)
    requires forall i :: 0 <= i < |gs| ==> gs[i].end <= TEMP_FILESIZE
    ensures (Canonical(Promoted(gs, size)) &&
             forall x: nat :: Misses(Promoted(gs, size), x) <==> StillMissing(gs, size, x))
       <==> (if gs == [] then size <= TEMP_FILESIZE
             else gs[|gs| - 1].start < size && Min(size, TEMP_FILESIZE) <= gs[|gs| - 1].end)
  {
    var r := Promoted(gs, size);
    if gs == [] {
      assert size > TEMP_FILESIZE ==> StillMissing(gs, size, TEMP_FILESIZE) && !Misses(r, TEMP_FILESIZE);
    } else {
      var last := gs[|gs| - 1];
      assert r[|r| - 1] == Interval(last.start, size);
      if last.start < size {
        EndNotMissed(gs, |gs| - 1);
        ExtendMisses(gs, size, last.end);
        assert Canonical(r);
        if Min(size, TEMP_FILESIZE) <= last.end {
          forall x: nat ensures Misses(r, x) <==> StillMissing(gs, size, x) {
            ExtendMisses(gs, size, x);
            if Misses(gs[..|gs| - 1], x) {
              var i :| 0 <= i < |gs| - 1 && gs[..|gs| - 1][i].start <= x < gs[..|gs| - 1][i].end;
              assert gs[i].end < last.start;
            }
          }
        } else {
          assert Misses(r, last.end) && !StillMissing(gs, size, last.end);
        }
      }
    }
  }

  /** The file is at its destination then, whether it had a gap to extend or not; only if it had is it no longer taken
      for a temporary one, and knows its size. */
  lemma PromotedFields(f: File, size: nat)
    ensures var f' := ChangeTempToActual(f, size);
      && f'.atDest && f'.data == f.data && f'.partial == f.partial && f'.eofSum == f.eofSum
      && f'.gaps == Promoted(f.gaps, size)
      && (f.gaps != [] ==> !f'.isTemp && f'.totalSize == size)
      && (f.gaps == [] ==> f'.isTemp == f.isTemp && f'.totalSize == f.totalSize)
  {
  }

  /** The end of a segment is counted in 32 bits: past 2^32 it starts again at zero. */
  lemma SegmentEndWraps(f: File, off: uint32, payload: field)
    requires off + |payload| >= U32
    ensures ProcessData(f, off, payload).gaps == Receive(f.gaps, off, off + |payload| - U32).0
  {
  }

  /** Carving anywhere but at the end of the last gap leaves that end in place. */
  lemma LastEndKept(gs: seq<Interval>, s: nat, e: nat)
    requires Ordered(gs) && gs != [] && s < e && e != gs[|gs| - 1].end
    ensures var r := Receive(gs, s, e).0; r != [] && r[|r| - 1].end == gs[|gs| - 1].end
  {
    var i := FirstEnclosing(gs, s, e);
    if i < |gs| {
      var c := Carve(gs[i], s, e);
      var r := Receive(gs, s, e).0;
      assert i == |gs| - 1 ==> c != [] && r == gs[..i] + c;
    }
  }

  /** A packet can end where the temporary file does. */
  predicate TempSizeOnGrid(c: Source)
    requires c.Valid()
  {
    |c.bytes| >= TEMP_FILESIZE && Boundary(c, TEMP_FILESIZE)
  }

  /** From a segment inside the temporary file the grid leads to its end. */
  lemma NextInTemp(c: Source, off: nat)
    requires c.Valid() && TempSizeOnGrid(c) && off < TEMP_FILESIZE && Aligned(off, c.seg)
    ensures c.End(off) <= TEMP_FILESIZE && (Aligned(c.End(off), c.seg) || c.End(off) == TEMP_FILESIZE)
  {
    assert Aligned(off + c.seg, c.seg);
    if Aligned(TEMP_FILESIZE, c.seg) { AlignedStep(off, TEMP_FILESIZE, c.seg); }
  }

  /** What the whole file misses while `gs` is missing below the temporary size. */
  function WithTail(gs: seq<Interval>, size: nat): seq<Interval> {
    gs + if size > TEMP_FILESIZE then [Interval(TEMP_FILESIZE, size)] else []
  }

  lemma TailMissed(gs: seq<Interval>, size: nat, x: nat)
    ensures Misses(WithTail(gs, size), x) <==> Misses(gs, x) || TEMP_FILESIZE <= x < size
  {
    ConcatMisses(gs, if size > TEMP_FILESIZE then [Interval(TEMP_FILESIZE, size)] else [], x);
    SingleMisses(Interval(TEMP_FILESIZE, size), x);
  }

  /** All that is known of a temporary file, whatever the sizes: its gaps are canonical and on the grid, its last gap
      reaches the temporary size unless a packet has ended there, the bytes outside the gaps are the sender's, and
      the running checksum counts each received segment once. */
  ghost predicate TempExact(c: Source, data: seq<byte>, partial: uint32, gs: seq<Interval>) {
    && c.Valid() && Canonical(gs) && StartsOnGrid(c, gs) && TempEnds(c, gs)
    && Agrees(c, data, gs, TEMP_FILESIZE) && |data| <= TEMP_FILESIZE
    && SumsTo(c, WithTail(gs, |c.bytes|), partial)
  }

  predicate TempEnds(c: Source, gs: seq<Interval>)
    requires c.Valid()
  {
    && (forall i :: 0 <= i < |gs| ==>
          gs[i].end == TEMP_FILESIZE || (gs[i].end < TEMP_FILESIZE && Aligned(gs[i].end, c.seg)))
    && (gs == [] || gs[|gs| - 1].end < TEMP_FILESIZE ==> TempSizeOnGrid(c))
  }

  lemma FreshTempExact(c: Source)
    requires c.Valid()
    ensures TempExact(c, [], 0, [Interval(0, TEMP_FILESIZE)])
  {
    var gs := [Interval(0, TEMP_FILESIZE)];
    forall x: nat | x < |c.bytes| ensures Misses(WithTail(gs, |c.bytes|), x) {
      TailMissed(gs, |c.bytes|, x);
      SingleMisses(gs[0], x);
    }
    SumReceivedNone(c, WithTail(gs, |c.bytes|), 0);
    forall x: nat | x < TEMP_FILESIZE ensures Misses(gs, x) { SingleMisses(gs[0], x); }
  }

  /** While metadata is missing everything stays exact. */
  lemma TempExactStep(c: Source, f: File, off: nat)
    requires off < |c.bytes| && TempExact(c, f.data, f.partial, f.gaps) && Aligned(off, c.seg)
    ensures var f' := ProcessData(f, off, c.Payload(off)); TempExact(c, f'.data, f'.partial, f'.gaps)
  {
    DataStep(c, f, off);
    if Receive(f.gaps, off, c.End(off)).1 {
      TempExactTaken(c, f.data, f.partial, f.gaps, off);
    }
  }

  /** A packet taken ends inside the temporary file. */
  lemma TakenBelow(c: Source, gs: seq<Interval>, off: nat)
    requires off < |c.bytes| && c.Valid() && Aligned(off, c.seg) && TempEnds(c, gs)
    requires Receive(gs, off, c.End(off)).1
    ensures c.End(off) <= TEMP_FILESIZE
    ensures c.End(off) == TEMP_FILESIZE ==> TempSizeOnGrid(c)
  {
    EndIsBoundary(c, off);
    var i := FirstEnclosing(gs, off, c.End(off));
    assert gs[i].end <= TEMP_FILESIZE;
  }

  lemma TempEndsKept(c: Source, gs: seq<Interval>, off: nat)
    requires off < |c.bytes| && c.Valid() && Aligned(off, c.seg) && TempEnds(c, gs) && Ordered(gs)
    requires Receive(gs, off, c.End(off)).1
    ensures TempEnds(c, Receive(gs, off, c.End(off)).0)
  {
    var e := c.End(off);
    EndIsBoundary(c, off);
    TakenBelow(c, gs, off);
    var r := Receive(gs, off, e).0;
    forall j | 0 <= j < |r|
      ensures r[j].end == TEMP_FILESIZE || (r[j].end < TEMP_FILESIZE && Aligned(r[j].end, c.seg))
    {
      ReceiveBounds(gs, off, e, j);
    }
    if gs != [] && e != gs[|gs| - 1].end {
      LastEndKept(gs, off, e);
    }
  }

  lemma TempSumKept(c: Source, partial: uint32, gs: seq<Interval>, off: nat)
    requires off < |c.bytes| && c.Valid() && Aligned(off, c.seg) && Canonical(gs) && TempEnds(c, gs)
    requires Receive(gs, off, c.End(off)).1 && SumsTo(c, WithTail(gs, |c.bytes|), partial)
    ensures SumsTo(c, WithTail(Receive(gs, off, c.End(off)).0, |c.bytes|), Add32(partial, CheckSum(c.Payload(off))))
  {
    hide CheckSum;
    var e, n := c.End(off), |c.bytes|;
    EndIsBoundary(c, off);
    TakenBelow(c, gs, off);
    TakenIffAllMissing(gs, off, e);
    var r := Receive(gs, off, e).0;
    forall x: nat ensures Misses(WithTail(r, n), x) <==> Misses(WithTail(gs, n), x) && !(off <= x < e) {
      CarveMisses(gs, off, e, x);
      TailMissed(gs, n, x);
      TailMissed(r, n, x);
    }
    TailMissed(gs, n, off);
    SumReceivedAdds(c, WithTail(gs, n), WithTail(r, n), off, 0);
  }

  lemma TempExactTaken(c: Source, data: seq<byte>, partial: uint32, gs: seq<Interval>, off: nat)
    requires off < |c.bytes| && TempExact(c, data, partial, gs) && Aligned(off, c.seg)
    requires Receive(gs, off, c.End(off)).1
    ensures TempExact(c, WriteAt(data, off, c.Payload(off)), Add32(partial, CheckSum(c.Payload(off))),
                      Receive(gs, off, c.End(off)).0)
  {
    EndIsBoundary(c, off);
    CarveOrdered(gs, off, c.End(off));
    StartsStayOnGrid(c, gs, off);
    TempEndsKept(c, gs, off);
    AgreementKept(c, data, gs, off, TEMP_FILESIZE);
    TempSumKept(c, partial, gs, off);
    TakenBelow(c, gs, off);
  }

  // ----- promotion

  /** What promotion adds to the missing bytes although it has been received. */
  function Reopened(c: Source, gs: seq<Interval>): uint32
    requires c.Valid() && gs != []
  {
    SumTo(c, gs[|gs| - 1].end, TEMP_FILESIZE)
  }

  /** The list can be promoted: nothing behind the temporary size is lost, no empty gap is left at the end of the
      file, and what is opened again has no checksum to be counted twice. */
  predicate Promotable(c: Source, gs: seq<Interval>)
    requires c.Valid()
  {
    if gs == [] then |c.bytes| <= TEMP_FILESIZE
    else gs[|gs| - 1].start < |c.bytes| && Reopened(c, gs) == 0
  }

  /** Of the promoted list's bytes the file knows all it knew of the temporary one's. */
  lemma PromotedAgrees(c: Source, data: seq<byte>, gs: seq<Interval>)
    requires c.Valid() && Canonical(gs) && gs != [] && TempEnds(c, gs) && StartsOnGrid(c, gs)
    requires gs[|gs| - 1].start < |c.bytes| && Agrees(c, data, gs, TEMP_FILESIZE)
    ensures Canonical(Promoted(gs, |c.bytes|)) && GapsOnGrid(c, Promoted(gs, |c.bytes|))
    ensures Agrees(c, data, Promoted(gs, |c.bytes|), |c.bytes|)
  {
    var n, last := |c.bytes|, gs[|gs| - 1];
    var r := Promoted(gs, n);
    assert r[|r| - 1] == Interval(last.start, n);
    forall i | 0 <= i < |r| ensures r[i].end <= n && Boundary(c, r[i].end) {
      if i < |r| - 1 { assert r[i] == gs[i] && gs[i].end < last.start; }
    }
    forall i | 0 <= i < |r| ensures r[i].start <= n && Boundary(c, r[i].start) {
      assert r[i].start == gs[i].start;
    }
    forall x: nat | x < n ensures Misses(r, x) || HoldsByte(c, data, x) {
      ExtendMisses(gs, n, x);
      assert x < TEMP_FILESIZE ==> Misses(gs, x) || HoldsByte(c, data, x);
    }
  }

  /** Behind the last gap's end nothing is missing below the temporary size, and behind that everything. */
  lemma PromotedSum(c: Source, gs: seq<Interval>)
    requires c.Valid() && Canonical(gs) && gs != [] && TempEnds(c, gs) && gs[|gs| - 1].start < |c.bytes|
    ensures SumReceived(c, WithTail(gs, |c.bytes|), 0) ==
      Add32(SumReceived(c, Promoted(gs, |c.bytes|), 0), Reopened(c, gs))
  {
    var n, last := |c.bytes|, gs[|gs| - 1];
    var r, v := Promoted(gs, n), WithTail(gs, n);
    forall x: nat | x < n
      ensures Misses(r, x) <==> Misses(gs[..|gs| - 1], x) || last.start <= x
      ensures Misses(v, x) <==> Misses(gs[..|gs| - 1], x) || last.start <= x < last.end || TEMP_FILESIZE <= x
      ensures Misses(gs[..|gs| - 1], x) ==> x < last.start
    {
      ExtendMisses(gs, n, x);
      TailMissed(gs, n, x);
      if Misses(gs[..|gs| - 1], x) {
        var i :| 0 <= i < |gs| - 1 && gs[..|gs| - 1][i].start <= x < gs[..|gs| - 1][i].end;
        assert gs[i].end < last.start;
      }
    }
    if last.end == TEMP_FILESIZE {
      SumReceivedSame(c, v, r, 0);
    } else {
      SumReopened(c, v, r, last.end, TEMP_FILESIZE, 0);
    }
  }

  /** Promotion turns an exact temporary file into an exact file of its real size exactly when the list is
      promotable. */
  lemma PromotionExact(c: Source, f: File)
    requires TempExact(c, f.data, f.partial, f.gaps) && |c.bytes| > 0
    ensures var f' := ChangeTempToActual(f, |c.bytes|);
      Exact(c, f'.data, f'.partial, f'.gaps) <==> Promotable(c, f.gaps)
  {
    var f' := ChangeTempToActual(f, |c.bytes|);
    var gs := f.gaps;
    if gs == [] {
      if |c.bytes| > TEMP_FILESIZE {
        assert !Misses([], TEMP_FILESIZE) && !HoldsByte(c, f.data, TEMP_FILESIZE);
      } else {
        assert WithTail(gs, |c.bytes|) == [];
      }
    } else if gs[|gs| - 1].start < |c.bytes| {
      PromotedAgrees(c, f.data, gs);
      PromotedSum(c, gs);
    } else {
      assert f'.gaps[|gs| - 1].start >= f'.gaps[|gs| - 1].end;
    }
  }

  // ----- files that can never be completed

  /** What promotion must not leave behind: a list that is empty too early, an empty gap at the end of the file, or
      a checksum that counts what will be received again. */
  ghost predicate DoomedFile(c: Source, f: File) {
    || (f.gaps == [] && |f.data| < |c.bytes|)
    || (f.gaps != [] && f.gaps[|f.gaps| - 1] == Interval(|c.bytes|, |c.bytes|))
    || (c.Valid() && Exact(c, f.data, SumReceived(c, f.gaps, 0), f.gaps) && f.partial != SumReceived(c, f.gaps, 0))
  }

  lemma LastGapKept(gs: seq<Interval>, n: nat, s: nat, e: nat)
    requires gs != [] && gs[|gs| - 1] == Interval(n, n) && s < n
    ensures var r := Receive(gs, s, e).0; r != [] && r[|r| - 1] == Interval(n, n)
  {
    var i := FirstEnclosing(gs, s, e);
    if i < |gs| {
      assert i < |gs| - 1;
      var r := gs[..i] + Carve(gs[i], s, e) + gs[i + 1..];
      assert r[|r| - 1] == gs[i + 1..][|gs| - i - 2];
    }
  }

  lemma DoomedOnData(c: Source, f: File, off: nat)
    requires c.Valid() && off < |c.bytes| && Aligned(off, c.seg) && DoomedFile(c, f)
    ensures DoomedFile(c, ProcessData(f, off, c.Payload(off)))
  {
    hide CheckSum, ProcessData, Exact, WriteAt, SumReceived, DoomedFile, Receive;
    DataStep(c, f, off);
    if Receive(f.gaps, off, c.End(off)).1 {
      NotTaken(off, c.End(off));
      if f.gaps[|f.gaps| - 1] == Interval(|c.bytes|, |c.bytes|) {
        LastGapKept(f.gaps, |c.bytes|, off, c.End(off));
        EndsInGap(c, ProcessData(f, off, c.Payload(off)));
      } else {
        DoomedTaken(c, f, off);
      }
    }
  }

  lemma NotTaken(s: nat, e: nat)
    ensures !Receive([], s, e).1
  {
  }

  lemma EndsInGap(c: Source, f: File)
    requires f.gaps != [] && f.gaps[|f.gaps| - 1] == Interval(|c.bytes|, |c.bytes|)
    ensures DoomedFile(c, f)
  {
  }

  lemma DoomedTaken(c: Source, f: File, off: nat)
    requires c.Valid() && off < |c.bytes| && Aligned(off, c.seg) && DoomedFile(c, f)
    requires f.gaps != [] && f.gaps[|f.gaps| - 1] != Interval(|c.bytes|, |c.bytes|)
    requires Receive(f.gaps, off, c.End(off)).1
    ensures DoomedFile(c, f.(gaps := Receive(f.gaps, off, c.End(off)).0, data := WriteAt(f.data, off, c.Payload(off)),
                             partial := Add32(f.partial, CheckSum(c.Payload(off)))))
  {
    hide CheckSum, Exact, WriteAt, SumReceived, Receive;
    var sum := SumReceived(c, f.gaps, 0);
    ExactKept(c, f.data, sum, f.gaps, off);
    ExactSum(c, WriteAt(f.data, off, c.Payload(off)), Add32(sum, CheckSum(c.Payload(off))),
             Receive(f.gaps, off, c.End(off)).0);
  }

  lemma ExactSum(c: Source, data: seq<byte>, partial: uint32, gs: seq<Interval>)
    requires Exact(c, data, partial, gs)
    ensures c.Valid() && partial == SumReceived(c, gs, 0)
  {
  }

  lemma SameDoom(c: Source, f: File, sum: uint32, size: nat)
    requires DoomedFile(c, f)
    ensures DoomedFile(c, f.(eofSum := sum, totalSize := size))
  {
  }

  /** Promotion of a list that is not promotable dooms the file. */
  lemma PromotionDooms(c: Source, f: File)
    requires TempExact(c, f.data, f.partial, f.gaps) && |c.bytes| > 0 && !Promotable(c, f.gaps)
    ensures DoomedFile(c, ChangeTempToActual(f, |c.bytes|))
  {
    if f.gaps != [] && f.gaps[|f.gaps| - 1].start < |c.bytes| {
      PromotedAgrees(c, f.data, f.gaps);
      PromotedSum(c, f.gaps);
    }
  }
}
