/** Exactly which files, and which sizes, can always be finished. */
module Finishing {
  import opened Options
  import opened Bytes
  import opened Intervals
  import opened Checksum
  import opened Segments
  import opened Receiver
  import opened FileLemmas
  import opened TempLemmas
  import opened Delivery
  import opened Protocol
  import opened Safety
  import opened Progress
  import opened Doom
  import opened Limits
  import opened Recovery

  /** Whatever has been lost: from every reachable state in which the sender has started, the server is alive and knows
      of the transfer, or can still learn of it, and nobody has claimed completion yet, it can be finished. */
  ghost predicate AlwaysFinishable(c: Config)
    requires c.Valid()
  {
    forall acts :: var w := Run(c, InitialWorld, acts);
      w.sender.started && !w.server.crashed && (w.server.req.Some? || Reopens(c, w)) && !Claimed(w) ==> Finishable(c, w)
  }

  lemma {:induction false} ShortTempFilled(c: Source, f: File, off: nat)
    requires c.Valid() && |c.bytes| < TEMP_FILESIZE && Aligned(off, c.seg) && off < |c.bytes|
    requires f.gaps == [Interval(off, TEMP_FILESIZE)]
    ensures var offs := GridOffsets(c, off, |c.bytes|);
      AllOnGrid(c, offs) && DeliverAll(c, f, offs).gaps == [Interval(|c.bytes|, TEMP_FILESIZE)]
    decreases |c.bytes| - off
  {
    hide ProcessData, DeliverAll, Aligned, AllOnGrid, GridOffsets, WriteAt, CheckSum, Add32;
    OneGapStep(c, f, off, TEMP_FILESIZE);
    var f1 := ProcessData(f, off, c.Payload(off));
    NextAligned(off, c.seg);
    if off + c.seg < |c.bytes| {
      ShortTempFilled(c, f1, off + c.seg);
    } else {
      NoMoreOffsets(c, f1, off + c.seg, |c.bytes|);
    }
    DeliverGridCons(c, f, off, |c.bytes|);
  }

  /** A file shorter than the temporary one: all its data arrives before its metadata, an empty gap is left. */
  lemma ShortFileGetsStuck(c: Config) returns (acts: seq<Action>)
    requires c.Valid() && |c.src.bytes| < TEMP_FILESIZE
    ensures Doomed(c, Run(c, InitialWorld, acts))
  {
    var offs := GridOffsets(c.src, 0, |c.src.bytes|);
    ShortTempFilled(c.src, TempFile(TEMP_FILESIZE), 0);
    acts := PromotedAfter(c, offs);
  }

  /** The run in which the packets `offs` arrive first and the metadata after them. */
  lemma PromotedAfter(c: Config, offs: seq<nat>) returns (acts: seq<Action>)
    requires c.Valid() && AllOnGrid(c.src, offs) && offs != []
    requires !Promotable(c.src, DeliverAll(c.src, TempFile(TEMP_FILESIZE), offs).gaps)
    ensures var w := Run(c, InitialWorld, acts);
      && Doomed(c, w) && AllSent(c, w)
      && FileOf(w) == ChangeTempToActual(DeliverAll(c.src, TempFile(TEMP_FILESIZE), offs), |c.src.bytes|)
  {
    hide Promotable, Tracked, SumFrom, DoomedRequest;
    var first := TempRun(c, offs);
    var w := Run(c, InitialWorld, first);
    DeliverKeepsRest(c.src, TempFile(TEMP_FILESIZE), offs);
    var a := ToServer(Metadata(|c.src.bytes|));
    PromotedDoomed(c, w);
    acts := first + [a];
    RunConcat(c, InitialWorld, first, [a]);
    assert Run(c, w, [a]) == Step(c, w, a) by { assert [a][1..] == []; }
  }

  // ----- the last segments first

  /** Taking the segments from `off` up to the temporary size leaves what is missing below `k`. */
  lemma {:induction false} TailTaken(c: Source, f: File, k: nat, off: nat)
    requires TempExact(c, f.data, f.partial, f.gaps) && TempSizeOnGrid(c) && |c.bytes| > 0
    requires k <= off <= TEMP_FILESIZE && (Aligned(off, c.seg) || off == TEMP_FILESIZE)
    requires forall x: nat :: Misses(f.gaps, x) <==> x < k || off <= x < TEMP_FILESIZE
    ensures var offs := GridOffsets(c, off, TEMP_FILESIZE);
      AllOnGrid(c, offs) &&
      var f' := DeliverAll(c, f, offs);
      TempExact(c, f'.data, f'.partial, f'.gaps) && forall x: nat :: Misses(f'.gaps, x) <==> x < k
    decreases TEMP_FILESIZE - off
  {
    if off == TEMP_FILESIZE {
      NoMoreOffsets(c, f, off, TEMP_FILESIZE);
    } else {
      var e := c.End(off);
      EndIsBoundary(c, off);
      NextInTemp(c, off);
      TakenIffAllMissing(f.gaps, off, e);
      TempExactStep(c, f, off);
      DataStep(c, f, off);
      var f1 := ProcessData(f, off, c.Payload(off));
      forall x: nat ensures Misses(f1.gaps, x) <==> x < k || e <= x < TEMP_FILESIZE {
        CarveMisses(f.gaps, off, e, x);
      }
      hide TempExact, ProcessData, DeliverAll, AllOnGrid, Aligned;
      TailTaken(c, f1, k, e);
      SameOffsets(c, off);
      DeliverGridCons(c, f, off, TEMP_FILESIZE);
    }
  }

  lemma SameOffsets(c: Source, off: nat)
    requires c.Valid() && |c.bytes| >= TEMP_FILESIZE && off < TEMP_FILESIZE
    ensures GridOffsets(c, c.End(off), TEMP_FILESIZE) == GridOffsets(c, off + c.seg, TEMP_FILESIZE)
  {
  }

  lemma OneGapMisses(k: nat)
    ensures forall x: nat :: Misses([Interval(0, k)], x) <==> x < k
  {
    forall x: nat ensures Misses([Interval(0, k)], x) <==> x < k { SingleMisses(Interval(0, k), x); }
  }

  /** The list after the segments from `k` on have been taken, and what promotion will open again. */
  lemma TailFirst(c: Source, k: nat)
    requires c.Valid() && TempSizeOnGrid(c) && Aligned(k, c.seg) && 0 < k < TEMP_FILESIZE
    ensures var offs := GridOffsets(c, k, TEMP_FILESIZE);
      AllOnGrid(c, offs) && offs != [] && DeliverAll(c, TempFile(TEMP_FILESIZE), offs).gaps == [Interval(0, k)]
  {
    assert |c.bytes| > 0 && TempFile(TEMP_FILESIZE).gaps == [Interval(0, TEMP_FILESIZE)];
    FreshTempExact(c);
    OneGapMisses(TEMP_FILESIZE);
    OneGapMisses(k);
    hide Misses, ProcessData, DeliverAll, AllOnGrid, TempExact, TempFile;
    TailTaken(c, TempFile(TEMP_FILESIZE), k, k);
    OnlyFront(c, DeliverAll(c, TempFile(TEMP_FILESIZE), GridOffsets(c, k, TEMP_FILESIZE)), k);
  }

  lemma OnlyFront(c: Source, f: File, k: nat)
    requires TempExact(c, f.data, f.partial, f.gaps) && k > 0
    requires forall x: nat :: Misses(f.gaps, x) <==> x < k
    ensures f.gaps == [Interval(0, k)]
  {
    OneGapMisses(k);
    hide Misses, Agrees, SumsTo;
    CanonicalUnique(f.gaps, [Interval(0, k)]);
  }

  /** A packet ends at the temporary size, and from some later segment on the checksums do not cancel out: when these
      segments arrive before the metadata they are asked for again, and counted twice. */
  lemma DoubleCount(c: Config, k: nat) returns (acts: seq<Action>)
    requires c.Valid() && TempSizeOnGrid(c.src) && Aligned(k, c.src.seg) && 0 < k < TEMP_FILESIZE
    requires SumTo(c.src, k, TEMP_FILESIZE) != 0
    ensures var w := Run(c, InitialWorld, acts);
      Doomed(c, w) && AllSent(c, w) && FileOf(w).gaps == [Interval(0, |c.src.bytes|)]
  {
    var offs := GridOffsets(c.src, k, TEMP_FILESIZE);
    TailFirst(c.src, k);
    acts := PromotedAfter(c, offs);
    assert ExtendLast([Interval(0, k)], |c.src.bytes|) == [Interval(0, |c.src.bytes|)];
  }

  lemma {:induction false} PartialApart(c: Source, f: File, partial: uint32, offs: seq<nat>)
    requires c.Valid() && AllOnGrid(c, offs)
    ensures DeliverAll(c, f.(partial := partial), offs).gaps == DeliverAll(c, f, offs).gaps
    ensures DeliverAll(c, f.(partial := partial), offs).data == DeliverAll(c, f, offs).data
    decreases |offs|
  {
    if offs != [] {
      DataStep(c, f, offs[0]);
      DataStep(c, f.(partial := partial), offs[0]);
      var f1 := ProcessData(f, offs[0], c.Payload(offs[0]));
      var f2 := ProcessData(f.(partial := partial), offs[0], c.Payload(offs[0]));
      hide ProcessData, CheckSum;
      assert f2 == f1.(partial := f2.partial);
      PartialApart(c, f1, f2.partial, offs[1..]);
    }
  }

  /** A doomed file with everything listed as missing: all its packets fill it, and it stays doomed. */
  lemma AllDelivered(c: Config, w: World) returns (acts: seq<Action>)
    requires Doomed(c, w) && AllSent(c, w) && FileOf(w).gaps == [Interval(0, |c.src.bytes|)]
    ensures Starved(Run(c, w, acts))
  {
    var n, f := |c.src.bytes|, FileOf(w);
    var offs := GridOffsets(c.src, 0, n);
    FullGapFilled(c.src, f);
    AllSentHas(c, w, offs);
    DeliveryRun(c, w, offs);
    var mid := Deliveries(c.src, offs);
    var w1 := Run(c, w, mid);
    DeliverKeepsRest(c.src, f, offs);
    DeliveriesHonest(c, w, offs);
    DoomedForever(c, w, mid);
    var a := ToServer(Eof(n, SumFrom(c.src, 0)));
    acts := mid + [a];
    RunConcat(c, w, mid, [a]);
    assert Run(c, w1, [a]) == Step(c, w1, a) by { assert [a][1..] == []; }
    hide SumFrom;
    FilledStarves(c, w1);
  }

  lemma FullGapFilled(c: Source, f: File)
    requires c.Valid() && |c.bytes| > 0 && f.gaps == [Interval(0, |c.bytes|)] && |f.data| <= |c.bytes|
    ensures var offs := GridOffsets(c, 0, |c.bytes|);
      AllOnGrid(c, offs) && DeliverAll(c, f, offs).gaps == [] && DeliverAll(c, f, offs).data == c.bytes
  {
    var offs := GridOffsets(c, 0, |c.bytes|);
    FreshFileExact(c);
    var f0 := f.(partial := 0);
    assert Exact(c, f0.data, f0.partial, f0.gaps);
    FirstGapFilled(c, f0);
    var f' := DeliverAll(c, f0, offs);
    ExactAndEmptyIsComplete(c, f'.data, f'.partial);
    PartialApart(c, f, 0, offs);
  }

  lemma FilledStarves(c: Config, w: World)
    requires Doomed(c, w) && FileOf(w).gaps == [] && FileOf(w).data == c.src.bytes
    requires Eof(|c.src.bytes|, SumFrom(c.src, 0)) in w.net
    ensures Starved(Step(c, w, ToServer(Eof(|c.src.bytes|, SumFrom(c.src, 0)))))
  {
    SumReceivedAll(c.src, [], 0);
    hide Exact, SumFrom;
  }

  /** In particular for a file as long as the temporary one: the run ends with every byte received, and waits for
      ever. */
  lemma DoubleCountStarves(c: Config, k: nat) returns (acts: seq<Action>)
    requires c.Valid() && |c.src.bytes| == TEMP_FILESIZE && Aligned(k, c.src.seg) && 0 < k < TEMP_FILESIZE
    requires SumTo(c.src, k, TEMP_FILESIZE) != 0
    ensures Starved(Run(c, InitialWorld, acts))
  {
    var first := DoubleCount(c, k);
    hide Doomed, Starved;
    var rest := AllDelivered(c, Run(c, InitialWorld, first));
    RunConcat(c, InitialWorld, first, rest);
    acts := first + rest;
  }

  // ----- the exact files

  /** When some later segment has a checksum, some tail of the file has one too. */
  lemma NotSilent(c: Source) returns (k: nat)
    requires c.Valid() && |c.bytes| == TEMP_FILESIZE && !SilentTail(c)
    ensures Aligned(k, c.seg) && 0 < k < TEMP_FILESIZE && SumTo(c, k, TEMP_FILESIZE) != 0
  {
    hide CheckSum;
    var off: nat :| c.seg <= off < |c.bytes| && Aligned(off, c.seg) && CheckSum(c.Payload(off)) != 0;
    assert SumTo(c, off, TEMP_FILESIZE) == Add32(CheckSum(c.Payload(off)), SumTo(c, off + c.seg, TEMP_FILESIZE));
    k := if SumTo(c, off, TEMP_FILESIZE) != 0 then off else off + c.seg;
  }

  lemma NotAlwaysPromotes(c: Config) returns (acts: seq<Action>)
    requires c.Valid() && !AlwaysPromotes(c.src)
    ensures Doomed(c, Run(c, InitialWorld, acts))
  {
    if |c.src.bytes| < TEMP_FILESIZE {
      acts := ShortFileGetsStuck(c);
    } else if |c.src.bytes| == TEMP_FILESIZE {
      var k := NotSilent(c.src);
      acts := DoubleCount(c, k);
    } else {
      AlignedIsMultiple(TEMP_FILESIZE, c.src.seg);
      acts := FullTempPromoted(c);
      hide SumFrom;
    }
  }

  /** Exactly when every transfer of a file can be finished, whatever has happened to it so far. */
  lemma FinishableExactly(c: Config)
    requires c.Valid()
    ensures AlwaysFinishable(c) <==> AlwaysPromotes(c.src)
  {
    if AlwaysPromotes(c.src) {
      forall acts | var w := Run(c, InitialWorld, acts);
          w.sender.started && !w.server.crashed && (w.server.req.Some? || Reopens(c, w)) && !Claimed(w)
        ensures Finishable(c, Run(c, InitialWorld, acts))
      {
        LossExactly(c, acts);
      }
    } else {
      var acts := NotAlwaysPromotes(c);
      var w := Run(c, InitialWorld, acts);
      DoomedNotFinishable(c, w);
    }
  }

  // ----- what is never sent again

  /** For every file: when everything sent at the start is lost, the transfer has ended before it began. */
  lemma BurstLost(c: Config, more: seq<Action>)
    requires c.Valid()
    ensures var w := Run(c, InitialWorld, [Start, Lose(Step(c, InitialWorld, Start).net)]);
      w.sender.started && Run(c, w, more) == w && DestFile(w.server).None?
  {
    var w1 := Step(c, InitialWorld, Start);
    RunTwo(c, InitialWorld, Start, Lose(w1.net));
    assert w1.net - w1.net == {};
    NothingRecovers(c, Step(c, w1, Lose(w1.net)), more);
  }

  /** For every file: the undisturbed transfer, with only FINISHED lost. The file is there, and the sender never
      learns of it. */
  lemma NeverTold(c: Config) returns (acts: seq<Action>)
    requires c.Valid()
    ensures var w := Run(c, InitialWorld, acts);
      DestFile(w.server) == Some(c.src.bytes) && !Learns(c, w)
  {
    CleanHeadEnds(c);
    var w := Run(c, InitialWorld, CleanHead(c));
    var w1 := Step(c, w, Tick);
    var last := [Tick, Lose(w1.net)];
    hide SumFrom, CleanHead;
    RunTwo(c, w, Tick, Lose(w1.net));
    RunConcat(c, InitialWorld, CleanHead(c), last);
    acts := CleanHead(c) + last;
    assert w1.net - w1.net == {};
    NeverLearns(c, Step(c, w1, Lose(w1.net)));
  }

  // ----- the exact sizes

  function ZeroFile(size: nat, seg: nat): Source {
    Source(Zeros(size), seg)
  }

  /** The sizes for which every file, whatever its bytes, can always be finished. Among files as long as the temporary
      one these are the ones sent in one packet, and by the checksum's omission of a last whole word also those whose
      later segments all have four bytes. */
  predicate FinishableSize(size: nat, seg: nat)
    requires seg > 0
  {
    || (size > 1000 && 1000 % seg != 0)
    || (size == 1000 && (seg >= 1000 || seg == 4 || seg == 996))
  }

  lemma FourBytesSumToZero(s: seq<byte>)
    requires |s| == 4
    ensures CheckSum(s) == 0
  {
  }

  lemma SilentForAll(c: Source)
    requires c.Valid() && |c.bytes| == TEMP_FILESIZE && FinishableSize(|c.bytes|, c.seg)
    ensures SilentTail(c)
  {
    forall off: nat | c.seg <= off < |c.bytes| && Aligned(off, c.seg) ensures CheckSum(c.Payload(off)) == 0 {
      if c.seg == 4 {
        AlignedIsMultiple(off, 4);
      } else {
        assert Aligned(off - c.seg, c.seg);
      }
      FourBytesSumToZero(c.Payload(off));
    }
  }

  /** Zeros, but for the first byte of the second segment. */
  function SecondMarked(seg: nat): seq<byte>
    requires seg < TEMP_FILESIZE
  {
    Zeros(TEMP_FILESIZE)[seg := 1]
  }

  lemma {:induction false} ZeroTailSum(s: seq<byte>, i: nat)
    requires 4 <= i && forall j :: 4 <= j < |s| ==> s[j] == 0
    ensures SumWords(s, i) == 0
    decreases |s| - i
  {
    if i + 4 < |s| { ZeroTailSum(s, i + 4); }
  }

  lemma MarkedIsLoud(c: Source)
    requires 5 <= c.seg <= TEMP_FILESIZE - 5 && c.bytes == SecondMarked(c.seg)
    ensures c.Valid() && !SilentTail(c)
  {
    assert |c.bytes| == TEMP_FILESIZE;
    var s := c.Payload(c.seg);
    assert |s| >= 5 && s[0] == 1 && forall j :: 1 <= j < |s| ==> s[j] == 0;
    ZeroTailSum(s, 4);
    assert SumWords(s, 0) == Add32(Word(s, 0), SumWords(s, 4));
    assert CheckSum(s) != 0;
    assert Aligned(c.seg, c.seg) by { assert Aligned(0, c.seg); }
  }

  /** The exact sizes for which every transfer of every file can always be finished. */
  lemma FinishableExactlySizes(size: nat, seg: nat, max: nat)
    requires 0 < size < 0x8000_0000 && 0 < seg < 0x1_0000 && max > 0
    requires SegmentsSummed(ZeroFile(size, seg))
    ensures FinishableSize(size, seg) <==>
      forall bytes: seq<byte> :: |bytes| == size ==> AlwaysFinishable(Config(Source(bytes, seg), max))
  {
    hide AlwaysFinishable, SilentTail;
    AlignedIsMultiple(TEMP_FILESIZE, seg);
    if FinishableSize(size, seg) {
      forall bytes: seq<byte> | |bytes| == size ensures AlwaysFinishable(Config(Source(bytes, seg), max)) {
        var c := Config(Source(bytes, seg), max);
        if size == TEMP_FILESIZE { SilentForAll(c.src); }
        FinishableExactly(c);
      }
    } else {
      var bytes := if size == TEMP_FILESIZE then SecondMarked(seg) else Zeros(size);
      var c := Config(Source(bytes, seg), max);
      if size == TEMP_FILESIZE { MarkedIsLoud(c.src); }
      FinishableExactly(c);
      assert |bytes| == size && !AlwaysFinishable(Config(Source(bytes, seg), max));
    }
  }
}
