/** Where the protocol stops keeping its promise, and the runs that show it. */
module Limits {
  import opened Options
  import opened Bytes
  import opened Intervals
  import opened Checksum
  import opened Segments
  import opened Receiver
  import opened FileLemmas
  import opened TempLemmas
  import opened Delivery
  import opened Protocol
  import opened Safety
  import opened Progress
  import opened Doom

  // ----- sizes for which a file can be declared complete without its end

  /** A packet at the start of the only gap. */
  lemma OneGapStep(c: Source, f: File, off: nat, end: nat)
    requires c.Valid() && Aligned(off, c.seg) && off < |c.bytes|
    requires f.gaps == [Interval(off, end)] && c.End(off) <= end
    ensures ProcessData(f, off, c.Payload(off)) ==
      f.(gaps := if c.End(off) == end then [] else [Interval(c.End(off), end)],
         data := WriteAt(f.data, off, c.Payload(off)), partial := Add32(f.partial, CheckSum(c.Payload(off))))
  {
    DataStep(c, f, off);
    assert FirstEnclosing(f.gaps, off, c.End(off)) == 0;
  }

  /** All packets of the temporary file fill it up: its list is empty, its checksum lacks that of the rest. */
  lemma {:induction false} TempFilled(c: Source, f: File, off: nat)
    requires c.Valid() && |c.bytes| > TEMP_FILESIZE
    requires Aligned(off, c.seg) && Aligned(TEMP_FILESIZE, c.seg) && off < TEMP_FILESIZE
    requires f.gaps == [Interval(off, TEMP_FILESIZE)] && |f.data| <= TEMP_FILESIZE
    requires Add32(f.partial, SumFrom(c, off)) == SumFrom(c, 0)
    ensures var offs := GridOffsets(c, off, TEMP_FILESIZE);
      AllOnGrid(c, offs) &&
      var f' := DeliverAll(c, f, offs);
      f'.gaps == [] && |f'.data| <= TEMP_FILESIZE && Add32(f'.partial, SumFrom(c, TEMP_FILESIZE)) == SumFrom(c, 0)
    decreases TEMP_FILESIZE - off
  {
    hide ProcessData, DeliverAll, Aligned, AllOnGrid, SumFrom, CheckSum, Add32, GridOffsets;
    TempFilledStep(c, f, off);
    var e := off + c.seg;
    var f1 := ProcessData(f, off, c.Payload(off));
    if e < TEMP_FILESIZE {
      TempFilled(c, f1, e);
    } else {
      NoMoreOffsets(c, f1, e, TEMP_FILESIZE);
    }
    DeliverGridCons(c, f, off, TEMP_FILESIZE);
  }

  /** One packet of it. */
  lemma TempFilledStep(c: Source, f: File, off: nat)
    requires c.Valid() && |c.bytes| > TEMP_FILESIZE
    requires Aligned(off, c.seg) && Aligned(TEMP_FILESIZE, c.seg) && off < TEMP_FILESIZE
    requires f.gaps == [Interval(off, TEMP_FILESIZE)] && |f.data| <= TEMP_FILESIZE
    requires Add32(f.partial, SumFrom(c, off)) == SumFrom(c, 0)
    ensures var e, f' := off + c.seg, ProcessData(f, off, c.Payload(off));
      && e <= TEMP_FILESIZE && Aligned(e, c.seg) && |f'.data| <= TEMP_FILESIZE
      && f'.gaps == (if e == TEMP_FILESIZE then [] else [Interval(e, TEMP_FILESIZE)])
      && Add32(f'.partial, SumFrom(c, e)) == SumFrom(c, 0)
  {
    hide Aligned, SumFrom, CheckSum, Add32, ProcessData, WriteAt;
    AlignedStep(off, TEMP_FILESIZE, c.seg);
    SumMoves(c, f.partial, off);
    OneGapStep(c, f, off, TEMP_FILESIZE);
  }

  lemma SumMoves(c: Source, partial: uint32, off: nat)
    requires c.Valid() && off < |c.bytes|
    ensures Add32(Add32(partial, CheckSum(c.Payload(off))), SumFrom(c, off + c.seg)) == Add32(partial, SumFrom(c, off))
  {
    hide CheckSum;
  }

  /** Data for an unknown transaction opens a request with a temporary file. */
  lemma OpensTemp(c: Config, w: World, offs: seq<nat>)
    requires c.Valid() && AllOnGrid(c.src, offs) && offs != [] && Sent(c.src, w, offs)
    requires !w.server.crashed && w.server.req.None?
    ensures var r := NewRequest.(file := Some(DeliverAll(c.src, TempFile(TEMP_FILESIZE), offs)));
      Run(c, w, Deliveries(c.src, offs)) == w.(server := w.server.(req := Some(r)))
  {
    var wt := w.(server := w.server.(req := Some(NewRequest.(file := Some(TempFile(TEMP_FILESIZE))))));
    var acts := Deliveries(c.src, offs);
    assert Step(c, w, acts[0]) == Step(c, wt, acts[0]);
    assert Run(c, w, acts) == Run(c, wt, acts);
    DeliveryRun(c, wt, offs);
  }

  /** The whole burst, metadata and EOF are on the network. */
  ghost predicate AllSent(c: Config, w: World)
    requires c.Valid()
  {
    && w.sender.started && Metadata(|c.src.bytes|) in w.net && Eof(|c.src.bytes|, SumFrom(c.src, 0)) in w.net
    && forall off: nat :: off < |c.src.bytes| && Aligned(off, c.src.seg) ==> Data(off, c.src.Payload(off)) in w.net
  }

  lemma AllSentHas(c: Config, w: World, offs: seq<nat>)
    requires c.Valid() && AllSent(c, w) && AllOnGrid(c.src, offs)
    ensures Sent(c.src, w, offs)
  {
  }

  /** The sender has sent everything it sends unasked. */
  lemma Started(c: Config)
    requires c.Valid()
    ensures var w := Step(c, InitialWorld, Start);
      && AllSent(c, w) && w.sender == Sender(true, SumFrom(c.src, 0), false)
      && w.server == InitialWorld.server && Finished !in w.net && AckFinished !in w.net
  {
    BurstIsGood(c.src, 0);
    forall off: nat | off < |c.src.bytes| && Aligned(off, c.src.seg)
      ensures Data(off, c.src.Payload(off)) in Step(c, InitialWorld, Start).net
    {
      BurstHas(c.src, 0, off);
    }
  }

  /** The run in which the packets `offs` arrive before anything else. */
  lemma TempRun(c: Config, offs: seq<nat>) returns (acts: seq<Action>)
    requires c.Valid() && AllOnGrid(c.src, offs) && offs != []
    ensures var w := Run(c, InitialWorld, acts);
      && AllSent(c, w) && !Claimed(w) && Tracked(c, w)
      && w.server ==
           Server(Some(NewRequest.(file := Some(DeliverAll(c.src, TempFile(TEMP_FILESIZE), offs)))), None, false)
    ensures Untimed(acts)
  {
    Started(c);
    var w := Step(c, InitialWorld, Start);
    AllSentHas(c, w, offs);
    OpensTemp(c, w, offs);
    DeliveriesUntimed(c.src, offs);
    acts := [Start] + Deliveries(c.src, offs);
    assert acts[0] == Start && acts[1..] == Deliveries(c.src, offs);
    TrackedRun(c, InitialWorld, acts);
    hide Tracked, Step, SumFrom;
  }

  /** Everything before the temporary size is in, then EOF and the metadata: promotion finds no gap to extend. */
  lemma EmptyPromotion(c: Config, w: World)
    requires c.Valid() && !w.server.crashed && w.server.req.Some? && !Claimed(w)
    requires Metadata(|c.src.bytes|) in w.net && Eof(|c.src.bytes|, SumFrom(c.src, 0)) in w.net
    requires w.server.req.value.file.Some?
    requires var f := FileOf(w);
      w.server.req.value == NewRequest.(file := Some(f)) && f.gaps == [] && f.isTemp
    ensures var w' := Run(c, w, [ToServer(Eof(|c.src.bytes|, SumFrom(c.src, 0))), ToServer(Metadata(|c.src.bytes|))]);
      && w'.sender == w.sender && w'.server.req.Some? && w'.server.req.value.file.Some? && !Claimed(w')
      && !w'.server.crashed && w'.server.req.value == NewRequest.(meta := true, eof := true, fileSize := |c.src.bytes|,
           file := Some(FileOf(w).(atDest := true, eofSum := SumFrom(c.src, 0), totalSize := |c.src.bytes|)))
  {
    hide SumFrom;
    RunTwo(c, w, ToServer(Eof(|c.src.bytes|, SumFrom(c.src, 0))), ToServer(Metadata(|c.src.bytes|)));
  }

  /** With checksums that agree the next time-out claims completion, and the sender believes it. */
  lemma FinishesShort(c: Config, w: World)
    requires c.Valid() && !w.server.crashed && w.server.req.Some? && w.server.req.value.file.Some?
    requires var r := w.server.req.value;
      r.meta && r.eof && !r.finished && !r.paused && r.fileSize != 0 && r.resentFinished == 0
    requires FileOf(w).gaps == [] && FileOf(w).partial == FileOf(w).eofSum && FileOf(w).atDest
    ensures var w' := Run(c, w, [Tick, ToSender(Finished)]);
      w'.sender.finished && DestFile(w'.server) == DestFile(w.server)
  {
    RunTwo(c, w, Tick, ToSender(Finished));
    assert Finished in OnTick(w.server, c.max).1;
  }

  /** Nothing is listed as missing, yet the checksums differ, and nobody has claimed completion. */
  ghost predicate Starved(w: World) {
    && !Claimed(w) && !w.server.crashed && w.server.req.Some? && w.server.req.value.file.Some?
    && var r := w.server.req.value;
       r.meta && r.eof && !r.cleanUp && r.fileSize != 0 && r.file.value.gaps == []
       && r.file.value.partial != r.file.value.eofSum
  }

  lemma {:induction false} BurstOnlyData(c: Source, off: nat)
    requires c.Valid()
    ensures forall p :: p in BurstFrom(c, off) ==> p.Data?
    decreases |c.bytes| + c.seg - off
  {
    if off < |c.bytes| { BurstOnlyData(c, off + c.seg); }
  }

  lemma StarvedAtServer(v: Server, p: Pdu)
    requires p != AckFinished && !v.crashed && v.req.Some? && v.req.value.file.Some?
    requires var r := v.req.value; r.meta && r.eof && !r.finished && r.file.value.gaps == []
    ensures OnServerPdu(v, p) == (v, [])
  {
  }

  lemma StarvedTick(v: Server, max: nat)
    requires !v.crashed && v.req.Some? && v.req.value.file.Some?
    requires var r := v.req.value;
      && r.meta && r.eof && !r.finished && !r.cleanUp && r.fileSize != 0
      && r.file.value.gaps == [] && r.file.value.partial != r.file.value.eofSum
    ensures var t := OnTick(v, max);
      && !t.0.crashed && Finished !in t.1 && AckFinished !in t.1 && t.0.req.Some?
      && t.0.req.value == v.req.value.(resentEof := t.0.req.value.resentEof)
  {
  }

  lemma StarvedStep(c: Config, w: World, a: Action)
    requires c.Valid() && Starved(w)
    ensures Starved(Step(c, w, a))
  {
    match a {
      case Start =>
        BurstOnlyData(c.src, 0);
      case ToSender(p) =>
        if p.Nak? { OnlyData(c.src, Retransmitted(c.src, p.segments)); }
      case ToServer(p) =>
        if p in w.net { StarvedAtServer(w.server, p); }
      case Tick =>
        StarvedTick(w.server, c.max);
      case Lose(_) =>
    }
  }

  /** Such a transfer never finishes: no continuation makes the sender see FINISHED. */
  lemma {:induction false} StarvedForever(c: Config, w: World, acts: seq<Action>)
    requires c.Valid() && Starved(w)
    ensures Starved(Run(c, w, acts)) && !Run(c, w, acts).sender.finished
    decreases |acts|
  {
    if acts != [] {
      StarvedStep(c, w, acts[0]);
      hide Starved;
      StarvedForever(c, Step(c, w, acts[0]), acts[1..]);
    }
  }

  /** The state after everything below the temporary size, EOF and metadata have arrived, in this order. */
  lemma FullTempPromoted(c: Config) returns (acts: seq<Action>)
    requires c.Valid() && !SafeSizes(c.src)
    ensures var w := Run(c, InitialWorld, acts);
      && w.sender.started && !Claimed(w) && !w.server.crashed
      && w.server.req.Some? && w.server.req.value.file.Some?
      && w.server.req.value ==
           NewRequest.(meta := true, eof := true, fileSize := |c.src.bytes|, file := Some(FileOf(w)))
      && FileOf(w).gaps == [] && FileOf(w).atDest && FileOf(w).eofSum == SumFrom(c.src, 0)
      && |FileOf(w).data| < |c.src.bytes|
      && Add32(FileOf(w).partial, SumFrom(c.src, TEMP_FILESIZE)) == SumFrom(c.src, 0)
    ensures NeverUndoes(c, InitialWorld, acts) && Tracked(c, Run(c, InitialWorld, acts))
  {
    hide SumFrom, Add32, Tracked, NeverUndoes;
    var offs := GridOffsets(c.src, 0, TEMP_FILESIZE);
    TempFills(c.src);
    var first := TempRun(c, offs);
    var w := Run(c, InitialWorld, first);
    EmptyPromotion(c, w);
    var last := [ToServer(Eof(|c.src.bytes|, SumFrom(c.src, 0))), ToServer(Metadata(|c.src.bytes|))];
    RunConcat(c, InitialWorld, first, last);
    acts := first + last;
    QuietRun(c, InitialWorld, acts);
    ReachableIsTracked(c, acts);
  }

  lemma TempFills(c: Source)
    requires c.Valid() && !SafeSizes(c)
    ensures var offs := GridOffsets(c, 0, TEMP_FILESIZE);
      AllOnGrid(c, offs) && offs != [] &&
      var f := DeliverAll(c, TempFile(TEMP_FILESIZE), offs);
      && f.gaps == [] && f.isTemp && |f.data| < |c.bytes|
      && Add32(f.partial, SumFrom(c, TEMP_FILESIZE)) == SumFrom(c, 0)
  {
    AlignedIsMultiple(TEMP_FILESIZE, c.seg);
    hide SumFrom;
    TempFilled(c, TempFile(TEMP_FILESIZE), 0);
    DeliverKeepsRest(c, TempFile(TEMP_FILESIZE), GridOffsets(c, 0, TEMP_FILESIZE));
  }

  lemma {:induction false} NeverUndoesConcat(c: Config, w: World, a: seq<Action>, b: seq<Action>)
    requires c.Valid() && NeverUndoes(c, w, a) && NeverUndoes(c, Run(c, w, a), b)
    ensures NeverUndoes(c, w, a + b)
    decreases |a|
  {
    hide Step, Undoes;
    if a == [] {
      assert a + b == b;
    } else {
      assert (a + b)[0] == a[0] && (a + b)[1..] == a[1..] + b;
      NeverUndoesConcat(c, Step(c, w, a[0]), a[1..], b);
    }
  }

  /** For every file of such a size what lies behind the temporary size can be lost for good: it is never asked
      for. When its checksum happens to be zero the transfer is even reported complete. */
  lemma TailNeverRequested(c: Config) returns (acts: seq<Action>)
    requires c.Valid() && !SafeSizes(c.src)
    ensures var w := Run(c, InitialWorld, acts);
      if SumFrom(c.src, TEMP_FILESIZE) == 0
      then w.sender.finished && DestFile(w.server).Some? && |DestFile(w.server).value| < |c.src.bytes|
      else Starved(w)
    ensures NeverUndoes(c, InitialWorld, acts)
  {
    acts := FullTempPromoted(c);
    hide SumFrom;
    if SumFrom(c.src, TEMP_FILESIZE) == 0 {
      var w := Run(c, InitialWorld, acts);
      FinishesShort(c, w);
      RunConcat(c, InitialWorld, acts, [Tick, ToSender(Finished)]);
      assert [Tick, ToSender(Finished)][1..] == [ToSender(Finished)];
      NeverUndoesConcat(c, InitialWorld, acts, [Tick, ToSender(Finished)]);
      acts := acts + [Tick, ToSender(Finished)];
    }
  }

  // ----- a late duplicate of the metadata

  /** The undisturbed transfer up to EOF: everything arrives in order. */
  function CleanHead(c: Config): seq<Action>
    requires c.Valid() && AllOnGrid(c.src, GridOffsets(c.src, 0, |c.src.bytes|))
  {
    [Start, ToServer(Metadata(|c.src.bytes|))] +
    (Deliveries(c.src, GridOffsets(c.src, 0, |c.src.bytes|)) + [ToServer(Eof(|c.src.bytes|, SumFrom(c.src, 0)))])
  }

  /** And then FINISHED, and the sweep that removes the finished request. */
  function CleanTransfer(c: Config): seq<Action>
    requires c.Valid() && AllOnGrid(c.src, GridOffsets(c.src, 0, |c.src.bytes|))
  {
    CleanHead(c) + [Tick, ToSender(Finished), Tick]
  }

  lemma AllPacketsFill(c: Source)
    requires c.Valid() && |c.bytes| > 0
    ensures var offs := GridOffsets(c, 0, |c.bytes|);
      AllOnGrid(c, offs) &&
      var f := DeliverAll(c, AddFirstOffset(EmptyFile, |c.bytes|), offs);
      f == File([], c.bytes, SumFrom(c, 0), 0, 0, false, true)
  {
    var f0 := AddFirstOffset(EmptyFile, |c.bytes|);
    assert f0.gaps == [Interval(0, |c.bytes|)];
    FreshFileExact(c);
    FirstGapFilled(c, f0);
    var offs := GridOffsets(c, 0, |c.bytes|);
    var f := DeliverAll(c, f0, offs);
    ExactAndEmptyIsComplete(c, f.data, f.partial);
    DeliverKeepsRest(c, f0, offs);
  }

  /** The server with metadata, EOF and all data. */
  function FullServer(c: Source): Server
    requires c.Valid()
  {
    var f := File([], c.bytes, SumFrom(c, 0), SumFrom(c, 0), |c.bytes|, false, true);
    Server(Some(NewRequest.(meta := true, eof := true, fileSize := |c.bytes|, file := Some(f))), None, false)
  }

  /** PDUs arriving at the server one after another. */
  function Arrivals(ps: seq<Pdu>): (acts: seq<Action>)
    ensures |acts| == |ps|
  {
    seq(|ps|, i requires 0 <= i < |ps| => ToServer(ps[i]))
  }

  lemma ArrivalsConcat(a: seq<Pdu>, b: seq<Pdu>)
    ensures Arrivals(a + b) == Arrivals(a) + Arrivals(b)
  {
  }

  lemma {:induction false} BurstArrives(c: Source, off: nat)
    requires c.Valid() && AllOnGrid(c, GridOffsets(c, off, |c.bytes|))
    ensures Arrivals(BurstFrom(c, off)) == Deliveries(c, GridOffsets(c, off, |c.bytes|))
    decreases |c.bytes| + c.seg - off
  {
    if off < |c.bytes| {
      var offs := GridOffsets(c, off, |c.bytes|);
      assert offs[0] == off && offs[1..] == GridOffsets(c, off + c.seg, |c.bytes|);
      BurstArrives(c, off + c.seg);
      ArrivalsConcat([Data(off, c.Payload(off))], BurstFrom(c, off + c.seg));
    }
  }

  /** What the sender transmits at its start, arriving in that order and nothing lost: the server survives and has
      metadata, EOF and every byte, and its checksum is the one EOF carries. Metadata is first and EOF last. */
  lemma StartArrivesInOrder(c: Config)
    requires c.Valid()
    ensures var ps := StartSender(c.src).1;
      && ps[0] == Metadata(|c.src.bytes|) && ps[|ps| - 1] == Eof(|c.src.bytes|, SumFrom(c.src, 0))
      && (forall i :: 0 < i < |ps| - 1 ==> ps[i].Data?)
      && var v := Run(c, InitialWorld, [Start] + Arrivals(ps)).server;
      && !v.crashed && v.req.Some? && v.req.value.meta && v.req.value.eof && v.req.value.fileSize == |c.src.bytes|
      && v.req.value.file.Some? && v.req.value.file.value.gaps == [] && v.req.value.file.value.data == c.src.bytes
      && v.req.value.file.value.eofSum == v.req.value.file.value.partial
  {
    hide SumFrom;
    CleanHeadEnds(c);
    var ps := StartSender(c.src).1;
    var meta, eof := [Metadata(|c.src.bytes|)], [Eof(|c.src.bytes|, SumFrom(c.src, 0))];
    BurstOnlyData(c.src, 0);
    BurstArrives(c.src, 0);
    ArrivalsConcat(meta, BurstFrom(c.src, 0));
    ArrivalsConcat(meta + BurstFrom(c.src, 0), eof);
    assert [Start] + Arrivals(ps) == CleanHead(c);
  }

  lemma CleanStart(c: Config)
    requires c.Valid()
    ensures var w := Run(c, InitialWorld, [Start, ToServer(Metadata(|c.src.bytes|))]);
      && AllSent(c, w) && !Claimed(w) && w.server ==
           Server(Some(NewRequest.(meta := true, fileSize := |c.src.bytes|,
                                   file := Some(AddFirstOffset(EmptyFile, |c.src.bytes|)))), None, false)
  {
    Started(c);
    hide SumFrom;
    RunTwo(c, InitialWorld, Start, ToServer(Metadata(|c.src.bytes|)));
  }

  lemma EofFills(c: Config, w: World)
    requires c.Valid() && AllSent(c, w) && !Claimed(w)
    requires w.server == Server(Some(NewRequest.(meta := true, fileSize := |c.src.bytes|,
      file := Some(File([], c.src.bytes, SumFrom(c.src, 0), 0, 0, false, true)))), None, false)
    ensures var w' := Run(c, w, [ToServer(Eof(|c.src.bytes|, SumFrom(c.src, 0)))]);
      AllSent(c, w') && !Claimed(w') && w'.server == FullServer(c.src)
  {
    hide SumFrom;
    var a := ToServer(Eof(|c.src.bytes|, SumFrom(c.src, 0)));
    assert Run(c, w, [a]) == Step(c, w, a) by { assert [a][1..] == []; }
  }

  lemma CleanHeadEnds(c: Config)
    requires c.Valid()
    ensures AllOnGrid(c.src, GridOffsets(c.src, 0, |c.src.bytes|))
    ensures var w := Run(c, InitialWorld, CleanHead(c)); AllSent(c, w) && !Claimed(w) && w.server == FullServer(c.src)
  {
    var offs := GridOffsets(c.src, 0, |c.src.bytes|);
    AllPacketsFill(c.src);
    CleanStart(c);
    hide SumFrom, Step, FullServer;
    var head := [Start, ToServer(Metadata(|c.src.bytes|))];
    var mid, last := Deliveries(c.src, offs), [ToServer(Eof(|c.src.bytes|, SumFrom(c.src, 0)))];
    var w1 := Run(c, InitialWorld, head);
    RunConcat(c, InitialWorld, head, mid + last);
    RunConcat(c, w1, mid, last);
    AllSentHas(c, w1, offs);
    DeliveryRun(c, w1, offs);
    EofFills(c, Run(c, w1, mid));
  }

  /** The undisturbed transfer ends with the file delivered and the request gone. */
  lemma CleanTransferEnds(c: Config)
    requires c.Valid()
    ensures AllOnGrid(c.src, GridOffsets(c.src, 0, |c.src.bytes|))
    ensures var w := Run(c, InitialWorld, CleanTransfer(c));
      && w.sender.finished && w.server == Server(None, Some(c.src.bytes), false)
      && AllSent(c, w) && AckFinished in w.net
  {
    CleanHeadEnds(c);
    var w := Run(c, InitialWorld, CleanHead(c));
    RunConcat(c, InitialWorld, CleanHead(c), [Tick, ToSender(Finished), Tick]);
    hide CleanHead, Step, FullServer, SumFrom, AllSent;
    ClosingSteps(c, w);
  }

  lemma RunThree(c: Config, w: World, a1: Action, a2: Action, a3: Action)
    requires c.Valid()
    ensures Run(c, w, [a1, a2, a3]) == Step(c, Step(c, Step(c, w, a1), a2), a3)
  {
    hide Step;
    assert [a1, a2, a3][1..] == [a2, a3];
    RunTwo(c, Step(c, w, a1), a2, a3);
  }

  lemma ClosingSteps(c: Config, w: World)
    requires c.Valid() && AllSent(c, w) && w.server == FullServer(c.src)
    ensures var w' := Run(c, w, [Tick, ToSender(Finished), Tick]);
      && w'.sender.finished && w'.server == Server(None, Some(c.src.bytes), false)
      && AllSent(c, w') && AckFinished in w'.net
  {
    hide SumFrom;
    RunThree(c, w, Tick, ToSender(Finished), Tick);
    assert Finished in OnTick(w.server, c.max).1;
    var w2 := Step(c, w, Tick);
    assert w2.server.req.value.finished && w2.server.req.value.resentFinished == 1;
  }

  /** A server that has swept its request truncates the destination when a copy of the metadata arrives. */
  lemma LateMetadataTruncates(v: Server, size: nat)
    requires !v.crashed && v.req.None? && size > 0
    ensures DestFile(OnServerPdu(v, Metadata(size)).0) == Some([])
  {
  }

  /** So delivery does not stay delivered: for every file there is a run that first completes and then loses it. */
  lemma DeliveryCanBeUndone(c: Config) returns (acts: seq<Action>)
    requires c.Valid()
    ensures var w := Run(c, InitialWorld, acts);
      && w.sender.finished && DestFile(w.server) == Some([]) && c.src.bytes != []
      && AckFinished in w.net
      && w.server == OnServerPdu(Server(None, Some(c.src.bytes), false), Metadata(|c.src.bytes|)).0
  {
    CleanTransferEnds(c);
    var w := Run(c, InitialWorld, CleanTransfer(c));
    var a := ToServer(Metadata(|c.src.bytes|));
    LateMetadataTruncates(w.server, |c.src.bytes|);
    acts := CleanTransfer(c) + [a];
    RunConcat(c, InitialWorld, CleanTransfer(c), [a]);
    assert Run(c, w, [a]) == Step(c, w, a) by { assert [a][1..] == []; }
  }

  /** And it can be lost for good: a copy of ACK(FINISHED) makes the reopened request finished, the next time-out
      sends FINISHED on an empty file, and the one after that closes the request over it. */
  lemma DeliveryLostForGood(c: Config) returns (acts: seq<Action>)
    requires c.Valid()
    ensures var w := Run(c, InitialWorld, acts);
      && w.sender.finished && w.server.req.Some? && DestFile(w.server) == Some([]) && c.src.bytes != []
      && Finished in OnTick(w.server, c.max).1
      && Run(c, w, [Tick, Tick]).server == Server(None, Some([]), false)
  {
    var before := DeliveryCanBeUndone(c);
    var w := Run(c, InitialWorld, before);
    var a := ToServer(AckFinished);
    acts := before + [a];
    RunConcat(c, InitialWorld, before, [a]);
    assert Run(c, w, [a]) == Step(c, w, a) by { assert [a][1..] == []; }
    var w1 := Step(c, w, a);
    RunTwo(c, w1, Tick, Tick);
    var t := OnTick(w1.server, c.max);
    assert t.1 == [Finished] && t.0.req.Some? && t.0.req.value.resentFinished == 1;
  }

  // ----- sizes for which a delivered file can be replaced by a short one

  /** Without metadata nothing is undone. */
  lemma {:induction false} NothingUndone(c: Config, w: World, acts: seq<Action>)
    requires c.Valid() && forall i :: 0 <= i < |acts| ==> !(acts[i].ToServer? && acts[i].pdu.Metadata?)
    ensures NeverUndoes(c, w, acts)
    decreases |acts|
  {
    if acts != [] {
      assert forall i :: 0 <= i < |acts[1..]| ==> acts[1..][i] == acts[i + 1];
      hide Step;
      NothingUndone(c, Step(c, w, acts[0]), acts[1..]);
    }
  }

  lemma {:induction false} DeliveriesAreData(c: Source, offs: seq<nat>)
    requires c.Valid() && AllOnGrid(c, offs)
    ensures forall i :: 0 <= i < |offs| ==> !(Deliveries(c, offs)[i].ToServer? && Deliveries(c, offs)[i].pdu.Metadata?)
  {
    if offs != [] { DeliveriesAreData(c, offs[1..]); }
  }

  lemma CleanUndoesNothing(c: Config)
    requires c.Valid()
    ensures AllOnGrid(c.src, GridOffsets(c.src, 0, |c.src.bytes|))
    ensures NeverUndoes(c, InitialWorld, CleanTransfer(c))
  {
    CleanHeadEnds(c);
    HeadUntimed(c);
    hide CleanHead, SumFrom, Step, Claimed;
    QuietRun(c, InitialWorld, CleanHead(c));
    var last := [Tick, ToSender(Finished), Tick];
    NothingUndone(c, Run(c, InitialWorld, CleanHead(c)), last);
    NeverUndoesConcat(c, InitialWorld, CleanHead(c), last);
  }

  lemma HeadUntimed(c: Config)
    requires c.Valid() && AllOnGrid(c.src, GridOffsets(c.src, 0, |c.src.bytes|))
    ensures Untimed(CleanHead(c))
  {
    hide SumFrom, Deliveries;
    DeliveriesUntimed(c.src, GridOffsets(c.src, 0, |c.src.bytes|));
  }

  /** For every file of an unsafe size: after a clean transfer, copies of the segments below the temporary size and
      of the metadata put a short file over the delivered one, and no step has undone the delivery. */
  lemma UnsafeRun(c: Config) returns (acts: seq<Action>)
    requires c.Valid() && !SafeSizes(c.src)
    ensures !SafeRun(c, acts)
  {
    var offs := GridOffsets(c.src, 0, TEMP_FILESIZE);
    TempFills(c.src);
    CleanTransferEnds(c);
    CleanUndoesNothing(c);
    var first := CleanTransfer(c);
    var w := Run(c, InitialWorld, first);
    AllSentHas(c, w, offs);
    var mid := Deliveries(c.src, offs);
    OpensTemp(c, w, offs);
    var w1 := Run(c, w, mid);
    var a := ToServer(Metadata(|c.src.bytes|));
    acts := first + (mid + [a]);
    RunConcat(c, InitialWorld, first, mid + [a]);
    RunConcat(c, w, mid, [a]);
    assert Run(c, w1, [a]) == Step(c, w1, a) by { assert [a][1..] == []; }
    DeliveriesAreData(c.src, offs);
    NothingUndone(c, w, mid);
    PromotedOverDelivered(c, w1, DeliverAll(c.src, TempFile(TEMP_FILESIZE), offs));
    NeverUndoesConcat(c, w, mid, [a]);
    NeverUndoesConcat(c, InitialWorld, first, mid + [a]);
    if AlwaysHonest(c, InitialWorld, acts) { HonestAtEnd(c, InitialWorld, acts); }
  }

  lemma PromotedOverDelivered(c: Config, w: World, f: File)
    requires c.Valid() && w.sender.finished && Metadata(|c.src.bytes|) in w.net && !w.server.crashed
    requires w.server.req == Some(NewRequest.(file := Some(f))) && f.gaps == [] && f.isTemp && |f.data| < |c.src.bytes|
    ensures var a := ToServer(Metadata(|c.src.bytes|));
      NeverUndoes(c, w, [a]) && !Honest(c, Step(c, w, a))
  {
    var a := ToServer(Metadata(|c.src.bytes|));
    assert [a][1..] == [];
    assert NeverUndoes(c, Step(c, w, a), []);
  }

  /** The exact files that are safe: every run in which no step undoes a delivery is honest throughout. */
  lemma SafeExactly(c: Config)
    requires c.Valid()
    ensures SafeSizes(c.src) <==> forall acts :: SafeRun(c, acts)
  {
    if SafeSizes(c.src) {
      forall acts ensures SafeRun(c, acts) { SafeSizesSafe(c, acts); }
    } else {
      var acts := UnsafeRun(c);
    }
  }

  // ----- what a lost tail means

  /** Before any claim: the transfer is doomed. After one: the claim has become false. */
  lemma LostTail(c: Config, w: World, a: Action)
    requires Tracked(c, w) && Inv(c, w) && !w.server.crashed && LosesTail(c, w, a)
    ensures if Claimed(w) then Claimed(Step(c, w, a)) && !Complete(c.src, Step(c, w, a).server)
            else Doomed(c, Step(c, w, a))
  {
    hide TempExact, Exact;
    assert GoodPdu(c.src, a.pdu) && w.server.req.Some?;
    if Claimed(w) {
      FullTempIsShort(c.src, FileOf(w));
    } else {
      PromotedDoomed(c, w);
    }
  }

  lemma {:induction false} FinishedIff(c: Config, w: World, acts: seq<Action>)
    requires Tracked(c, w) && Inv(c, w) && Honest(c, w) && Run(c, w, acts).sender.finished
    ensures AlwaysHonest(c, w, acts) <==> NeverUndoes(c, w, acts) && NeverLosesTail(c, w, acts)
    decreases |acts|
  {
    if acts != [] {
      var a, w' := acts[0], Step(c, w, acts[0]);
      HonestStep(c, w, a);
      TrackedStep(c, w, a);
      if LosesTail(c, w, a) {
        LostTail(c, w, a);
        hide Doomed, Step, Tracked, Inv, Complete, Claimed;
        if !Claimed(w) && AlwaysHonest(c, w', acts[1..]) { DoomedForever(c, w', acts[1..]); }
      } else {
        InvStep(c, w, a);
        hide Step, Tracked, Inv, Honest, Undoes, LosesTail;
        if Honest(c, w') { FinishedIff(c, w', acts[1..]); }
      }
    }
  }

  /** Safety of every finished run, for all sizes: when the sender has received FINISHED, all claims along the run
      were true exactly when no step undid a delivery and none lost a tail. */
  lemma FinishedRunsExactly(c: Config, acts: seq<Action>)
    requires c.Valid() && Run(c, InitialWorld, acts).sender.finished
    ensures AlwaysHonest(c, InitialWorld, acts) <==>
      NeverUndoes(c, InitialWorld, acts) && NeverLosesTail(c, InitialWorld, acts)
  {
    InitInv(c);
    FinishedIff(c, InitialWorld, acts);
  }

  // ----- EOF without a file

  /** EOF meets a live request that has neither file nor metadata, or no request at all. */
  predicate Crashes(w: World, a: Action) {
    var r := OpenRequest(w.server);
    a.ToServer? && a.pdu in w.net && !w.server.crashed && a.pdu.Eof? && !r.eof && r.file.None? && !r.meta
  }

  predicate EverCrashes(c: Config, w: World, acts: seq<Action>)
    requires c.Valid()
    decreases |acts|
  {
    acts != [] && (Crashes(w, acts[0]) || EverCrashes(c, Step(c, w, acts[0]), acts[1..]))
  }

  /** The server has died on a null file at the end of a run exactly when EOF came upon it without one somewhere. */
  lemma {:induction false} CrashedIff(c: Config, w: World, acts: seq<Action>)
    requires c.Valid()
    ensures Run(c, w, acts).server.crashed <==> w.server.crashed || EverCrashes(c, w, acts)
    decreases |acts|
  {
    if acts != [] {
      var w' := Step(c, w, acts[0]);
      CrashStep(c, w, acts[0]);
      hide Step, Crashes;
      CrashedIff(c, w', acts[1..]);
      if w.server.crashed { NoMoreCrashes(c, w', acts[1..]); }
    }
  }

  lemma CrashStep(c: Config, w: World, a: Action)
    requires c.Valid()
    ensures Step(c, w, a).server.crashed <==> w.server.crashed || Crashes(w, a)
  {
  }

  lemma {:induction false} NoMoreCrashes(c: Config, w: World, acts: seq<Action>)
    requires c.Valid() && w.server.crashed
    ensures Run(c, w, acts).server.crashed
    decreases |acts|
  {
    if acts != [] { NoMoreCrashes(c, Step(c, w, acts[0]), acts[1..]); }
  }

  /** When EOF overtakes everything else the server dies. */
  lemma EofFirstCrashes(c: Config)
    requires c.Valid()
    ensures Run(c, InitialWorld, [Start, ToServer(Eof(|c.src.bytes|, SumFrom(c.src, 0)))]).server.crashed
  {
    Started(c);
    hide SumFrom;
    RunTwo(c, InitialWorld, Start, ToServer(Eof(|c.src.bytes|, SumFrom(c.src, 0))));
  }

  /** So it does after every transfer that went well, on a copy of EOF that comes when the request has been removed. */
  lemma LateEofCrashes(c: Config)
    requires c.Valid()
    ensures AllOnGrid(c.src, GridOffsets(c.src, 0, |c.src.bytes|))
    ensures Run(c, InitialWorld, CleanTransfer(c) + [ToServer(Eof(|c.src.bytes|, SumFrom(c.src, 0)))]).server.crashed
  {
    CleanTransferEnds(c);
    var w := Run(c, InitialWorld, CleanTransfer(c));
    var a := ToServer(Eof(|c.src.bytes|, SumFrom(c.src, 0)));
    RunConcat(c, InitialWorld, CleanTransfer(c), [a]);
    hide SumFrom;
    assert Run(c, w, [a]) == Step(c, w, a) by { assert [a][1..] == []; }
  }
}
