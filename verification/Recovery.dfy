/** Networks that lose PDUs for good: from which states a transfer can still be finished, exactly. */
module Recovery {
  import opened Options
  import opened Bytes
  import opened Intervals
  import opened Checksum
  import opened Segments
  import opened Receiver
  import opened FileLemmas
  import opened TempLemmas
  import opened Delivery
  import opened Protocol
  import opened Safety
  import opened Progress
  import opened Doom

  // ----- temporary files that can still become the real one

  /** When all packets from `k` on that the temporary file misses arrive, its list can be promoted: their arrival is
      possible, and either nothing is missing then, or the last gap ends at `k` and what lies behind it has no checksum
      to be counted twice. */
  ghost predicate ClosesAt(c: Config, w: World, gs: seq<Interval>, k: nat)
    requires c.Valid()
  {
    && TempSizeOnGrid(c.src) && k < TEMP_FILESIZE && Aligned(k, c.src.seg)
    && (forall off: nat :: k <= off && Wanted(c, gs, off) ==> OnItsWay(c, w, off))
    && if k == 0 then |c.src.bytes| <= TEMP_FILESIZE
       else Misses(gs, k - 1) && SumTo(c.src, k, TEMP_FILESIZE) == 0
  }

  /** A segment inside the temporary file that it misses. */
  ghost predicate Wanted(c: Config, gs: seq<Interval>, off: nat)
    requires c.Valid()
  {
    off < TEMP_FILESIZE && off < |c.src.bytes| && Aligned(off, c.src.seg) && Misses(gs, off)
  }

  /** The list is promotable, or some packets on their way make it so. */
  ghost predicate Salvageable(c: Config, w: World, gs: seq<Interval>)
    requires c.Valid()
  {
    Promotable(c.src, gs) || exists k: nat :: ClosesAt(c, w, gs, k)
  }

  /** Data that opens a request leaves this list. */
  function OpenedBy(c: Source, off: nat): seq<Interval>
    requires c.Valid() && off < |c.bytes| && Aligned(off, c.seg)
  {
    ProcessData(TempFile(TEMP_FILESIZE), off, c.Payload(off)).gaps
  }

  /** From here the transfer can be finished: by the metadata if the server knows nothing but has it, or a request
      for it, or salvageable data on its way; by the exactness of a file whose metadata is in; by a temporary file
      that can be salvaged. */
  ghost predicate Recoverable(c: Config, w: World)
    requires c.Valid()
  {
    match w.server.req
    case None =>
      Metadata(|c.src.bytes|) in w.net || NakMetadata in w.net ||
        exists off: nat :: OnItsWay(c, w, off) && Salvageable(c, w, OpenedBy(c.src, off))
    case Some(r) =>
      if r.file.None? then true
      else if r.meta then Exact(c.src, r.file.value.data, r.file.value.partial, r.file.value.gaps)
      else Salvageable(c, w, r.file.value.gaps)
  }

  /** A running transfer of which nobody has claimed completion. */
  ghost predicate Running(c: Config, w: World) {
    Tracked(c, w) && w.sender.started && !w.server.crashed && !Claimed(w)
  }

  ghost predicate RunningTemp(c: Config, w: World) {
    Running(c, w) && w.server.req.Some? && !w.server.req.value.meta && w.server.req.value.file.Some?
  }

  // ----- recovering

  /** On the grid a temporary file misses a segment or has it. */
  lemma WholeSegments(c: Source, gs: seq<Interval>, off: nat)
    requires c.Valid() && Canonical(gs) && StartsOnGrid(c, gs) && TempEnds(c, gs) && TempSizeOnGrid(c)
    requires off < TEMP_FILESIZE && off < |c.bytes| && Aligned(off, c.seg)
    ensures Receive(gs, off, c.End(off)).1 <==> Misses(gs, off)
    ensures !Misses(gs, off) ==> forall x: nat :: off <= x < c.End(off) ==> !Misses(gs, x)
  {
    EndIsBoundary(c, off);
    NextInTemp(c, off);
    TakenIffAllMissing(gs, off, c.End(off));
    if Misses(gs, off) {
      var i :| 0 <= i < |gs| && gs[i].start <= off < gs[i].end;
      if gs[i].end < TEMP_FILESIZE { AlignedStep(off, gs[i].end, c.seg); }
      assert Encloses(gs[i], off, c.End(off));
    } else {
      forall x: nat | off <= x < c.End(off) ensures !Misses(gs, x) {
        if Misses(gs, x) {
          var i :| 0 <= i < |gs| && gs[i].start <= x < gs[i].end;
          assert off < gs[i].start && Boundary(c, gs[i].start);
          if gs[i].start != |c.bytes| { AlignedStep(off, gs[i].start, c.seg); }
          assert false;
        }
      }
    }
  }

  /** One packet that a temporary file wants arrives. */
  lemma TakesWanted(c: Config, w: World, off: nat) returns (acts: seq<Action>)
    requires RunningTemp(c, w) && Wanted(c, FileOf(w).gaps, off) && OnItsWay(c, w, off) && TempSizeOnGrid(c.src)
    ensures var w' := Run(c, w, acts);
      && RunningTemp(c, w') && w.net <= w'.net && Quiet(c, w, acts)
      && forall x: nat :: Misses(FileOf(w').gaps, x) <==> Misses(FileOf(w).gaps, x) && !(off <= x < c.src.End(off))
  {
    acts := Brings(c, w, off);
    var w1 := Run(c, w, acts);
    TrackedRun(c, w, acts);
    var a := ToServer(Data(off, c.src.Payload(off)));
    DataTaken(c, w1, off);
    QuietStep(c, w1, a);
    QuietThen(c, w, acts, [a]);
    acts := acts + [a];
  }

  lemma DataTaken(c: Config, w: World, off: nat)
    requires RunningTemp(c, w) && Wanted(c, FileOf(w).gaps, off) && TempSizeOnGrid(c.src)
    requires Data(off, c.src.Payload(off)) in w.net
    ensures var w' := Step(c, w, ToServer(Data(off, c.src.Payload(off))));
      && RunningTemp(c, w') && w.net <= w'.net
      && forall x: nat :: Misses(FileOf(w').gaps, x) <==> Misses(FileOf(w).gaps, x) && !(off <= x < c.src.End(off))
  {
    var f := FileOf(w);
    var e := c.src.End(off);
    DataStepRun(c, w, Data(off, c.src.Payload(off)));
    TrackedStep(c, w, ToServer(Data(off, c.src.Payload(off))));
    WholeSegments(c.src, f.gaps, off);
    EndIsBoundary(c.src, off);
    DataStep(c.src, f, off);
    forall x: nat ensures Misses(Receive(f.gaps, off, e).0, x) <==> Misses(f.gaps, x) && !(off <= x < e) {
      CarveMisses(f.gaps, off, e, x);
    }
  }

  /** All packets that a temporary file wants from `off` on arrive; nothing else changes in its list. */
  lemma {:induction false} TakesFrom(c: Config, w: World, off: nat) returns (acts: seq<Action>)
    requires RunningTemp(c, w) && TempSizeOnGrid(c.src)
    requires off <= TEMP_FILESIZE && (Aligned(off, c.src.seg) || off == TEMP_FILESIZE)
    requires forall o: nat :: off <= o && Wanted(c, FileOf(w).gaps, o) ==> OnItsWay(c, w, o)
    ensures var w' := Run(c, w, acts);
      && RunningTemp(c, w') && w.net <= w'.net && Quiet(c, w, acts)
      && forall x: nat :: Misses(FileOf(w').gaps, x) <==> Misses(FileOf(w).gaps, x) && x < off
    decreases TEMP_FILESIZE - off
  {
    if off == TEMP_FILESIZE {
      BelowTemp(c, w);
      acts := [];
      QuietNothing(c, w);
    } else {
      EndIsBoundary(c.src, off);
      NextInTemp(c.src, off);
      var e := c.src.End(off);
      acts := TakesOne(c, w, off);
      var w1 := Run(c, w, acts);
      hide RunningTemp, Run, Quiet, Misses, Aligned;
      forall o: nat | e <= o && Wanted(c, FileOf(w1).gaps, o) ensures OnItsWay(c, w1, o) {
        assert Wanted(c, FileOf(w).gaps, o);
        StillOnItsWay(c, w, w1, o);
      }
      var rest := TakesFrom(c, w1, e);
      QuietThen(c, w, acts, rest);
      acts := acts + rest;
    }
  }

  /** The segment at `off`, if it is wanted. */
  lemma TakesOne(c: Config, w: World, off: nat) returns (acts: seq<Action>)
    requires RunningTemp(c, w) && TempSizeOnGrid(c.src) && off < TEMP_FILESIZE && Aligned(off, c.src.seg)
    requires off < |c.src.bytes| && (Wanted(c, FileOf(w).gaps, off) ==> OnItsWay(c, w, off))
    ensures var w' := Run(c, w, acts);
      && RunningTemp(c, w') && w.net <= w'.net && Quiet(c, w, acts)
      && forall x: nat :: Misses(FileOf(w').gaps, x) <==> Misses(FileOf(w).gaps, x) && !(off <= x < c.src.End(off))
  {
    if Wanted(c, FileOf(w).gaps, off) {
      acts := TakesWanted(c, w, off);
    } else {
      WholeSegments(c.src, FileOf(w).gaps, off);
      acts := [];
      QuietNothing(c, w);
    }
  }

  lemma BelowTemp(c: Config, w: World)
    requires RunningTemp(c, w)
    ensures forall x: nat :: Misses(FileOf(w).gaps, x) ==> x < TEMP_FILESIZE
  {
  }

  /** What is on its way stays so when nothing is lost. */
  lemma StillOnItsWay(c: Config, w: World, w': World, off: nat)
    requires c.Valid() && OnItsWay(c, w, off) && w.net <= w'.net
    ensures OnItsWay(c, w', off)
  {
    hide Retransmitted;
    if Data(off, c.src.Payload(off)) !in w.net {
      var gs :| Nak(gs) in w.net && off in Retransmitted(c.src, gs);
      assert Nak(gs) in w'.net;
    }
  }

  /** A canonical list that misses nothing from `k` on but the byte before ends at `k`. */
  lemma EndsAt(gs: seq<Interval>, k: nat)
    requires Canonical(gs) && k > 0 && Misses(gs, k - 1) && forall x: nat :: Misses(gs, x) ==> x < k
    ensures gs != [] && gs[|gs| - 1].end == k && gs[|gs| - 1].start < k
  {
    var last := gs[|gs| - 1];
    var i :| 0 <= i < |gs| && gs[i].start <= k - 1 < gs[i].end;
    assert Misses(gs, last.end - 1);
    if i < |gs| - 1 { assert false; }
  }

  /** Then its list is promotable. */
  lemma ClosedIsPromotable(c: Source, gs: seq<Interval>, before: seq<Interval>, k: nat)
    requires c.Valid() && Canonical(gs) && TempSizeOnGrid(c) && k < TEMP_FILESIZE
    requires forall x: nat :: Misses(gs, x) <==> Misses(before, x) && x < k
    requires if k == 0 then |c.bytes| <= TEMP_FILESIZE else Misses(before, k - 1) && SumTo(c, k, TEMP_FILESIZE) == 0
    ensures Promotable(c, gs)
  {
    if k == 0 {
      SomeMissed(gs);
    } else {
      EndsAt(gs, k);
    }
  }

  lemma PromotableIsReady(c: Config, w: World)
    requires RunningTemp(c, w) && Promotable(c.src, FileOf(w).gaps)
    ensures Ready(c, w)
  {
    hide Exact, TempExact, Promotable, DoomedFile;
  }

  lemma TempIsCanonical(c: Config, w: World)
    requires RunningTemp(c, w)
    ensures c.Valid() && Canonical(FileOf(w).gaps)
  {
  }

  /** A continuation that finishes after a quiet one makes a continuation that finishes. */
  lemma FinishableAfter(c: Config, w: World, acts: seq<Action>)
    requires c.Valid() && !Claimed(w) && Quiet(c, w, acts) && Finishable(c, Run(c, w, acts))
    ensures Finishable(c, w)
  {
    hide AlwaysHonest, Claimed, Quiet;
    var more :| AlwaysHonest(c, Run(c, w, acts), more) && Run(c, Run(c, w, acts), more).sender.finished;
    QuietThen(c, w, acts, more);
    assert AlwaysHonest(c, w, acts + more) && Run(c, w, acts + more).sender.finished;
  }

  lemma SalvageFinishes(c: Config, w: World)
    requires RunningTemp(c, w) && Salvageable(c, w, FileOf(w).gaps)
    ensures c.Valid() && Finishable(c, w)
  {
    TempIsCanonical(c, w);
    if Promotable(c.src, FileOf(w).gaps) {
      PromotableIsReady(c, w);
      ReadyFinishes(c, w);
    } else {
      var k: nat :| ClosesAt(c, w, FileOf(w).gaps, k);
      var acts := TakesFrom(c, w, k);
      var w' := Run(c, w, acts);
      TempIsCanonical(c, w');
      ClosedIsPromotable(c.src, FileOf(w').gaps, FileOf(w).gaps, k);
      PromotableIsReady(c, w');
      ReadyFinishes(c, w');
      FinishableAfter(c, w, acts);
    }
  }

  /** Data opens a request for an unknown transaction. */
  lemma DataOpens(c: Config, w: World, off: nat)
    requires Running(c, w) && w.server.req.None? && off < |c.src.bytes| && Aligned(off, c.src.seg)
    requires Data(off, c.src.Payload(off)) in w.net
    ensures var w' := Step(c, w, ToServer(Data(off, c.src.Payload(off))));
      RunningTemp(c, w') && w'.net == w.net && w'.sender == w.sender && FileOf(w').gaps == OpenedBy(c.src, off)
  {
    TrackedStep(c, w, ToServer(Data(off, c.src.Payload(off))));
    hide ProcessData, TrackedRequest;
    assert w.net + Elements([]) == w.net;
  }

  lemma ClosesStill(c: Config, w: World, w': World, gs: seq<Interval>)
    requires c.Valid() && Salvageable(c, w, gs) && w.net <= w'.net
    ensures Salvageable(c, w', gs)
  {
    hide OnItsWay, Promotable;
    if !Promotable(c.src, gs) {
      var k: nat :| ClosesAt(c, w, gs, k);
      forall off: nat | k <= off && Wanted(c, gs, off) ensures OnItsWay(c, w', off) { StillOnItsWay(c, w, w', off); }
      assert ClosesAt(c, w', gs, k);
    }
  }

  lemma OpeningFinishes(c: Config, w: World, off: nat)
    requires Running(c, w) && w.server.req.None? && OnItsWay(c, w, off) && Salvageable(c, w, OpenedBy(c.src, off))
    ensures Finishable(c, w)
  {
    var acts := Brings(c, w, off);
    var w1 := Run(c, w, acts);
    TrackedRun(c, w, acts);
    var a := ToServer(Data(off, c.src.Payload(off)));
    DataOpens(c, w1, off);
    var w2 := Step(c, w1, a);
    hide RunningTemp, Salvageable, Finishable, Quiet, Run, Step;
    QuietStep(c, w1, a);
    ClosesStill(c, w, w2, OpenedBy(c.src, off));
    SalvageFinishes(c, w2);
    QuietThen(c, w, acts, [a]);
    FinishableAfter(c, w, acts + [a]);
  }

  /** One half: what is recoverable can be finished. */
  lemma RecoverableFinishes(c: Config, w: World)
    requires Running(c, w) && Recoverable(c, w)
    ensures c.Valid() && Finishable(c, w)
  {
    hide Exact, TempExact, Salvageable, Finishable, Retransmitted;
    if w.server.req.None? {
      if Metadata(|c.src.bytes|) in w.net || NakMetadata in w.net {
        ReadyFinishes(c, w);
      } else {
        var off: nat :| OnItsWay(c, w, off) && Salvageable(c, w, OpenedBy(c.src, off));
        OpeningFinishes(c, w, off);
      }
    } else if w.server.req.value.file.Some? && !w.server.req.value.meta {
      SalvageFinishes(c, w);
    } else {
      ReadyWithExact(c, w);
      ReadyFinishes(c, w);
    }
  }

  // ----- beyond recovery

  /** Where a salvageable list comes from: a packet on its way leaves a list salvageable only if it was so before. */
  lemma SalvagedBefore(c: Config, w: World, f: File, off: nat)
    requires c.Valid() && TempExact(c.src, f.data, f.partial, f.gaps) && OnItsWay(c, w, off)
    requires Salvageable(c, w, ProcessData(f, off, c.src.Payload(off)).gaps)
    ensures Salvageable(c, w, f.gaps)
  {
    TempExactStep(c.src, f, off);
    DataStep(c.src, f, off);
    var e := c.src.End(off);
    if Receive(f.gaps, off, e).1 {
      EndIsBoundary(c.src, off);
      TakenBelow(c.src, f.gaps, off);
      var r := Receive(f.gaps, off, e).0;
      forall x: nat ensures Misses(r, x) <==> Misses(f.gaps, x) && !(off <= x < e) { CarveMisses(f.gaps, off, e, x); }
      hide ProcessData, Receive;
      if Promotable(c.src, r) {
        PromotableBefore(c, w, f.gaps, r, off);
      } else {
        var k: nat :| ClosesAt(c, w, r, k);
        ClosesBefore(c, w, f.gaps, r, off, k);
      }
    }
  }

  /** The only wanted segment in a packet's range is that packet's. */
  lemma OnlyThatWanted(c: Config, gs: seq<Interval>, r: seq<Interval>, off: nat, o: nat)
    requires c.Valid() && off < |c.src.bytes| && Aligned(off, c.src.seg)
    requires forall x: nat :: Misses(r, x) <==> Misses(gs, x) && !(off <= x < c.src.End(off))
    requires Wanted(c, gs, o)
    ensures o == off || Wanted(c, r, o)
  {
    if off < o { AlignedStep(off, o, c.src.seg); }
  }

  lemma ClosesBefore(c: Config, w: World, gs: seq<Interval>, r: seq<Interval>, off: nat, k: nat)
    requires c.Valid() && OnItsWay(c, w, off) && ClosesAt(c, w, r, k)
    requires forall x: nat :: Misses(r, x) <==> Misses(gs, x) && !(off <= x < c.src.End(off))
    ensures Salvageable(c, w, gs)
  {
    forall o: nat | k <= o && Wanted(c, gs, o) ensures OnItsWay(c, w, o) { OnlyThatWanted(c, gs, r, off, o); }
    assert ClosesAt(c, w, gs, k);
  }

  /** Two canonical lists of which one misses more: when the smaller reaches the end of the temporary file the last gap
      of the larger starts no later. */
  lemma LastGapGrows(gs: seq<Interval>, r: seq<Interval>, end: nat)
    requires Canonical(gs) && Canonical(r) && r != [] && r[|r| - 1].end == end
    requires (forall x: nat :: Misses(r, x) ==> Misses(gs, x)) && forall x: nat :: Misses(gs, x) ==> x < end
    ensures gs != [] && gs[|gs| - 1].end == end && gs[|gs| - 1].start <= r[|r| - 1].start
  {
    var last := r[|r| - 1];
    assert Misses(r, end - 1);
    EndsAt(gs, end);
    BeforeNotMissed(gs);
    assert forall x: nat :: last.start <= x < end ==> Misses(r, x);
  }

  lemma BeforeNotMissed(gs: seq<Interval>)
    requires Canonical(gs) && gs != []
    ensures gs[|gs| - 1].start > 0 ==> !Misses(gs, gs[|gs| - 1].start - 1)
  {
  }

  lemma PromotableBefore(c: Config, w: World, gs: seq<Interval>, r: seq<Interval>, off: nat)
    requires c.Valid() && OnItsWay(c, w, off) && Promotable(c.src, r)
    requires Canonical(gs) && Canonical(r) && TempEnds(c.src, gs) && TempEnds(c.src, r)
    requires forall x: nat :: Misses(r, x) <==> Misses(gs, x) && !(off <= x < c.src.End(off))
    ensures Salvageable(c, w, gs)
  {
    if r == [] {
      SomeMissed(r);
      AllWanted(c, w, gs, r, off, 0);
      assert ClosesAt(c, w, gs, 0);
    } else {
      var k := r[|r| - 1].end;
      EndNotMissed(r, |r| - 1);
      if k == TEMP_FILESIZE {
        LastGapGrows(gs, r, k);
      } else {
        assert Misses(r, k - 1);
        NoneBehind(r, k);
        AllWanted(c, w, gs, r, off, k);
        assert ClosesAt(c, w, gs, k);
      }
    }
  }

  lemma NoneBehind(r: seq<Interval>, k: nat)
    requires Canonical(r) && r != [] && r[|r| - 1].end == k
    ensures forall x: nat :: Misses(r, x) ==> x < k
  {
  }

  lemma AllWanted(c: Config, w: World, gs: seq<Interval>, r: seq<Interval>, off: nat, k: nat)
    requires c.Valid() && OnItsWay(c, w, off)
    requires forall x: nat :: Misses(r, x) <==> Misses(gs, x) && !(off <= x < c.src.End(off))
    requires forall x: nat :: Misses(r, x) ==> x < k
    ensures forall o: nat :: k <= o && Wanted(c, gs, o) ==> OnItsWay(c, w, o)
  {
    forall o: nat | k <= o && Wanted(c, gs, o) ensures OnItsWay(c, w, o) { OnlyThatWanted(c, gs, r, off, o); }
  }

  /** Nobody has claimed completion, and nothing that can still happen leads to a promotable file: the server has died,
      what is on its way cannot make it ask for metadata in time, its temporary file cannot be salvaged, or its file
      is doomed. */
  ghost predicate Hopeless(c: Config, w: World) {
    && Tracked(c, w) && w.sender.started && !Claimed(w)
    && (w.server.crashed || !Recoverable(c, w))
  }

  /** No step but the server's own NAKs brings anything onto its way that was not. */
  lemma NothingNewOnItsWay(c: Config, w: World, a: Action, off: nat)
    requires Tracked(c, w) && w.sender.started && OnItsWay(c, Step(c, w, a), off)
    requires a.Tick? && !w.server.crashed && w.server.req.Some? ==> !w.server.req.value.meta
    ensures OnItsWay(c, w, off)
  {
    assert c.Valid();
    hide Step, Retransmitted, Tracked;
    var w' := Step(c, w, a);
    if Data(off, c.src.Payload(off)) in w'.net {
      NewData(c, w, a, off);
    } else {
      var gs :| Nak(gs) in w'.net && off in Retransmitted(c.src, gs);
      NoNewNak(c, w, a, gs);
    }
  }

  lemma NewData(c: Config, w: World, a: Action, off: nat)
    requires Tracked(c, w) && w.sender.started && off < |c.src.bytes| && Aligned(off, c.src.seg)
    requires Data(off, c.src.Payload(off)) in Step(c, w, a).net
    ensures OnItsWay(c, w, off)
  {
    hide Retransmitted;
    if a.ToServer? { OnlyAcks(w.server, a.pdu); }
    if a.ToSender? && a.pdu.Nak? { DataFromNak(c.src, Retransmitted(c.src, a.pdu.segments), off); }
  }

  lemma NoNewNak(c: Config, w: World, a: Action, gs: seq<Interval>)
    requires Tracked(c, w) && w.sender.started && Nak(gs) in Step(c, w, a).net
    requires a.Tick? && !w.server.crashed && w.server.req.Some? ==> !w.server.req.value.meta
    ensures Nak(gs) in w.net
  {
    hide Retransmitted, TrackedRequest;
    if a.ToServer? { OnlyAcks(w.server, a.pdu); }
    if a.ToSender? && a.pdu.Nak? { OnlyData(c.src, Retransmitted(c.src, a.pdu.segments)); }
  }

  lemma {:induction false} DataFromNak(c: Source, offs: seq<nat>, off: nat)
    requires c.Valid() && off < |c.bytes|
    ensures Data(off, c.Payload(off)) in DataPdus(c, offs) ==> off in offs
    decreases |offs|
  {
    if offs != [] { DataFromNak(c, offs[1..], off); }
  }

  lemma SalvageShrinks(c: Config, w: World, w': World, gs: seq<Interval>)
    requires c.Valid() && Salvageable(c, w', gs)
    requires forall off: nat :: OnItsWay(c, w', off) ==> OnItsWay(c, w, off)
    ensures Salvageable(c, w, gs)
  {
    hide OnItsWay, Promotable;
    if !Promotable(c.src, gs) {
      var k: nat :| ClosesAt(c, w', gs, k);
      assert ClosesAt(c, w, gs, k);
    }
  }

  lemma OpeningShrinks(c: Config, w: World, w': World)
    requires c.Valid() && w.server.req.None? && w'.server.req.None? && Recoverable(c, w')
    requires forall off: nat :: OnItsWay(c, w', off) ==> OnItsWay(c, w, off)
    requires Metadata(|c.src.bytes|) in w'.net ==> Metadata(|c.src.bytes|) in w.net
    requires NakMetadata in w'.net ==> NakMetadata in w.net
    ensures Recoverable(c, w)
  {
    hide Retransmitted, Salvageable, ProcessData;
    if Metadata(|c.src.bytes|) !in w'.net && NakMetadata !in w'.net {
      var off: nat :| OnItsWay(c, w', off) && Salvageable(c, w', OpenedBy(c.src, off));
      SalvageShrinks(c, w, w', OpenedBy(c.src, off));
      assert OnItsWay(c, w, off);
    }
  }

  /** A step of a transfer the server knows nothing of. */
  lemma UnknownStep(c: Config, w: World, a: Action)
    requires Running(c, w) && w.server.req.None? && !Recoverable(c, w)
    ensures Hopeless(c, Step(c, w, a))
  {
    TrackedStep(c, w, a);
    var w' := Step(c, w, a);
    forall off: nat ensures OnItsWay(c, w', off) ==> OnItsWay(c, w, off) {
      if OnItsWay(c, w', off) { NothingNewOnItsWay(c, w, a, off); }
    }
    if a.ToServer? && a.pdu in w.net && ForServer(a.pdu) {
      UnknownOnPdu(c, w, a.pdu);
    } else {
      UnknownElsewhere(c, w, a);
      if Recoverable(c, w') { OpeningShrinks(c, w, w'); }
    }
  }

  lemma UnknownElsewhere(c: Config, w: World, a: Action)
    requires Running(c, w) && w.server.req.None? && NakMetadata !in w.net && Metadata(|c.src.bytes|) !in w.net
    requires !(a.ToServer? && a.pdu in w.net && ForServer(a.pdu))
    ensures var w' := Step(c, w, a);
      && w'.server == w.server && w'.sender == w.sender && !Claimed(w')
      && NakMetadata !in w'.net && Metadata(|c.src.bytes|) !in w'.net
  {
    if a.ToSender? && a.pdu in w.net && a.pdu.Nak? { OnlyData(c.src, Retransmitted(c.src, a.pdu.segments)); }
  }

  lemma UnknownOnPdu(c: Config, w: World, p: Pdu)
    requires Running(c, w) && w.server.req.None? && !Recoverable(c, w) && p in w.net && ForServer(p)
    ensures Hopeless(c, Step(c, w, ToServer(p)))
  {
    var a := ToServer(p);
    TrackedStep(c, w, a);
    assert GoodPdu(c.src, p);
    if p.Data? {
      var off: nat := p.offset;
      assert OnItsWay(c, w, off);
      DataOpens(c, w, off);
      var w' := Step(c, w, a);
      hide Retransmitted, ProcessData, Promotable, Tracked, Step;
      if Salvageable(c, w', OpenedBy(c.src, off)) {
        ClosesStill(c, w', w, OpenedBy(c.src, off));
      }
    }
  }

  /** A step of a transfer whose metadata has not arrived. */
  lemma TempStep(c: Config, w: World, a: Action)
    requires RunningTemp(c, w) && !Salvageable(c, w, FileOf(w).gaps)
    ensures Hopeless(c, Step(c, w, a))
  {
    TrackedStep(c, w, a);
    var w' := Step(c, w, a);
    forall off: nat ensures OnItsWay(c, w', off) ==> OnItsWay(c, w, off) {
      if OnItsWay(c, w', off) { NothingNewOnItsWay(c, w, a, off); }
    }
    if a.ToServer? && a.pdu in w.net && ForServer(a.pdu) {
      TempOnPdu(c, w, a.pdu);
    } else {
      TempElsewhere(c, w, a);
      hide Salvageable, OnItsWay, Step, Tracked;
      if Salvageable(c, w', FileOf(w).gaps) { SalvageShrinks(c, w, w', FileOf(w).gaps); }
    }
  }

  lemma TempElsewhere(c: Config, w: World, a: Action)
    requires RunningTemp(c, w) && !(a.ToServer? && a.pdu in w.net && ForServer(a.pdu))
    ensures var w' := Step(c, w, a); w'.server == w.server && w'.sender == w.sender && !Claimed(w')
  {
    hide Exact, TempExact, DoomedFile;
    if a.ToSender? && a.pdu in w.net { SenderIsGood(c.src, w.sender, a.pdu); }
  }

  lemma TempOnPdu(c: Config, w: World, p: Pdu)
    requires RunningTemp(c, w) && !Salvageable(c, w, FileOf(w).gaps) && p in w.net && ForServer(p)
    ensures Hopeless(c, Step(c, w, ToServer(p)))
  {
    var a := ToServer(p);
    var w' := Step(c, w, a);
    TrackedStep(c, w, a);
    assert GoodPdu(c.src, p);
    match p {
      case Metadata(_) =>
        PromotedDoomed(c, w);
        DoomedIsHopeless(c, w');
      case Data(_, _) =>
        TempOnData(c, w, p.offset);
      case Eof(_, _) =>
        hide Salvageable, Tracked;
        if Salvageable(c, w', FileOf(w).gaps) { ClosesStill(c, w', w, FileOf(w).gaps); }
      case _ =>
    }
  }

  lemma TempOnData(c: Config, w: World, off: nat)
    requires RunningTemp(c, w) && !Salvageable(c, w, FileOf(w).gaps) && off < |c.src.bytes| && Aligned(off, c.src.seg)
    requires Data(off, c.src.Payload(off)) in w.net
    ensures Hopeless(c, Step(c, w, ToServer(Data(off, c.src.Payload(off)))))
  {
    var a := ToServer(Data(off, c.src.Payload(off)));
    var w' := Step(c, w, a);
    TrackedStep(c, w, a);
    DataStepRun(c, w, a.pdu);
    assert OnItsWay(c, w, off);
    hide ProcessData, Promotable, OnItsWay, Tracked, Step;
    if Salvageable(c, w', FileOf(w').gaps) {
      ClosesStill(c, w', w, FileOf(w').gaps);
      SalvagedBefore(c, w, FileOf(w), off);
    }
  }

  lemma DoomedNotExact(c: Source, f: File)
    requires DoomedFile(c, f) && |c.bytes| > 0
    ensures !Exact(c, f.data, f.partial, f.gaps)
  {
    if Exact(c, f.data, f.partial, f.gaps) && f.gaps == [] { AgreesEverywhere(c, f.data); }
  }

  lemma DoomedIsHopeless(c: Config, w: World)
    requires Tracked(c, w) && Doomed(c, w)
    ensures Hopeless(c, w)
  {
    DoomedNotExact(c.src, FileOf(w));
    hide DoomedFile, Exact;
  }

  /** A dead server stays dead, and says nothing. */
  lemma DeadStep(c: Config, w: World, a: Action)
    requires Tracked(c, w) && w.sender.started && !Claimed(w) && w.server.crashed
    ensures Hopeless(c, Step(c, w, a))
  {
    TrackedStep(c, w, a);
    if a.ToSender? && a.pdu in w.net { SenderIsGood(c.src, w.sender, a.pdu); }
  }

  lemma HopelessStep(c: Config, w: World, a: Action)
    requires Hopeless(c, w)
    ensures var w' := Step(c, w, a); Hopeless(c, w') || (Claimed(w') && !Complete(c.src, w'.server))
  {
    if w.server.crashed {
      DeadStep(c, w, a);
    } else if w.server.req.None? {
      UnknownStep(c, w, a);
    } else if !w.server.req.value.meta {
      TempStep(c, w, a);
    } else {
      TrackedStep(c, w, a);
      DoomedWithoutExact(c, w);
      DoomedStep(c, w, a);
      hide Doomed, Recoverable, Tracked, Step;
      if Doomed(c, Step(c, w, a)) { DoomedIsHopeless(c, Step(c, w, a)); }
    }
  }

  /** The other half: no continuation without a false claim brings FINISHED to the sender. */
  lemma {:induction false} HopelessForever(c: Config, w: World, acts: seq<Action>)
    requires Hopeless(c, w) && AlwaysHonest(c, w, acts)
    ensures !Run(c, w, acts).sender.finished
    decreases |acts|
  {
    if acts != [] {
      HopelessStep(c, w, acts[0]);
      assert c.Valid();
      hide Hopeless, Step, Complete, Claimed;
      assert Honest(c, Step(c, w, acts[0]));
      HopelessForever(c, Step(c, w, acts[0]), acts[1..]);
    }
  }

  /** The exact condition of a state, in every run, for all sizes and whatever has been lost: the transfer can be
      finished exactly when the server is alive and the transfer recoverable. */
  lemma StateDecides(c: Config, acts: seq<Action>)
    requires c.Valid()
    requires var w := Run(c, InitialWorld, acts); w.sender.started && !Claimed(w)
    ensures var w := Run(c, InitialWorld, acts); Finishable(c, w) <==> !w.server.crashed && Recoverable(c, w)
  {
    var w := Run(c, InitialWorld, acts);
    ReachableIsTracked(c, acts);
    hide Tracked, Recoverable, Claimed;
    if !w.server.crashed && Recoverable(c, w) {
      RecoverableFinishes(c, w);
    } else if Finishable(c, w) {
      var more :| AlwaysHonest(c, w, more) && Run(c, w, more).sender.finished;
      HopelessForever(c, w, more);
    }
  }

  // ----- files that always promote

  lemma OpenedPromotes(c: Source, off: nat)
    requires c.Valid() && AlwaysPromotes(c) && off < |c.bytes| && Aligned(off, c.seg)
    ensures Promotable(c, OpenedBy(c, off))
  {
    FreshTempExact(c);
    TempExactStep(c, TempFile(TEMP_FILESIZE), off);
    var f := ProcessData(TempFile(TEMP_FILESIZE), off, c.Payload(off));
    AlwaysPromotable(c, f.data, f.partial, f.gaps);
  }

  lemma PromotingRecovers(c: Config, w: World)
    requires Running(c, w) && AlwaysPromotes(c.src)
    ensures Recoverable(c, w) <==> w.server.req.Some? || Reopens(c, w)
  {
    hide Exact, TempExact, DoomedFile, Promotable, AlwaysPromotes, Retransmitted, ProcessData;
    if w.server.req.Some? {
      if w.server.req.value.file.Some? && !w.server.req.value.meta {
        AlwaysPromotable(c.src, FileOf(w).data, FileOf(w).partial, FileOf(w).gaps);
      }
    } else {
      forall off: nat | OnItsWay(c, w, off) ensures Salvageable(c, w, OpenedBy(c.src, off)) {
        OpenedPromotes(c.src, off);
      }
    }
  }

  /** For such a file, in every run: whatever has been lost, the transfer can be finished exactly when the server is
      alive and knows of it, or something is on its way from which it can learn of it. */
  lemma LossExactly(c: Config, acts: seq<Action>)
    requires c.Valid() && AlwaysPromotes(c.src)
    requires var w := Run(c, InitialWorld, acts); w.sender.started && !Claimed(w)
    ensures var w := Run(c, InitialWorld, acts);
      Finishable(c, w) <==> !w.server.crashed && (w.server.req.Some? || Reopens(c, w))
  {
    var w := Run(c, InitialWorld, acts);
    ReachableIsTracked(c, acts);
    StateDecides(c, acts);
    hide Finishable, Recoverable, Reopens, Run, Tracked, Claimed, AlwaysPromotes;
    if !w.server.crashed { PromotingRecovers(c, w); }
  }

  // ----- a network that has lost everything

  /** When the network has lost everything before the server learnt of the transfer, nothing ever happens again: the
      sender sends nothing unasked. */
  lemma {:induction false} NothingRecovers(c: Config, w: World, acts: seq<Action>)
    requires c.Valid() && w.sender.started && w.net == {} && w.server.req.None?
    ensures Run(c, w, acts) == w
    decreases |acts|
  {
    if acts != [] {
      assert Step(c, w, acts[0]) == w by { assert Elements([]) == {}; }
      NothingRecovers(c, w, acts[1..]);
    }
  }

  /** FINISHED has been sent as often as it ever is, or cannot be sent any more, and nothing is on its way. */
  predicate Untold(w: World) {
    && w.sender.started && !w.sender.finished && w.net == {}
    && (w.server.crashed || w.server.req.None? ||
          (w.server.req.value.finished && w.server.req.value.resentFinished == RESEND_FINISHED_TIMES))
  }

  lemma UntoldStep(c: Config, w: World, a: Action)
    requires c.Valid() && Untold(w)
    ensures Untold(Step(c, w, a))
  {
    assert Elements([]) == {};
  }

  /** A FINISHED that got lost is not repeated: the sender never learns of the end. */
  lemma {:induction false} FinishedLostForGood(c: Config, w: World, acts: seq<Action>)
    requires c.Valid() && Untold(w)
    ensures !Run(c, w, acts).sender.finished
    decreases |acts|
  {
    if acts != [] {
      UntoldStep(c, w, acts[0]);
      hide Untold, Step;
      FinishedLostForGood(c, Step(c, w, acts[0]), acts[1..]);
    }
  }

  /** FINISHED can still be sent, or has arrived. */
  lemma TickTells(c: Config, w: World)
    requires Tracked(c, w) && w.sender.started && !w.server.crashed && w.server.req.Some?
    requires w.server.req.value.finished && w.server.req.value.resentFinished != RESEND_FINISHED_TIMES
    ensures Run(c, w, [Tick, ToSender(Finished)]).sender.finished
  {
    hide Exact, TempExact, DoomedFile;
    RunTwo(c, w, Tick, ToSender(Finished));
    assert Finished in OnTick(w.server, c.max).1;
  }

  /** Some continuation brings FINISHED to the sender, be it true or not. */
  ghost predicate Learns(c: Config, w: World)
    requires c.Valid()
  {
    exists more :: Run(c, w, more).sender.finished
  }

  lemma LearnsBy(c: Config, w: World, more: seq<Action>)
    requires c.Valid() && Run(c, w, more).sender.finished
    ensures Learns(c, w)
  {
  }

  /** Exactly when the sender can still learn of the end although everything on its way has been lost. */
  lemma SilentExactly(c: Config, acts: seq<Action>)
    requires c.Valid() && AlwaysPromotes(c.src)
    requires var w := Run(c, InitialWorld, acts); w.sender.started && w.net == {}
    ensures var w := Run(c, InitialWorld, acts); Learns(c, w) <==> !Untold(w)
  {
    var w := Run(c, InitialWorld, acts);
    ReachableIsTracked(c, acts);
    QuietNothing(c, w);
    hide Run, Tracked, Learns, Claimed, AlwaysPromotes;
    if Untold(w) {
      NeverLearns(c, w);
    } else if w.sender.finished {
      LearnsBy(c, w, []);
    } else if w.server.req.value.finished {
      TickTells(c, w);
      LearnsBy(c, w, [Tick, ToSender(Finished)]);
    } else {
      ReachableIsReady(c, acts);
      var more := CanFinish(c, w);
      LearnsBy(c, w, more);
    }
  }

  lemma NeverLearns(c: Config, w: World)
    requires c.Valid() && Untold(w)
    ensures !Learns(c, w)
  {
    forall more ensures !Run(c, w, more).sender.finished { FinishedLostForGood(c, w, more); }
  }
}
