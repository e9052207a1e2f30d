/** Runs that finish, and when there is one. */
module Progress {
  import opened Options
  import opened Bytes
  import opened Intervals
  import opened Checksum
  import opened Segments
  import opened Receiver
  import opened FileLemmas
  import opened TempLemmas
  import opened Delivery
  import opened Protocol
  import opened Safety

  // ----- building runs

  function Deliveries(c: Source, offs: seq<nat>): (acts: seq<Action>)
    requires c.Valid() && AllOnGrid(c, offs)
    ensures |acts| == |offs|
  {
    if offs == [] then [] else [ToServer(Data(offs[0], c.Payload(offs[0])))] + Deliveries(c, offs[1..])
  }

  /** The world with `f` as the live request's file. */
  function WithFile(w: World, f: File): World
    requires w.server.req.Some?
  {
    w.(server := w.server.(req := Some(w.server.req.value.(file := Some(f)))))
  }

  predicate Holds(w: World) {
    !w.server.crashed && w.server.req.Some? && w.server.req.value.file.Some?
  }

  predicate Sent(c: Source, w: World, offs: seq<nat>)
    requires c.Valid() && AllOnGrid(c, offs)
  {
    forall i :: 0 <= i < |offs| ==> Data(offs[i], c.Payload(offs[i])) in w.net
  }

  /** Delivering data packets in a run is delivering them to the file. */
  lemma {:induction false} DeliveryRun(c: Config, w: World, offs: seq<nat>)
    requires c.Valid() && AllOnGrid(c.src, offs) && Holds(w) && Sent(c.src, w, offs)
    ensures Run(c, w, Deliveries(c.src, offs)) ==
      WithFile(w, DeliverAll(c.src, w.server.req.value.file.value, offs))
    decreases |offs|
  {
    var f := w.server.req.value.file.value;
    if offs == [] {
      assert WithFile(w, f) == w;
    } else {
      var p := Data(offs[0], c.src.Payload(offs[0]));
      var w1 := WithFile(w, ProcessData(f, p.offset, p.payload));
      var acts := Deliveries(c.src, offs);
      assert acts[0] == ToServer(p) && acts[1..] == Deliveries(c.src, offs[1..]);
      DataStepRun(c, w, p);
      hide Step;
      assert Sent(c.src, w1, offs[1..]);
      DeliveryRun(c, w1, offs[1..]);
    }
  }

  lemma DataStepRun(c: Config, w: World, p: Pdu)
    requires c.Valid() && Holds(w) && p.Data? && p in w.net
    ensures Step(c, w, ToServer(p)) ==
      WithFile(w, ProcessData(w.server.req.value.file.value, p.offset, p.payload))
  {
    assert w.net + Elements([]) == w.net;
  }

  lemma {:induction false} BurstHas(c: Source, off: nat, o: nat)
    requires c.Valid() && Aligned(off, c.seg) && Aligned(o, c.seg) && off <= o < |c.bytes|
    ensures Data(o, c.Payload(o)) in BurstFrom(c, off)
    decreases |c.bytes| + c.seg - off
  {
    if off < o {
      AlignedStep(off, o, c.seg);
      assert Aligned(off + c.seg, c.seg);
      BurstHas(c, off + c.seg, o);
    }
  }

  lemma {:induction false} DataPdusHave(c: Source, offs: seq<nat>, i: nat)
    requires c.Valid() && AllOnGrid(c, offs) && i < |offs|
    ensures Data(offs[i], c.Payload(offs[i])) in DataPdus(c, offs)
    decreases |offs|
  {
    if i > 0 { DataPdusHave(c, offs[1..], i - 1); }
  }

  // ----- what holds in every run, whatever the sizes

  /** The files of which any exact temporary file can be promoted: longer than it, on a grid that avoids its size, or
      as long as it, with checksums only in the first segment. */
  ghost predicate AlwaysPromotes(c: Source)
    requires c.Valid()
  {
    || (|c.bytes| > TEMP_FILESIZE && !Aligned(TEMP_FILESIZE, c.seg))
    || (|c.bytes| == TEMP_FILESIZE && SilentTail(c))
  }

  /** No segment but the first contributes to the checksum. */
  ghost predicate SilentTail(c: Source)
    requires c.Valid()
  {
    forall off: nat :: c.seg <= off < |c.bytes| && Aligned(off, c.seg) ==> CheckSum(c.Payload(off)) == 0
  }

  lemma {:induction false} SilentSum(c: Source, off: nat, end: nat)
    requires c.Valid() && SilentTail(c) && c.seg <= off && Aligned(off, c.seg)
    ensures SumTo(c, off, end) == 0
    decreases end + c.seg - off
  {
    hide CheckSum;
    if off < end && off < |c.bytes| { SilentSum(c, off + c.seg, end); }
  }

  lemma AlwaysPromotable(c: Source, data: seq<byte>, partial: uint32, gs: seq<Interval>)
    requires TempExact(c, data, partial, gs) && AlwaysPromotes(c)
    ensures Promotable(c, gs)
  {
    hide CheckSum;
    if gs != [] {
      var last := gs[|gs| - 1];
      if last.end < TEMP_FILESIZE {
        AlignedStep(0, last.end, c.seg);
        SilentSum(c, last.end, TEMP_FILESIZE);
      }
    }
  }

  /** A temporary file is exact; a promoted one is exact or doomed, and always exact when promotion never costs
      anything. A stored EOF checksum is the sender's. */
  ghost predicate TrackedRequest(c: Source, r: Request)
    requires c.Valid()
  {
    && !r.paused
    && (r.meta ==>
          r.fileSize == |c.bytes| && r.file.Some? && r.file.value.atDest && StartsOnGrid(c, r.file.value.gaps) &&
          (Exact(c, r.file.value.data, r.file.value.partial, r.file.value.gaps) ||
             (DoomedFile(c, r.file.value) && !AlwaysPromotes(c))))
    && (!r.meta && r.file.Some? ==>
          r.file.value.isTemp && !r.file.value.atDest &&
          TempExact(c, r.file.value.data, r.file.value.partial, r.file.value.gaps))
    && (r.eof ==> r.file.Some? && r.file.value.eofSum == SumFrom(c, 0))
    && (r.cleanUp ==> r.finished) && (!r.finished ==> r.resentFinished == 0)
  }

  ghost predicate Tracked(c: Config, w: World) {
    && c.Valid() && GoodNet(c.src, w)
    && (w.server.req.Some? ==> TrackedRequest(c.src, w.server.req.value))
  }

  lemma TrackedOnData(c: Source, r: Request, p: Pdu)
    requires c.Valid() && TrackedRequest(c, r) && p.Data? && GoodPdu(c, p)
    ensures TrackedRequest(c, ProcessDataPdu(r, p.offset, p.payload))
  {
    hide Exact, TempExact, Receive, AlwaysPromotes, DoomedFile;
    if r.meta {
      DataStep(c, r.file.value, p.offset);
      StartsStayOnGrid(c, r.file.value.gaps, p.offset);
      if Exact(c, r.file.value.data, r.file.value.partial, r.file.value.gaps) {
        ExactStep(c, r.file.value, p.offset);
      } else {
        DoomedOnData(c, r.file.value, p.offset);
      }
    } else if r.file.Some? {
      TempExactStep(c, r.file.value, p.offset);
    } else {
      FreshTempExact(c);
      TempExactStep(c, TempFile(TEMP_FILESIZE), p.offset);
    }
  }

  lemma FreshFile(c: Source)
    requires c.Valid() && |c.bytes| > 0
    ensures var f := AddFirstOffset(EmptyFile, |c.bytes|);
      f.gaps == [Interval(0, |c.bytes|)] && StartsOnGrid(c, f.gaps) && Exact(c, f.data, f.partial, f.gaps)
  {
    FreshFileExact(c);
    assert AddFirstOffset(EmptyFile, |c.bytes|).gaps == [Interval(0, |c.bytes|)];
  }

  lemma PromotedStarts(c: Source, f: File)
    requires TempExact(c, f.data, f.partial, f.gaps)
    ensures StartsOnGrid(c, ChangeTempToActual(f, |c.bytes|).gaps)
  {
    var r := ChangeTempToActual(f, |c.bytes|).gaps;
    forall i | 0 <= i < |r| ensures r[i].start <= |c.bytes| && Boundary(c, r[i].start) {
      assert r[i].start == f.gaps[i].start;
    }
  }

  lemma TrackedOnMetadata(c: Source, r: Request)
    requires c.Valid() && |c.bytes| > 0 && TrackedRequest(c, r) && !r.meta
    ensures TrackedRequest(c, ProcessMetadata(r, |c.bytes|))
  {
    hide Exact, TempExact, AlwaysPromotes, StartsOnGrid, DoomedFile, Promotable;
    if r.file.Some? {
      var f := r.file.value;
      PromotedStarts(c, f);
      PromotionExact(c, f);
      if Promotable(c, f.gaps) {
      } else {
        PromotionDooms(c, f);
        if AlwaysPromotes(c) { AlwaysPromotable(c, f.data, f.partial, f.gaps); }
      }
    } else {
      FreshFile(c);
    }
  }

  lemma TrackedOnPdu(c: Source, r: Request, p: Pdu)
    requires c.Valid() && |c.bytes| > 0 && TrackedRequest(c, r) && GoodPdu(c, p)
    ensures OnPdu(r, p).Live? ==> TrackedRequest(c, OnPdu(r, p).req)
    ensures OnPdu(r, p).Live? ==> forall q :: q in OnPdu(r, p).sent ==> q == AckMetadata
  {
    hide Exact, TempExact, AlwaysPromotes, DoomedFile;
    match p
    case Data(_, _) => TrackedOnData(c, r, p);
    case Metadata(_) => if !r.meta { TrackedOnMetadata(c, r); }
    case Eof(size, sum) => if r.meta && DoomedFile(c, r.file.value) { SameDoom(c, r.file.value, sum, size); }
    case _ =>
  }

  lemma TrackedOnTimeOut(c: Source, r: Request, max: nat)
    requires c.Valid() && |c.bytes| > 0 && TrackedRequest(c, r)
    ensures TrackedRequest(c, OnTimeOut(r, max).0)
    ensures forall q :: q in OnTimeOut(r, max).1 ==> GoodPdu(c, q)
  {
    hide Exact, TempExact, AlwaysPromotes, DoomedFile;
  }

  /** Every reachable temporary file is exact, for all sizes and in every run, and every other file too when promotion
      never costs anything. */
  lemma TrackedStep(c: Config, w: World, a: Action)
    requires Tracked(c, w)
    ensures Tracked(c, Step(c, w, a))
  {
    hide TrackedRequest;
    match a
    case Start =>
      BurstIsGood(c.src, 0);
    case ToSender(p) =>
      if p in w.net { SenderIsGood(c.src, w.sender, p); }
    case ToServer(p) =>
      if p in w.net && !w.server.crashed {
        FreshRequestTracked(c.src);
        TrackedOnPdu(c.src, OpenRequest(w.server), p);
      }
    case Tick =>
      if !w.server.crashed && w.server.req.Some? { TrackedOnTimeOut(c.src, w.server.req.value, c.max); }
    case Lose(_) =>
  }

  lemma FreshRequestTracked(c: Source)
    requires c.Valid()
    ensures TrackedRequest(c, NewRequest)
  {
  }

  lemma {:induction false} TrackedRun(c: Config, w: World, acts: seq<Action>)
    requires Tracked(c, w)
    ensures Tracked(c, Run(c, w, acts))
    decreases |acts|
  {
    if acts != [] {
      TrackedStep(c, w, acts[0]);
      hide Tracked;
      TrackedRun(c, Step(c, w, acts[0]), acts[1..]);
    }
  }

  lemma ReachableIsTracked(c: Config, acts: seq<Action>)
    requires c.Valid()
    ensures Tracked(c, Run(c, InitialWorld, acts))
  {
    TrackedRun(c, InitialWorld, acts);
  }

  // ----- a run that finishes

  /** The server has the metadata, and is still collecting data into an exact file. */
  ghost predicate Collecting(c: Config, w: World) {
    && c.Valid() && w.sender.started && w.sender.partial == SumFrom(c.src, 0)
    && !w.server.crashed && w.server.req.Some? && CollectingRequest(c.src, w.server.req.value)
  }

  ghost predicate CollectingRequest(c: Source, r: Request)
    requires c.Valid()
  {
    && r.meta && !r.finished && !r.paused && !r.cleanUp && r.resentFinished == 0
    && r.fileSize == |c.bytes| && r.file.Some? && r.file.value.atDest
    && Exact(c, r.file.value.data, r.file.value.partial, r.file.value.gaps)
    && (r.eof ==> r.file.value.eofSum == SumFrom(c, 0))
  }

  function FileOf(w: World): File
    requires w.server.req.Some? && w.server.req.value.file.Some?
  {
    w.server.req.value.file.value
  }

  function Ticks(acts: seq<Action>): nat {
    if acts == [] then 0 else (if acts[0].Tick? then 1 else 0) + Ticks(acts[1..])
  }

  lemma {:induction false} TicksConcat(a: seq<Action>, b: seq<Action>)
    ensures Ticks(a + b) == Ticks(a) + Ticks(b)
  {
    if a == [] {
      assert a + b == b;
    } else {
      assert (a + b)[0] == a[0] && (a + b)[1..] == a[1..] + b;
      TicksConcat(a[1..], b);
    }
  }

  /** Starts and deliveries only. */
  predicate Untimed(acts: seq<Action>) {
    forall i :: 0 <= i < |acts| ==> !acts[i].Tick? && !acts[i].Lose?
  }

  lemma {:induction false} DeliveriesUntimed(c: Source, offs: seq<nat>)
    requires c.Valid() && AllOnGrid(c, offs)
    ensures Ticks(Deliveries(c, offs)) == 0 && Untimed(Deliveries(c, offs))
  {
    if offs != [] { DeliveriesUntimed(c, offs[1..]); }
  }

  lemma RunTwo(c: Config, w: World, a: Action, b: Action)
    requires c.Valid()
    ensures Run(c, w, [a, b]) == Step(c, Step(c, w, a), b)
  {
    hide Step;
    assert [a, b][1..] == [b] && [b][1..] == [];
    assert Run(c, Step(c, w, a), [b]) == Run(c, Step(c, Step(c, w, a), b), []);
  }

  /** A time-out with gaps left asks for the first of them. */
  lemma TickAsks(c: Config, w: World)
    requires Collecting(c, w) && FileOf(w).gaps != []
    ensures var w1 := Step(c, w, Tick);
      && Nak(Requested(FileOf(w).gaps, c.max)) in w1.net
      && Collecting(c, w1) && FileOf(w1) == FileOf(w) && w1.sender == w.sender
      && w1.server.req.value.eof == w.server.req.value.eof && (Claimed(w1) ==> Claimed(w))
  {
    hide Exact;
    var t := OnTick(w.server, c.max);
    assert Nak(Requested(FileOf(w).gaps, c.max)) in t.1;
  }

  lemma {:induction false} OnlyData(c: Source, offs: seq<nat>)
    requires c.Valid()
    ensures forall p :: p in DataPdus(c, offs) ==> p.Data?
  {
    if offs != [] { OnlyData(c, offs[1..]); }
  }

  /** The sender answers with every packet of the gaps asked for. */
  lemma NakExchange(c: Config, w: World)
    requires Collecting(c, w) && FileOf(w).gaps != []
    ensures var req := Requested(FileOf(w).gaps, c.max);
      var offs := Retransmitted(c.src, req);
      var w' := Run(c, w, [Tick, ToSender(Nak(req))]);
      && AllOnGrid(c.src, offs) && Sent(c.src, w', offs) && Collecting(c, w') && FileOf(w') == FileOf(w)
      && w'.server.req.value.eof == w.server.req.value.eof && (Claimed(w') ==> Claimed(w))
      && (!Claimed(w) ==> AlwaysHonest(c, w, [Tick, ToSender(Nak(req))]))
  {
    TickAsks(c, w);
    var gs := FileOf(w).gaps;
    var req := Requested(gs, c.max);
    var offs := Retransmitted(c.src, req);
    GapsFilled(c.src, FileOf(w), Min(|gs|, c.max));
    RunTwo(c, w, Tick, ToSender(Nak(req)));
    HonestTwo(c, w, Tick, ToSender(Nak(req)));
    var w1 := Step(c, w, Tick);
    hide Exact, OnTick, Run, AlwaysHonest, Step, Collecting, Claimed, Sent;
    NakAnswered(c, w1, req);
  }

  /** A NAK's arrival only adds the requested packets to the network. */
  lemma NakAnswered(c: Config, w: World, req: seq<Interval>)
    requires Collecting(c, w) && Nak(req) in w.net
    ensures var w' := Step(c, w, ToSender(Nak(req)));
      && Collecting(c, w') && FileOf(w') == FileOf(w) && w'.server == w.server && (Claimed(w') ==> Claimed(w))
      && (AllOnGrid(c.src, Retransmitted(c.src, req)) ==> Sent(c.src, w', Retransmitted(c.src, req)))
  {
    hide CollectingRequest;
    var offs := Retransmitted(c.src, req);
    OnlyData(c.src, offs);
    if AllOnGrid(c.src, offs) {
      forall i | 0 <= i < |offs| ensures Data(offs[i], c.src.Payload(offs[i])) in Step(c, w, ToSender(Nak(req))).net {
        DataPdusHave(c.src, offs, i);
      }
    }
  }

  // ----- honesty along runs

  lemma HonestTwo(c: Config, w: World, a: Action, b: Action)
    requires c.Valid()
    ensures AlwaysHonest(c, w, [a, b]) <==>
      Honest(c, w) && Honest(c, Step(c, w, a)) && Honest(c, Step(c, Step(c, w, a), b))
  {
    hide Step, Honest;
    assert [a, b][1..] == [b] && [b][1..] == [];
    assert AlwaysHonest(c, Step(c, w, a), [b]) <==>
      Honest(c, Step(c, w, a)) && AlwaysHonest(c, Step(c, Step(c, w, a), b), []);
  }

  lemma {:induction false} HonestConcat(c: Config, w: World, a: seq<Action>, b: seq<Action>)
    requires c.Valid() && AlwaysHonest(c, w, a) && AlwaysHonest(c, Run(c, w, a), b)
    ensures AlwaysHonest(c, w, a + b)
    decreases |a|
  {
    hide Step, Honest;
    if a == [] {
      assert a + b == b;
    } else {
      assert (a + b)[0] == a[0] && (a + b)[1..] == a[1..] + b;
      HonestConcat(c, Step(c, w, a[0]), a[1..], b);
    }
  }

  /** Without time-outs and losses claims are neither made nor forgotten: a run that ends unclaimed was honest all
      along. */
  lemma {:induction false} QuietRun(c: Config, w: World, acts: seq<Action>)
    requires c.Valid() && Untimed(acts) && !Claimed(Run(c, w, acts))
    requires w.sender.finished || w.net != {} ==> w.sender.started
    ensures !Claimed(w) && AlwaysHonest(c, w, acts) && NeverUndoes(c, w, acts)
    decreases |acts|
  {
    if acts != [] {
      var w1 := Step(c, w, acts[0]);
      ClaimsStay(c, w, acts[0]);
      QuietRun(c, w1, acts[1..]);
    }
  }

  lemma ClaimsStay(c: Config, w: World, a: Action)
    requires c.Valid() && !a.Tick? && !a.Lose? && (w.sender.finished || w.net != {} ==> w.sender.started)
    ensures Claimed(w) ==> Claimed(Step(c, w, a))
    ensures var w' := Step(c, w, a); w'.sender.finished || w'.net != {} ==> w'.sender.started
  {
    match a
    case ToServer(p) => StaysFinished(OpenRequest(w.server), p);
    case _ =>
  }

  lemma StaysFinished(r: Request, p: Pdu)
    ensures OnPdu(r, p).Live? && r.finished ==> OnPdu(r, p).req.finished
  {
  }

  /** Deliveries of data claim nothing. */
  lemma DeliveriesHonest(c: Config, w: World, offs: seq<nat>)
    requires c.Valid() && AllOnGrid(c.src, offs) && Holds(w) && Sent(c.src, w, offs) && !Claimed(w)
    requires w.sender.started
    ensures AlwaysHonest(c, w, Deliveries(c.src, offs)) && !Claimed(Run(c, w, Deliveries(c.src, offs)))
  {
    DeliveryRun(c, w, offs);
    DeliveriesUntimed(c.src, offs);
    QuietRun(c, w, Deliveries(c.src, offs));
  }

  /** One round in the protocol closes exactly the requested gaps. */
  lemma RoundRun(c: Config, w: World) returns (acts: seq<Action>)
    requires Collecting(c, w) && FileOf(w).gaps != []
    ensures var w' := Run(c, w, acts);
      && Collecting(c, w') && Ticks(acts) == 1
      && FileOf(w').gaps == FileOf(w).gaps[Min(|FileOf(w).gaps|, c.max)..]
      && w'.server.req.value.eof == w.server.req.value.eof
      && (!Claimed(w) ==> !Claimed(w') && AlwaysHonest(c, w, acts))
  {
    NakExchange(c, w);
    var gs := FileOf(w).gaps;
    var req := Requested(gs, c.max);
    var offs := Retransmitted(c.src, req);
    var first := [Tick, ToSender(Nak(req))];
    var w1 := Run(c, w, first);
    GapsFilled(c.src, FileOf(w), Min(|gs|, c.max));
    hide Exact, AlwaysHonest, Claimed;
    acts := first + Deliveries(c.src, offs);
    RunConcat(c, w, first, Deliveries(c.src, offs));
    DeliveryRun(c, w1, offs);
    DeliverKeepsRest(c.src, FileOf(w), offs);
    TicksConcat(first, Deliveries(c.src, offs));
    DeliveriesUntimed(c.src, offs);
    assert first[1..] == [ToSender(Nak(req))] && first[1..][1..] == [];
    if !Claimed(w) {
      DeliveriesHonest(c, w1, offs);
      HonestConcat(c, w, first, Deliveries(c.src, offs));
    }
  }

  /** With EOF in and nothing missing the completion test must succeed: the next time-out sends FINISHED. */
  lemma LastTick(c: Config, w: World)
    requires Collecting(c, w) && w.server.req.value.eof && FileOf(w).gaps == []
    ensures var w' := Run(c, w, [Tick, ToSender(Finished)]);
      w'.sender.finished && DestFile(w'.server) == Some(c.src.bytes)
    ensures AlwaysHonest(c, w, [Tick, ToSender(Finished)])
  {
    ExactAndEmptyIsComplete(c.src, FileOf(w).data, FileOf(w).partial);
    hide Exact;
    var t := OnTick(w.server, c.max);
    assert Finished in t.1 && t.0.req.Some?;
    RunTwo(c, w, Tick, ToSender(Finished));
    HonestTwo(c, w, Tick, ToSender(Finished));
  }

  /** From there the transfer can be brought to its end, with one time-out for every `max` gaps and one more. */
  lemma {:induction false} CollectAll(c: Config, w: World) returns (acts: seq<Action>)
    requires Collecting(c, w) && w.server.req.value.eof
    ensures var w' := Run(c, w, acts);
      && w'.sender.finished && DestFile(w'.server) == Some(c.src.bytes)
      && Ticks(acts) == Ceiling(|FileOf(w).gaps|, c.max) + 1
    ensures !Claimed(w) ==> AlwaysHonest(c, w, acts)
    decreases |FileOf(w).gaps|
  {
    hide Exact, Claimed, AlwaysHonest, Ceiling;
    CeilingStep(|FileOf(w).gaps|, c.max);
    if FileOf(w).gaps == [] {
      LastTick(c, w);
      acts := [Tick, ToSender(Finished)];
      assert acts[1..] == [ToSender(Finished)] && acts[1..][1..] == [];
    } else {
      var round := RoundRun(c, w);
      var rest := CollectAll(c, Run(c, w, round));
      acts := round + rest;
      RunConcat(c, w, round, rest);
      TicksConcat(round, rest);
      if !Claimed(w) { HonestConcat(c, w, round, rest); }
    }
  }

  // ----- what has been lost is asked for

  /** If nobody has claimed completion yet, nobody does in this run. */
  ghost predicate Quiet(c: Config, w: World, acts: seq<Action>)
    requires c.Valid()
  {
    !Claimed(w) ==> AlwaysHonest(c, w, acts) && !Claimed(Run(c, w, acts))
  }

  lemma QuietStep(c: Config, w: World, a: Action)
    requires c.Valid() && (Claimed(Step(c, w, a)) ==> Claimed(w))
    ensures Run(c, w, [a]) == Step(c, w, a) && Quiet(c, w, [a])
    ensures Ticks([a]) == if a.Tick? then 1 else 0
  {
    hide Step, Claimed;
    assert [a][1..] == [];
    assert AlwaysHonest(c, Step(c, w, a), []) <==> Honest(c, Step(c, w, a));
  }

  lemma QuietNothing(c: Config, w: World)
    requires c.Valid()
    ensures Run(c, w, []) == w && Quiet(c, w, []) && Ticks([]) == 0
  {
  }

  lemma QuietThen(c: Config, w: World, a: seq<Action>, b: seq<Action>)
    requires c.Valid() && Quiet(c, w, a)
    ensures Run(c, w, a + b) == Run(c, Run(c, w, a), b) && Ticks(a + b) == Ticks(a) + Ticks(b)
    ensures Quiet(c, Run(c, w, a), b) ==> Quiet(c, w, a + b)
    ensures !Claimed(w) && AlwaysHonest(c, Run(c, w, a), b) ==> AlwaysHonest(c, w, a + b)
  {
    RunConcat(c, w, a, b);
    TicksConcat(a, b);
    hide AlwaysHonest, Claimed;
    if !Claimed(w) && AlwaysHonest(c, Run(c, w, a), b) { HonestConcat(c, w, a, b); }
  }

  /** The server can still make an exact file of what it has: nothing yet, a promotable temporary file, or a file
      that is exact already. When it knows nothing of the transaction some metadata, or a request for it, must be on
      its way. */
  ghost predicate Ready(c: Config, w: World) {
    && c.Valid() && w.sender.started && w.sender.partial == SumFrom(c.src, 0) && !w.server.crashed
    && if w.server.req.Some? then ReadyRequest(c.src, w.server.req.value)
       else Metadata(|c.src.bytes|) in w.net || NakMetadata in w.net
  }

  ghost predicate ReadyRequest(c: Source, r: Request)
    requires c.Valid()
  {
    if r.meta then CollectingRequest(c, r)
    else
      && !r.finished && !r.paused && !r.cleanUp && r.resentFinished == 0
      && (r.eof ==> r.file.Some? && r.file.value.eofSum == SumFrom(c, 0))
      && (r.file.Some? ==>
            var f := r.file.value;
            f.isTemp && TempExact(c, f.data, f.partial, f.gaps) && Promotable(c, f.gaps))
  }

  predicate HasMeta(w: World) {
    w.server.req.Some? && w.server.req.value.meta
  }

  predicate HasEof(w: World) {
    w.server.req.Some? && w.server.req.value.eof
  }

  /** How many gaps the server will have to ask for. */
  function GapsLeft(w: World): nat {
    if w.server.req.Some? && w.server.req.value.file.Some? then |w.server.req.value.file.value.gaps| else 1
  }

  /** How many time-outs it takes to ask for metadata that is neither there nor on its way. */
  function AsksMetadata(c: Config, w: World): nat {
    if w.server.req.None? || HasMeta(w) || Metadata(|c.src.bytes|) in w.net then 0 else 1
  }

  function AsksEof(c: Config, w: World): nat
    requires c.Valid()
  {
    if HasEof(w) || Eof(|c.src.bytes|, SumFrom(c.src, 0)) in w.net then 0 else 1
  }

  /** Metadata that arrives turns whatever the server has into a file it can collect. */
  lemma MetadataArrives(c: Config, w: World)
    requires Ready(c, w) && Metadata(|c.src.bytes|) in w.net
    ensures var w' := Step(c, w, ToServer(Metadata(|c.src.bytes|)));
      && Collecting(c, w') && |FileOf(w').gaps| == GapsLeft(w) && (HasEof(w') <==> HasEof(w))
      && w'.net == w.net + Elements(OnServerPdu(w.server, Metadata(|c.src.bytes|)).1)
      && (forall p :: p in w'.net && p !in w.net ==> p == AckMetadata) && (Claimed(w') ==> Claimed(w))
  {
    hide Exact, TempExact, Promotable, SumFrom;
    var r := OpenRequest(w.server);
    if !r.meta {
      if r.file.Some? { PromotionExact(c.src, r.file.value); } else { FreshFile(c.src); }
    }
  }

  /** Without metadata a time-out asks for it. */
  lemma AsksForMetadata(c: Config, w: World)
    requires Ready(c, w) && w.server.req.Some? && !HasMeta(w)
    ensures var w' := Step(c, w, Tick);
      Ready(c, w') && w' == w.(net := w.net + {NakMetadata}) && (Claimed(w') ==> Claimed(w))
  {
    hide Exact, TempExact, Promotable, SumFrom;
    assert Elements([NakMetadata]) == {NakMetadata};
  }

  /** And the sender repeats it. */
  lemma MetadataAgain(c: Config, w: World)
    requires Ready(c, w) && NakMetadata in w.net
    ensures var w' := Step(c, w, ToSender(NakMetadata));
      Ready(c, w') && w' == w.(net := w.net + {Metadata(|c.src.bytes|)}) && (Claimed(w') ==> Claimed(w))
  {
    hide ReadyRequest, SumFrom;
    assert Elements([Metadata(|c.src.bytes|)]) == {Metadata(|c.src.bytes|)};
  }

  /** Whatever has been lost, the server gets the metadata. */
  lemma GetsMetadata(c: Config, w: World) returns (acts: seq<Action>)
    requires Ready(c, w)
    ensures var w' := Run(c, w, acts);
      && Collecting(c, w') && |FileOf(w').gaps| == GapsLeft(w) && (HasEof(w') <==> HasEof(w)) && w.net <= w'.net
      && (Eof(|c.src.bytes|, SumFrom(c.src, 0)) in w'.net <==> Eof(|c.src.bytes|, SumFrom(c.src, 0)) in w.net)
      && Quiet(c, w, acts) && Ticks(acts) == AsksMetadata(c, w)
  {
    var meta := ToServer(Metadata(|c.src.bytes|));
    if HasMeta(w) {
      acts := [];
      QuietNothing(c, w);
    } else if Metadata(|c.src.bytes|) in w.net {
      acts := [meta];
      MetadataArrives(c, w);
      QuietStep(c, w, meta);
    } else if NakMetadata in w.net && w.server.req.None? {
      acts := AnsweredMetadata(c, w);
    } else {
      AsksForMetadata(c, w);
      var w1 := Step(c, w, Tick);
      QuietStep(c, w, Tick);
      var rest := AnsweredMetadata(c, w1);
      QuietThen(c, w, [Tick], rest);
      acts := [Tick] + rest;
    }
  }

  lemma AnsweredMetadata(c: Config, w: World) returns (acts: seq<Action>)
    requires Ready(c, w) && NakMetadata in w.net
    ensures var w' := Run(c, w, acts);
      && Collecting(c, w') && |FileOf(w').gaps| == GapsLeft(w) && (HasEof(w') <==> HasEof(w)) && w.net <= w'.net
      && (Eof(|c.src.bytes|, SumFrom(c.src, 0)) in w'.net <==> Eof(|c.src.bytes|, SumFrom(c.src, 0)) in w.net)
      && Quiet(c, w, acts) && Ticks(acts) == 0
  {
    var ask, meta := ToSender(NakMetadata), ToServer(Metadata(|c.src.bytes|));
    MetadataAgain(c, w);
    var w1 := Step(c, w, ask);
    QuietStep(c, w, ask);
    MetadataArrives(c, w1);
    QuietStep(c, w1, meta);
    QuietThen(c, w, [ask], [meta]);
    acts := [ask] + [meta];
  }

  /** EOF that arrives while a file is there is recorded. */
  lemma EofArrives(c: Config, w: World)
    requires Collecting(c, w) && Eof(|c.src.bytes|, SumFrom(c.src, 0)) in w.net
    ensures var w' := Step(c, w, ToServer(Eof(|c.src.bytes|, SumFrom(c.src, 0))));
      Collecting(c, w') && HasEof(w') && FileOf(w').gaps == FileOf(w).gaps && (Claimed(w') ==> Claimed(w))
  {
    hide Exact;
  }

  /** Without EOF a time-out asks for it, and for data if some is missing. */
  lemma AsksForEof(c: Config, w: World)
    requires Collecting(c, w) && !HasEof(w)
    ensures var w' := Step(c, w, Tick);
      Collecting(c, w') && NakEof in w'.net && w'.server == w.server && (Claimed(w') ==> Claimed(w))
  {
    hide Exact, SumFrom;
    assert NakEof in OnTick(w.server, c.max).1;
  }

  lemma EofAgain(c: Config, w: World)
    requires Collecting(c, w) && NakEof in w.net
    ensures var w' := Step(c, w, ToSender(NakEof));
      && Collecting(c, w') && w'.server == w.server && Eof(|c.src.bytes|, SumFrom(c.src, 0)) in w'.net
      && (Claimed(w') ==> Claimed(w))
  {
    hide CollectingRequest, SumFrom;
    assert EofOf(c.src, w.sender) in OnSenderPdu(c.src, w.sender, NakEof).1;
  }

  /** Whatever has been lost, a server that is collecting gets the EOF. */
  lemma GetsEof(c: Config, w: World) returns (acts: seq<Action>)
    requires Collecting(c, w)
    ensures var w' := Run(c, w, acts);
      && Collecting(c, w') && HasEof(w') && FileOf(w').gaps == FileOf(w).gaps && Quiet(c, w, acts)
      && Ticks(acts) == AsksEof(c, w)
  {
    hide SumFrom, CollectingRequest, Claimed, Quiet, Run, Step;
    var eof := ToServer(Eof(|c.src.bytes|, SumFrom(c.src, 0)));
    if HasEof(w) {
      acts := [];
      QuietNothing(c, w);
    } else if Eof(|c.src.bytes|, SumFrom(c.src, 0)) in w.net {
      acts := [eof];
      EofArrives(c, w);
      QuietStep(c, w, eof);
    } else {
      AsksForEof(c, w);
      QuietStep(c, w, Tick);
      var w1 := Step(c, w, Tick);
      EofAgain(c, w1);
      QuietStep(c, w1, ToSender(NakEof));
      var w2 := Step(c, w1, ToSender(NakEof));
      EofArrives(c, w2);
      QuietStep(c, w2, eof);
      QuietThen(c, w1, [ToSender(NakEof)], [eof]);
      QuietThen(c, w, [Tick], [ToSender(NakEof)] + [eof]);
      acts := [Tick] + ([ToSender(NakEof)] + [eof]);
    }
  }

  /** Progress, for files and segments of any size and whatever has been lost: a server that is ready can be brought to
      the end, with one time-out for every `max` gaps, one for metadata and one for EOF if they have to be asked for,
      and one more, and nobody claims completion before it is true. */
  lemma CanFinish(c: Config, w: World) returns (acts: seq<Action>)
    requires Ready(c, w)
    ensures var w' := Run(c, w, acts);
      && w'.sender.finished && DestFile(w'.server) == Some(c.src.bytes)
      && Ticks(acts) == AsksMetadata(c, w) + AsksEof(c, w) + Ceiling(GapsLeft(w), c.max) + 1
    ensures !Claimed(w) ==> AlwaysHonest(c, w, acts)
  {
    hide SumFrom, Ceiling, AlwaysHonest, Claimed;
    var first := GetsMetadata(c, w);
    var w1 := Run(c, w, first);
    var second := GetsEof(c, w1);
    var w2 := Run(c, w1, second);
    var rest := CollectAll(c, w2);
    hide Collecting, Ready, Run, Quiet;
    QuietThen(c, w1, second, rest);
    QuietThen(c, w, first, second + rest);
    acts := first + (second + rest);
  }

  // ----- every run

  /** In every run of a file that always promotes, a live server that has not finished its request is ready. */
  lemma ReachableIsReady(c: Config, acts: seq<Action>)
    requires c.Valid() && AlwaysPromotes(c.src)
    requires var w := Run(c, InitialWorld, acts);
      && w.sender.started && !w.server.crashed
      && if w.server.req.Some? then !w.server.req.value.finished
         else Metadata(|c.src.bytes|) in w.net || NakMetadata in w.net
    ensures Ready(c, Run(c, InitialWorld, acts))
  {
    ReachableIsTracked(c, acts);
    var w := Run(c, InitialWorld, acts);
    hide Exact, TempExact, Promotable, AlwaysPromotes, DoomedFile;
    if w.server.req.Some? && !w.server.req.value.meta && w.server.req.value.file.Some? {
      AlwaysPromotable(c.src, FileOf(w).data, FileOf(w).partial, FileOf(w).gaps);
    }
  }

  /** Progress from every reachable state: whatever has been lost, repeated or overtaken, the transfer of such a file
      can still be finished once the server knows of it, in that many time-outs. */
  lemma EveryRunCanFinish(c: Config, acts: seq<Action>) returns (more: seq<Action>)
    requires c.Valid() && AlwaysPromotes(c.src)
    requires var w := Run(c, InitialWorld, acts);
      && w.sender.started && !w.server.crashed
      && if w.server.req.Some? then !w.server.req.value.finished
         else Metadata(|c.src.bytes|) in w.net || NakMetadata in w.net
    ensures var w := Run(c, InitialWorld, acts);
      var w' := Run(c, w, more);
      && w'.sender.finished && DestFile(w'.server) == Some(c.src.bytes)
      && Ticks(more) == AsksMetadata(c, w) + AsksEof(c, w) + Ceiling(GapsLeft(w), c.max) + 1
      && (!Claimed(w) ==> AlwaysHonest(c, w, more))
  {
    ReachableIsReady(c, acts);
    more := CanFinish(c, Run(c, InitialWorld, acts));
  }

  /** A segment's packet is on its way, or will be when the sender reads a NAK that is. */
  ghost predicate OnItsWay(c: Config, w: World, off: nat)
    requires c.Valid()
  {
    && off < |c.src.bytes| && Aligned(off, c.src.seg)
    && (Data(off, c.src.Payload(off)) in w.net ||
          exists gs :: Nak(gs) in w.net && off in Retransmitted(c.src, gs))
  }

  /** Something is on its way from which a server that knows nothing of the transaction can learn of it. */
  ghost predicate Reopens(c: Config, w: World)
    requires c.Valid()
  {
    Metadata(|c.src.bytes|) in w.net || NakMetadata in w.net || exists off: nat :: OnItsWay(c, w, off)
  }

  lemma {:induction false} DataPduOf(c: Source, offs: seq<nat>, o: nat)
    requires c.Valid() && o in offs && o < |c.bytes|
    ensures Data(o, c.Payload(o)) in DataPdus(c, offs)
    decreases |offs|
  {
    if offs[0] != o { DataPduOf(c, offs[1..], o); }
  }

  /** Such a packet can be made to arrive. */
  lemma Brings(c: Config, w: World, off: nat) returns (acts: seq<Action>)
    requires c.Valid() && w.sender.started && OnItsWay(c, w, off)
    ensures var w' := Run(c, w, acts);
      && w'.server == w.server && w'.sender == w.sender && Data(off, c.src.Payload(off)) in w'.net && w.net <= w'.net
      && Quiet(c, w, acts) && Ticks(acts) == 0
  {
    if Data(off, c.src.Payload(off)) in w.net {
      acts := [];
      QuietNothing(c, w);
    } else {
      var gs :| Nak(gs) in w.net && off in Retransmitted(c.src, gs);
      DataPduOf(c.src, Retransmitted(c.src, gs), off);
      OnlyData(c.src, Retransmitted(c.src, gs));
      acts := [ToSender(Nak(gs))];
      QuietStep(c, w, acts[0]);
    }
  }
}
