/** Safety over every run: when the sender has seen FINISHED, the destination file is the sender's file. */
module Safety {
  import opened Options
  import opened Bytes
  import opened Intervals
  import opened Checksum
  import opened Segments
  import opened Receiver
  import opened FileLemmas
  import opened TempLemmas
  import opened Delivery
  import opened Protocol

  // ----- what is on the network

  predicate GoodPdu(c: Source, p: Pdu)
    requires c.Valid()
  {
    match p
    case Data(off, payload) => OnGrid(c, off, payload)
    case Metadata(size) => size == |c.bytes|
    case Eof(size, sum) => size == |c.bytes| && sum == SumFrom(c, 0)
    case Nak(segments) => forall i :: 0 <= i < |segments| ==> GoodStart(c, segments[i])
    case _ => true
  }

  predicate GoodStart(c: Source, g: Interval)
    requires c.Valid()
  {
    Boundary(c, g.start)
  }

  ghost predicate GoodNet(c: Source, w: World)
    requires c.Valid()
  {
    && (forall p :: p in w.net ==> GoodPdu(c, p))
    && (w.sender.started ==> w.sender.partial == SumFrom(c, 0))
    && (!w.sender.started ==> w.net == {} && w.server.req.None?)
  }

  // ----- what the server holds

  /** A file whose metadata is known: ordered gaps from the grid, sender's bytes elsewhere. */
  ghost predicate GoodFile(c: Source, f: File)
    requires c.Valid()
  {
    f.atDest && Ordered(f.gaps) && StartsOnGrid(c, f.gaps) && Agrees(c, f.data, f.gaps, |c.bytes|)
  }

  /** A temporary file: gaps, bytes and checksum are exact below the temporary size. */
  ghost predicate GoodTemp(c: Source, f: File) {
    f.isTemp && !f.atDest && TempExact(c, f.data, f.partial, f.gaps)
  }

  ghost predicate GoodRequest(c: Source, r: Request)
    requires c.Valid()
  {
    && (r.meta ==> r.fileSize == |c.bytes| && r.file.Some? && GoodFile(c, r.file.value))
    && (!r.meta && r.file.Some? ==> GoodTemp(c, r.file.value))
    && (r.cleanUp ==> r.finished)
    && !r.paused
  }

  ghost predicate GoodServer(c: Source, v: Server)
    requires c.Valid()
  {
    v.req.Some? ==> GoodRequest(c, v.req.value)
  }

  /** Someone has claimed that the transfer is over. */
  predicate Claimed(w: World) {
    || w.sender.finished || Finished in w.net || AckFinished in w.net
    || (w.server.req.Some? && w.server.req.value.finished)
  }

  /** The destination is the sender's file, and a request that holds it open will write no more. */
  ghost predicate Complete(c: Source, v: Server) {
    && DestFile(v) == Some(c.bytes)
    && (v.req.Some? && v.req.value.meta ==> v.req.value.file.Some? && v.req.value.file.value.gaps == [])
  }

  /** What holds in every state of every run. */
  ghost predicate Inv(c: Config, w: World) {
    c.Valid() && GoodNet(c.src, w) && GoodServer(c.src, w.server)
  }

  /** Whoever claims that the transfer is over is right. */
  ghost predicate Honest(c: Config, w: World) {
    Claimed(w) ==> Complete(c.src, w.server)
  }

  /** Honest now and after every further step of a run. */
  ghost predicate AlwaysHonest(c: Config, w: World, acts: seq<Action>)
    requires c.Valid()
    decreases |acts|
  {
    Honest(c, w) && (acts != [] ==> AlwaysHonest(c, Step(c, w, acts[0]), acts[1..]))
  }

  /** A metadata PDU makes a server start over, unless it finds a file with nothing missing. */
  predicate StartsOver(v: Server, p: Pdu) {
    var r := OpenRequest(v);
    !v.crashed && IsProcessedMetadata(r, p) && !(r.file.Some? && r.file.value.gaps == [])
  }

  /** The step that undoes a delivery. */
  predicate Undoes(w: World, a: Action) {
    Claimed(w) && a.ToServer? && a.pdu in w.net && StartsOver(w.server, a.pdu)
  }

  /** Metadata meets a temporary file that is full while the real one is longer: the rest is never asked for. */
  predicate LosesTail(c: Config, w: World, a: Action) {
    && a.ToServer? && a.pdu in w.net && !w.server.crashed && IsProcessedMetadata(OpenRequest(w.server), a.pdu)
    && OpenRequest(w.server).file.Some? && OpenRequest(w.server).file.value.gaps == []
    && |c.src.bytes| > TEMP_FILESIZE
  }

  predicate NeverLosesTail(c: Config, w: World, acts: seq<Action>)
    requires c.Valid()
    decreases |acts|
  {
    acts != [] ==> !LosesTail(c, w, acts[0]) && NeverLosesTail(c, Step(c, w, acts[0]), acts[1..])
  }

  predicate NeverUndoes(c: Config, w: World, acts: seq<Action>)
    requires c.Valid()
    decreases |acts|
  {
    acts != [] ==> !Undoes(w, acts[0]) && NeverUndoes(c, Step(c, w, acts[0]), acts[1..])
  }

  // ----- the invariant is kept

  lemma GoodFileStep(c: Source, f: File, off: nat)
    requires c.Valid() && off < |c.bytes| && Aligned(off, c.seg) && GoodFile(c, f)
    ensures GoodFile(c, ProcessData(f, off, c.Payload(off)))
    ensures f.gaps == [] ==> ProcessData(f, off, c.Payload(off)) == f
  {
    DataStep(c, f, off);
    EndIsBoundary(c, off);
    if Receive(f.gaps, off, c.End(off)).1 {
      CarveOrdered(f.gaps, off, c.End(off));
      StartsStayOnGrid(c, f.gaps, off);
      AgreementKept(c, f.data, f.gaps, off, |c.bytes|);
    }
  }

  lemma GoodPromotion(c: Source, f: File)
    requires c.Valid() && GoodTemp(c, f)
    ensures GoodFile(c, ChangeTempToActual(f, |c.bytes|)) <==> !(f.gaps == [] && |c.bytes| > TEMP_FILESIZE)
  {
    if f.gaps != [] {
      var gs := ExtendLast(f.gaps, |c.bytes|);
      assert forall i :: 0 <= i < |gs| ==> gs[i].start == f.gaps[i].start;
      assert Ordered(gs);
      forall x: nat | x < |c.bytes| ensures Misses(gs, x) || HoldsByte(c, f.data, x) {
        ExtendMisses(f.gaps, |c.bytes|, x);
        assert x < TEMP_FILESIZE ==> Misses(f.gaps, x) || HoldsByte(c, f.data, x);
      }
    } else if |c.bytes| > TEMP_FILESIZE {
      assert !Misses([], TEMP_FILESIZE) && !HoldsByte(c, f.data, TEMP_FILESIZE);
    }
  }

  lemma GoodFreshFile(c: Source)
    requires c.Valid() && |c.bytes| > 0
    ensures GoodFile(c, AddFirstOffset(EmptyFile, |c.bytes|))
  {
    FreshFileExact(c);
    assert AddFirstOffset(EmptyFile, |c.bytes|).gaps == [Interval(0, |c.bytes|)];
  }

  lemma GoodRequestOnPdu(c: Source, r: Request, p: Pdu)
    requires c.Valid() && |c.bytes| > 0 && GoodRequest(c, r) && GoodPdu(c, p)
    requires !(IsProcessedMetadata(r, p) && r.file.Some? && r.file.value.gaps == [] && |c.bytes| > TEMP_FILESIZE)
    ensures OnPdu(r, p).Live? ==> GoodRequest(c, OnPdu(r, p).req)
  {
    hide TempExact;
    match p
    case Data(off, payload) =>
      if r.meta {
        GoodFileStep(c, r.file.value, off);
      } else if r.file.Some? {
        TempExactStep(c, r.file.value, off);
      } else {
        FreshTempExact(c);
        TempExactStep(c, TempFile(TEMP_FILESIZE), off);
      }
    case Metadata(size) =>
      if !r.meta {
        if r.file.Some? { GoodPromotion(c, r.file.value); } else { GoodFreshFile(c); }
      }
    case _ =>
  }

  lemma GoodOnPdu(c: Config, w: World, p: Pdu)
    requires c.Valid() && GoodServer(c.src, w.server) && GoodPdu(c.src, p) && p in w.net
    requires !LosesTail(c, w, ToServer(p))
    ensures GoodServer(c.src, OnServerPdu(w.server, p).0)
  {
    if !w.server.crashed { GoodRequestOnPdu(c.src, OpenRequest(w.server), p); }
  }

  /** A server answers a PDU with an acknowledgement of metadata or not at all. */
  lemma OnlyAcks(v: Server, p: Pdu)
    ensures forall q :: q in OnServerPdu(v, p).1 ==> q == AckMetadata
    ensures p != AckFinished && OnServerPdu(v, p).0.req.Some? && OnServerPdu(v, p).0.req.value.finished ==>
      v.req.Some? && v.req.value.finished
  {
  }

  lemma GoodOnTick(c: Source, v: Server, max: nat)
    requires c.Valid() && GoodServer(c, v)
    ensures GoodServer(c, OnTick(v, max).0)
    ensures forall q :: q in OnTick(v, max).1 ==> GoodPdu(c, q)
  {
  }

  lemma {:induction false} BurstIsGood(c: Source, off: nat)
    requires c.Valid() && Aligned(off, c.seg)
    ensures forall p :: p in BurstFrom(c, off) ==> p.Data? && GoodPdu(c, p)
    decreases |c.bytes| + c.seg - off
  {
    if off < |c.bytes| {
      assert Aligned(off + c.seg, c.seg);
      BurstIsGood(c, off + c.seg);
    }
  }

  lemma {:induction false} RetransmittedIsGood(c: Source, gs: seq<Interval>, o: nat)
    requires c.Valid() && (forall i :: 0 <= i < |gs| ==> GoodStart(c, gs[i])) && o in Retransmitted(c, gs)
    ensures Aligned(o, c.seg) && o < |c.bytes|
    decreases |gs|
  {
    assert gs != [];
    if o in Retransmit(c, gs[0].start, gs[0].end, c.seg) {
      assert GoodStart(c, gs[0]);
      RetransmitAligned(c, gs[0].start, gs[0].end, o);
    } else {
      RetransmittedIsGood(c, gs[1..], o);
    }
  }

  lemma {:induction false} DataPdusGood(c: Source, offs: seq<nat>)
    requires c.Valid() && forall o :: o in offs ==> Aligned(o, c.seg)
    ensures forall p :: p in DataPdus(c, offs) ==> p.Data? && GoodPdu(c, p)
    decreases |offs|
  {
    if offs != [] {
      assert offs[0] in offs && forall o :: o in offs[1..] ==> o in offs;
      DataPdusGood(c, offs[1..]);
    }
  }

  /** Every packet the sender ever emits is a whole segment of the grid, and FINISHED comes only from the server. */
  lemma SenderIsGood(c: Source, s: Sender, p: Pdu)
    requires c.Valid() && GoodPdu(c, p) && s.partial == SumFrom(c, 0)
    ensures forall q :: q in OnSenderPdu(c, s, p).1 ==> GoodPdu(c, q) && !q.Finished?
    ensures OnSenderPdu(c, s, p).0 == s.(finished := s.finished || p.Finished?)
    ensures AckFinished in OnSenderPdu(c, s, p).1 ==> p.Finished?
  {
    if p.Nak? {
      forall o | o in Retransmitted(c, p.segments) ensures Aligned(o, c.seg) {
        RetransmittedIsGood(c, p.segments, o);
      }
      DataPdusGood(c, Retransmitted(c, p.segments));
    }
  }

  lemma NetKept(c: Config, w: World, a: Action)
    requires c.Valid() && GoodNet(c.src, w) && GoodServer(c.src, w.server)
    ensures GoodNet(c.src, Step(c, w, a))
    ensures !LosesTail(c, w, a) ==> GoodServer(c.src, Step(c, w, a).server)
  {
    match a
    case Start => BurstIsGood(c.src, 0);
    case ToSender(p) => if p in w.net { SenderIsGood(c.src, w.sender, p); }
    case ToServer(p) =>
      if p in w.net {
        OnlyAcks(w.server, p);
        if !LosesTail(c, w, a) { GoodOnPdu(c, w, p); }
      }
    case Tick => GoodOnTick(c.src, w.server, c.max);
    case Lose(_) =>
  }

  /** Deliveries make no claim that was not made before. */
  lemma NoNewClaim(c: Config, w: World, a: Action)
    requires c.Valid() && GoodNet(c.src, w) && !a.Tick?
    ensures Claimed(Step(c, w, a)) ==> Claimed(w)
  {
    match a
    case Start => BurstIsGood(c.src, 0);
    case ToSender(p) => if p in w.net { SenderIsGood(c.src, w.sender, p); }
    case ToServer(p) => if p in w.net { OnlyAcks(w.server, p); }
    case _ =>
  }

  /** A complete destination survives a PDU exactly when that PDU neither makes the server start over nor promotes
      a temporary file too short over it. */
  lemma CompleteOnPdu(c: Config, w: World, p: Pdu)
    requires c.Valid() && GoodServer(c.src, w.server) && GoodPdu(c.src, p) && p in w.net && Complete(c.src, w.server)
    ensures Complete(c.src, OnServerPdu(w.server, p).0) <==> !StartsOver(w.server, p) && !LosesTail(c, w, ToServer(p))
  {
    hide TempExact;
    var r := OpenRequest(w.server);
    if !w.server.crashed && p.Data? && r.meta {
      GoodFileStep(c.src, r.file.value, p.offset);
    }
    if !w.server.crashed && IsProcessedMetadata(r, p) && r.file.Some? && r.file.value.gaps == [] {
      GoodPromotion(c.src, r.file.value);
      if |c.src.bytes| <= TEMP_FILESIZE { AgreesEverywhere(c.src, r.file.value.data); }
      else { FullTempIsShort(c.src, r.file.value); }
    }
  }

  lemma FullTempIsShort(c: Source, f: File)
    requires GoodTemp(c, f)
    ensures |f.data| <= TEMP_FILESIZE
  {
  }

  /** A time-out keeps a complete destination. The server of an unfinished request claims completion only with
      nothing missing. */
  lemma CompleteOnTick(c: Source, v: Server, max: nat)
    requires c.Valid() && |c.bytes| > 0 && GoodServer(c, v)
    ensures var t := OnTick(v, max);
      && (Complete(c, v) ==> Complete(c, t.0))
      && (((v.req.Some? ==> !v.req.value.finished) && (Finished in t.1 || (t.0.req.Some? && t.0.req.value.finished)))
            ==> Complete(c, t.0))
  {
    if !v.crashed && v.req.Some? && v.req.value.meta && v.req.value.file.value.gaps == [] {
      AgreesEverywhere(c, v.req.value.file.value.data);
    }
  }

  /** The invariant is kept by every step but one that loses a tail. */
  lemma InvStep(c: Config, w: World, a: Action)
    requires Inv(c, w) && !LosesTail(c, w, a)
    ensures Inv(c, Step(c, w, a))
  {
    NetKept(c, w, a);
  }

  /** The exact step condition of safety, for all sizes: once someone has claimed completion, honesty is lost in the
      steps that start over or promote a short file over the delivered one, and in no other step at all. */
  lemma HonestStep(c: Config, w: World, a: Action)
    requires Inv(c, w) && Honest(c, w)
    ensures Honest(c, Step(c, w, a)) <==> !Undoes(w, a) && !(Claimed(w) && LosesTail(c, w, a))
  {
    if a.Tick? {
      CompleteOnTick(c.src, w.server, c.max);
    } else {
      NoNewClaim(c, w, a);
      if Claimed(w) && a.ToServer? && a.pdu in w.net { CompleteOnPdu(c, w, a.pdu); }
    }
  }

  lemma InitInv(c: Config)
    requires c.Valid()
    ensures Inv(c, InitialWorld)
  {
  }

  lemma {:induction false} HonestIff(c: Config, w: World, acts: seq<Action>)
    requires Inv(c, w) && Honest(c, w) && NeverLosesTail(c, w, acts)
    ensures AlwaysHonest(c, w, acts) <==> NeverUndoes(c, w, acts)
    decreases |acts|
  {
    if acts != [] {
      var w' := Step(c, w, acts[0]);
      InvStep(c, w, acts[0]);
      HonestStep(c, w, acts[0]);
      hide Step, Honest, Inv, Undoes, LosesTail;
      if Honest(c, w') {
        HonestIff(c, w', acts[1..]);
      } else {
        assert !AlwaysHonest(c, w', acts[1..]);
      }
    }
  }

  lemma {:induction false} HonestAtEnd(c: Config, w: World, acts: seq<Action>)
    requires c.Valid() && AlwaysHonest(c, w, acts)
    ensures Honest(c, Run(c, w, acts))
    decreases |acts|
  {
    if acts != [] { HonestAtEnd(c, Step(c, w, acts[0]), acts[1..]); }
  }

  /** What the transfer is for, of one run: as long as no step undoes a delivery, nobody ever claims completion
      without a complete destination. */
  ghost predicate SafeRun(c: Config, acts: seq<Action>)
    requires c.Valid()
  {
    NeverUndoes(c, InitialWorld, acts) ==> AlwaysHonest(c, InitialWorld, acts)
  }

  /** Safety in every run over any losing, duplicating and reordering network, for all sizes: in a run that never
      loses a tail all claims are true exactly when no step undoes a delivery. Then a sender that has FINISHED can
      rely on the file. */
  lemma EveryRunSafe(c: Config, acts: seq<Action>)
    requires c.Valid() && NeverLosesTail(c, InitialWorld, acts)
    ensures AlwaysHonest(c, InitialWorld, acts) <==> NeverUndoes(c, InitialWorld, acts)
    ensures var w := Run(c, InitialWorld, acts);
      NeverUndoes(c, InitialWorld, acts) && w.sender.finished ==>
        Complete(c.src, w.server) && DestFile(w.server) == Some(c.src.bytes)
  {
    InitInv(c);
    HonestIff(c, InitialWorld, acts);
    if NeverUndoes(c, InitialWorld, acts) {
      HonestAtEnd(c, InitialWorld, acts);
    }
  }

  // ----- sizes for which no tail is ever lost

  /** The sizes for which promotion of a temporary file can never lose the end of the real one. */
  predicate SafeSizes(c: Source)
    requires c.seg > 0
  {
    |c.bytes| <= 1000 || 1000 % c.seg != 0
  }

  lemma NoTailLost(c: Config, w: World, a: Action)
    requires Inv(c, w) && SafeSizes(c.src)
    ensures !LosesTail(c, w, a)
  {
    AlignedIsMultiple(TEMP_FILESIZE, c.src.seg);
  }

  lemma {:induction false} NeverTailLost(c: Config, w: World, acts: seq<Action>)
    requires Inv(c, w) && SafeSizes(c.src)
    ensures NeverLosesTail(c, w, acts)
    decreases |acts|
  {
    if acts != [] {
      NoTailLost(c, w, acts[0]);
      InvStep(c, w, acts[0]);
      hide Step, Inv, LosesTail;
      NeverTailLost(c, Step(c, w, acts[0]), acts[1..]);
    }
  }

  /** For those sizes all runs are safe. */
  lemma SafeSizesSafe(c: Config, acts: seq<Action>)
    requires c.Valid() && SafeSizes(c.src)
    ensures SafeRun(c, acts)
  {
    InitInv(c);
    NeverTailLost(c, InitialWorld, acts);
    EveryRunSafe(c, acts);
  }
}
