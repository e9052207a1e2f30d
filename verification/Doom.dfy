/** Transfers that can never be finished, and exactly which states they are. */
module Doom {
  import opened Options
  import opened Bytes
  import opened Intervals
  import opened Checksum
  import opened Segments
  import opened Receiver
  import opened FileLemmas
  import opened TempLemmas
  import opened Delivery
  import opened Protocol
  import opened Safety
  import opened Progress

  ghost predicate DoomedRequest(c: Source, r: Request)
    requires c.Valid()
  {
    && r.meta && !r.finished && !r.cleanUp && r.fileSize == |c.bytes| > 0
    && r.file.Some? && r.file.value.atDest && StartsOnGrid(c, r.file.value.gaps)
    && (r.eof ==> r.file.value.eofSum == SumFrom(c, 0)) && DoomedFile(c, r.file.value)
  }

  /** Nobody has claimed completion, and the server's file is doomed. */
  ghost predicate Doomed(c: Config, w: World) {
    && c.Valid() && GoodNet(c.src, w) && w.sender.started && !Claimed(w)
    && !w.server.crashed && w.server.req.Some? && DoomedRequest(c.src, w.server.req.value)
  }

  lemma DoomedOnPdu(c: Source, r: Request, p: Pdu)
    requires c.Valid() && DoomedRequest(c, r) && GoodPdu(c, p) && p != AckFinished
    ensures OnPdu(r, p).Live? && DoomedRequest(c, OnPdu(r, p).req) && OnPdu(r, p).sent == []
  {
    hide DoomedFile;
    match p
    case Data(off, _) =>
      DoomedOnData(c, r.file.value, off);
      DataStep(c, r.file.value, off);
      StartsStayOnGrid(c, r.file.value.gaps, off);
    case Eof(_, _) =>
      SameDoom(c, r.file.value, p.sum, p.size);
    case _ =>
  }

  /** A time-out leaves the file as it is; if it claims completion the claim is false. */
  lemma DoomedOnTick(c: Source, v: Server, max: nat)
    requires c.Valid() && !v.crashed && v.req.Some? && DoomedRequest(c, v.req.value)
    ensures var t := OnTick(v, max);
      && (forall p :: p in t.1 ==> GoodPdu(c, p)) && !t.0.crashed && t.0.req.Some? && AckFinished !in t.1
      && (if t.0.req.value.finished || Finished in t.1 then !Complete(c, t.0) else DoomedRequest(c, t.0.req.value))
  {
    var f := v.req.value.file.value;
    if f.gaps == [] && !v.req.value.paused {
      if |f.data| >= |c.bytes| {
        SumReceivedAll(c, [], 0);
        assert f.partial != SumFrom(c, 0);
      }
    }
    hide Exact;
  }

  lemma DoomedStep(c: Config, w: World, a: Action)
    requires Doomed(c, w)
    ensures Doomed(c, Step(c, w, a)) || (Claimed(Step(c, w, a)) && !Complete(c.src, Step(c, w, a).server))
  {
    hide DoomedRequest, Complete;
    match a
    case ToSender(p) => if p in w.net { SenderIsGood(c.src, w.sender, p); }
    case ToServer(p) =>
      if p in w.net {
        DoomedFacts(c.src, w.server.req.value);
        DoomedOnPdu(c.src, w.server.req.value, p);
      }
    case Tick => DoomedOnTick(c.src, w.server, c.max);
    case _ =>
  }

  lemma DoomedFacts(c: Source, r: Request)
    requires c.Valid() && DoomedRequest(c, r)
    ensures r.meta && !r.finished
  {
  }

  /** Such a transfer never finishes: every continuation without a false claim leaves it as it is. */
  lemma {:induction false} DoomedForever(c: Config, w: World, acts: seq<Action>)
    requires Doomed(c, w) && AlwaysHonest(c, w, acts)
    ensures Doomed(c, Run(c, w, acts)) && !Run(c, w, acts).sender.finished
    decreases |acts|
  {
    if acts != [] {
      DoomedStep(c, w, acts[0]);
      hide Doomed, Step, Complete, Claimed;
      assert Honest(c, Step(c, w, acts[0]));
      DoomedForever(c, Step(c, w, acts[0]), acts[1..]);
    }
  }

  /** The transfer can be brought to its end: FINISHED reaches the sender, and nobody claims completion before it
      is true. */
  ghost predicate Finishable(c: Config, w: World)
    requires c.Valid()
  {
    exists acts :: AlwaysHonest(c, w, acts) && Run(c, w, acts).sender.finished
  }

  lemma DoomedNotFinishable(c: Config, w: World)
    requires Doomed(c, w)
    ensures !Finishable(c, w)
  {
    assert c.Valid();
    hide Doomed;
    forall acts | AlwaysHonest(c, w, acts) ensures !Run(c, w, acts).sender.finished {
      DoomedForever(c, w, acts);
    }
  }

  lemma PromotedDoomed(c: Config, w: World)
    requires Tracked(c, w) && w.sender.started && !w.server.crashed && !Claimed(w)
    requires w.server.req.Some? && !w.server.req.value.meta && w.server.req.value.file.Some?
    requires !Promotable(c.src, FileOf(w).gaps) && Metadata(|c.src.bytes|) in w.net
    ensures Doomed(c, Step(c, w, ToServer(Metadata(|c.src.bytes|))))
  {
    hide Exact, TempExact, Promotable, AlwaysPromotes, DoomedFile, StartsOnGrid;
    PromotionDooms(c.src, FileOf(w));
    PromotedStarts(c.src, FileOf(w));
  }

  lemma ReadyFinishes(c: Config, w: World)
    requires Ready(c, w) && !Claimed(w)
    ensures Finishable(c, w)
  {
    hide AlwaysHonest, Ready;
    var acts := CanFinish(c, w);
  }

  lemma ReadyWithExact(c: Config, w: World)
    requires Tracked(c, w) && w.sender.started && !w.server.crashed && !Claimed(w) && w.server.req.Some?
    requires w.server.req.value.file.Some? ==>
      w.server.req.value.meta && Exact(c.src, FileOf(w).data, FileOf(w).partial, FileOf(w).gaps)
    ensures Ready(c, w)
  {
    hide Exact;
  }

  lemma DoomedWithoutExact(c: Config, w: World)
    requires Tracked(c, w) && w.sender.started && !w.server.crashed && !Claimed(w)
    requires w.server.req.Some? && w.server.req.value.meta
    requires !Exact(c.src, FileOf(w).data, FileOf(w).partial, FileOf(w).gaps)
    ensures Doomed(c, w)
  {
    hide Exact, DoomedFile, StartsOnGrid;
  }

  lemma PromotedReady(c: Config, w: World)
    requires Tracked(c, w) && w.sender.started && !w.server.crashed && !Claimed(w) && Metadata(|c.src.bytes|) in w.net
    requires w.server.req.Some? && !w.server.req.value.meta && w.server.req.value.file.Some?
    requires Promotable(c.src, FileOf(w).gaps)
    ensures var w' := Step(c, w, ToServer(Metadata(|c.src.bytes|))); Ready(c, w') && !Claimed(w')
  {
    hide Exact, TempExact, Promotable, AlwaysPromotes, DoomedFile, StartsOnGrid, SumFrom;
    PromotionExact(c.src, FileOf(w));
  }

  /** The step that decides: when metadata meets a temporary file, in any run and for all sizes, the transfer can
      be finished from there exactly when the list is promotable. */
  lemma PromotionDecides(c: Config, acts: seq<Action>)
    requires c.Valid()
    requires var w := Run(c, InitialWorld, acts);
      && w.sender.started && !w.server.crashed && !Claimed(w) && Metadata(|c.src.bytes|) in w.net
      && w.server.req.Some? && !w.server.req.value.meta && w.server.req.value.file.Some?
    ensures var w := Run(c, InitialWorld, acts);
      Finishable(c, Step(c, w, ToServer(Metadata(|c.src.bytes|)))) <==> Promotable(c.src, FileOf(w).gaps)
  {
    var w := Run(c, InitialWorld, acts);
    ReachableIsTracked(c, acts);
    hide Tracked, Promotable, Run, Step, Claimed;
    var w' := Step(c, w, ToServer(Metadata(|c.src.bytes|)));
    if Promotable(c.src, FileOf(w).gaps) {
      PromotedReady(c, w);
      ReadyFinishes(c, w');
    } else {
      PromotedDoomed(c, w);
      DoomedNotFinishable(c, w');
    }
  }
}
