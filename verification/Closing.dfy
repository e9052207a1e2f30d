/** How one request ends, for any PDUs and time-outs whatsoever. */
module Closing {
  import opened Options
  import opened Bytes
  import opened Intervals
  import opened Receiver

  datatype Event = Arrives(pdu: Pdu) | TimesOut

  function OnEvent(r: Request, ev: Event, max: nat): Outcome {
    match ev
    case Arrives(p) => OnPdu(r, p)
    case TimesOut => var t := OnTimeOut(r, max); Live(t.0, t.1)
  }

  /** All PDUs a request sends over a life of events; a fault ends it. */
  function SentOver(r: Request, evs: seq<Event>, max: nat): seq<Pdu>
    decreases |evs|
  {
    if evs == [] then []
    else
      match OnEvent(r, evs[0], max)
      case Fault => []
      case Live(r', sent) => sent + SentOver(r', evs[1..], max)
  }

  /** The request at the end of such a life, or when a fault ends it. */
  function After(r: Request, evs: seq<Event>, max: nat): Request
    decreases |evs|
  {
    if evs == [] then r
    else
      match OnEvent(r, evs[0], max)
      case Fault => r
      case Live(r', _) => After(r', evs[1..], max)
  }

  function CountOf(p: Pdu, ps: seq<Pdu>): nat {
    if ps == [] then 0 else (if ps[0] == p then 1 else 0) + CountOf(p, ps[1..])
  }

  lemma {:induction false} CountConcat(p: Pdu, a: seq<Pdu>, b: seq<Pdu>)
    ensures CountOf(p, a + b) == CountOf(p, a) + CountOf(p, b)
  {
    if a == [] {
      assert a + b == b;
    } else {
      assert (a + b)[0] == a[0] && (a + b)[1..] == a[1..] + b;
      CountConcat(p, a[1..], b);
    }
  }

  // ----- what a request does not react to

  /** Metadata and EOF count once, data needs a file once the metadata is in, and what is meant for the sender does
      not count at all. */
  lemma OthersIgnored(r: Request, p: Pdu)
    requires (p.Metadata? && r.meta) || (p.Eof? && r.eof) || p.Finished? || p.Nak? || p.NakMetadata? || p.NakEof?
             || p.AckMetadata? || p.AckEof? || (p.Data? && r.meta && r.file.None?)
    ensures OnPdu(r, p) == Live(r, [])
  {
  }

  // ----- EOF

  /** EOF kills exactly a request that knows neither file nor metadata and has not had it yet; in any other it records
      checksum and size with the file, opening one when there is none, and nothing of the data changes. */
  lemma EofRecorded(r: Request, size: nat, sum: uint32)
    requires !r.eof
    ensures OnPdu(r, Eof(size, sum)) == Fault <==> r.file.None? && !r.meta
    ensures OnPdu(r, Eof(size, sum)).Live? ==>
      var o := OnPdu(r, Eof(size, sum));
      && o.sent == [] && o.req == r.(eof := true, file := o.req.file) && o.req.file.Some?
      && o.req.file.value.eofSum == sum && o.req.file.value.totalSize == size
      && (r.file.Some? ==> o.req.file.value == r.file.value.(eofSum := sum, totalSize := size))
      && (r.file.None? ==> o.req.file.value.gaps == [Interval(0, size)] && o.req.file.value.isTemp)
  {
  }

  // ----- one time-out

  /** The time-out gets past the end of the transaction and the metadata. */
  predicate Busy(r: Request) {
    !r.paused && !r.finished && r.meta && !(r.fileSize == 0 && r.resentFinished != RESEND_FINISHED_TIMES)
  }

  /** Everything is in and agrees. */
  predicate AllIn(r: Request) {
    r.eof && r.file.Some? && r.file.value.gaps == [] && r.file.value.eofSum == r.file.value.partial
  }

  predicate Lacks(r: Request) {
    r.file.Some? && r.file.value.gaps != []
  }

  function AboutEof(r: Request): seq<Pdu> {
    if !r.eof then [NakEof] else if r.resentEof < RESEND_EOF_TIMES then [AckEof] else []
  }

  function AboutData(r: Request, max: nat): seq<Pdu> {
    if Lacks(r) then [Nak(Requested(r.file.value.gaps, max))] else if AllIn(r) then [Finished] else []
  }

  lemma BusySends(r: Request, max: nat)
    requires Busy(r)
    ensures OnTimeOut(r, max).1 == AboutEof(r) + AboutData(r, max)
  {
  }

  /** Exactly when a time-out sends each PDU, and in which order: what concerns EOF goes first. */
  lemma TimeOutSends(r: Request, max: nat)
    ensures var sent := OnTimeOut(r, max).1;
      && (NakMetadata in sent <==> !r.paused && !r.finished && !r.meta)
      && (NakEof in sent <==> Busy(r) && !r.eof)
      && (AckEof in sent <==> Busy(r) && r.eof && r.resentEof < 1)
      && (forall gs :: Nak(gs) in sent <==> Busy(r) && Lacks(r) && gs == Requested(r.file.value.gaps, max))
      && (Finished in sent <==>
            !r.paused && if r.finished then r.resentFinished != 1 else r.meta && (Busy(r) ==> AllIn(r)))
      && (forall p :: p in sent ==> p.NakMetadata? || p.NakEof? || p.AckEof? || p.Finished? || p.Nak?)
      && |sent| <= 2
      && (|sent| == 2 ==> (sent[0] == NakEof || sent[0] == AckEof) && (sent[1].Nak? || sent[1].Finished?))
  {
    if Busy(r) { BusySends(r, max); }
  }

  /** And what it changes: the counters, and when it finds the end or has told it often enough. */
  lemma TimeOutChanges(r: Request, max: nat)
    ensures var t := OnTimeOut(r, max);
      && t.0 == r.(resentEof := t.0.resentEof, resentFinished := t.0.resentFinished, finished := t.0.finished,
                   cleanUp := t.0.cleanUp)
      && t.0.resentEof == r.resentEof + (if AckEof in t.1 then 1 else 0)
      && t.0.resentFinished == r.resentFinished + (if Finished in t.1 then 1 else 0)
      && (t.0.finished <==> r.finished || (Busy(r) && AllIn(r)))
      && (t.0.cleanUp <==> r.cleanUp || (!r.paused && r.finished && r.resentFinished == 1))
  {
    if Busy(r) { BusySends(r, max); }
  }

  // ----- over a life of a request

  /** The counters are within their limits, and FINISHED has been sent by finished requests only. */
  predicate Counters(r: Request) {
    && r.resentFinished <= RESEND_FINISHED_TIMES && r.resentEof <= RESEND_EOF_TIMES
    && (r.resentFinished == RESEND_FINISHED_TIMES ==> r.finished)
    && (r.meta && r.fileSize == 0 ==> r.paused)
  }

  function MetaCount(r: Request): nat { if r.meta then 1 else 0 }

  lemma CountFew(p: Pdu, a: seq<Pdu>, b: seq<Pdu>)
    requires |a| <= 1 && |b| <= 1
    ensures CountOf(p, a + b) == (if p in a then 1 else 0) + if p in b then 1 else 0
  {
    CountConcat(p, a, b);
  }

  /** What goes out is counted. */
  predicate Counts(r: Request, sent: seq<Pdu>, r': Request) {
    && r'.resentFinished == r.resentFinished + CountOf(Finished, sent)
    && r'.resentEof == r.resentEof + CountOf(AckEof, sent)
    && MetaCount(r') == MetaCount(r) + CountOf(AckMetadata, sent)
  }

  lemma TimeOutCounted(r: Request, max: nat)
    requires Counters(r)
    ensures var t := OnTimeOut(r, max); Counters(t.0) && Counts(r, t.1, t.0)
  {
    var t := OnTimeOut(r, max);
    var a, b := if Busy(r) then AboutEof(r) else [], if Busy(r) then AboutData(r, max) else t.1;
    assert t.1 == a + b && |b| <= 1 by { if Busy(r) { BusySends(r, max); } }
    CountFew(Finished, a, b);
    CountFew(AckEof, a, b);
    CountFew(AckMetadata, a, b);
  }

  lemma PduCounted(r: Request, p: Pdu)
    requires Counters(r) && OnPdu(r, p).Live?
    ensures var o := OnPdu(r, p); Counters(o.req) && Counts(r, o.sent, o.req)
  {
    var o := OnPdu(r, p);
    assert o.sent == [] || o.sent == [AckMetadata];
    CountFew(Finished, [], o.sent);
    CountFew(AckEof, [], o.sent);
    CountFew(AckMetadata, [], o.sent);
    assert [] + o.sent == o.sent;
  }

  lemma CountsOn(r: Request, a: seq<Pdu>, r1: Request, b: seq<Pdu>, r2: Request)
    requires Counts(r, a, r1) && Counts(r1, b, r2)
    ensures Counts(r, a + b, r2)
  {
    CountConcat(Finished, a, b);
    CountConcat(AckEof, a, b);
    CountConcat(AckMetadata, a, b);
  }

  /** Conservation over any life: the counters and the metadata flag say how often FINISHED, ACK(EOF) and ACK(metadata)
      have been sent. */
  lemma {:induction false} LifeCounted(r: Request, evs: seq<Event>, max: nat)
    requires Counters(r)
    ensures Counters(After(r, evs, max)) && Counts(r, SentOver(r, evs, max), After(r, evs, max))
    decreases |evs|
  {
    if evs != [] && OnEvent(r, evs[0], max).Live? {
      var o := OnEvent(r, evs[0], max);
      match evs[0] {
        case TimesOut => TimeOutCounted(r, max);
        case Arrives(p) => PduCounted(r, p);
      }
      hide OnEvent, Counts, Counters;
      LifeCounted(o.req, evs[1..], max);
      CountsOn(r, o.sent, o.req, SentOver(o.req, evs[1..], max), After(o.req, evs[1..], max));
    }
  }

  /** In any life of a request at most one FINISHED is sent, whatever arrives. */
  lemma FinishedAtMostOnce(evs: seq<Event>, max: nat)
    ensures CountOf(Finished, SentOver(NewRequest, evs, max)) <= 1
  {
    hide CountOf, SentOver, After, OnEvent;
    LifeCounted(NewRequest, evs, max);
    CountsFromNew(SentOver(NewRequest, evs, max), After(NewRequest, evs, max));
  }

  lemma CountsFromNew(sent: seq<Pdu>, r: Request)
    requires Counters(r) && Counts(NewRequest, sent, r)
    ensures CountOf(Finished, sent) == r.resentFinished <= 1 && CountOf(AckEof, sent) == r.resentEof <= 1
    ensures CountOf(AckMetadata, sent) == MetaCount(r)
  {
    hide CountOf;
  }

  /** At most one ACK(EOF) is; and the next time-out of a request that is busy with its EOF in sends the one that has
      not been sent. */
  lemma EofAcknowledgedOnce(evs: seq<Event>, max: nat)
    ensures var r, acks := After(NewRequest, evs, max), CountOf(AckEof, SentOver(NewRequest, evs, max));
      acks <= 1 && (Busy(r) && r.eof ==> (AckEof in OnTimeOut(r, max).1 <==> acks == 0))
  {
    hide CountOf, SentOver, After, OnEvent;
    LifeCounted(NewRequest, evs, max);
    CountsFromNew(SentOver(NewRequest, evs, max), After(NewRequest, evs, max));
    TimeOutSends(After(NewRequest, evs, max), max);
  }

  /** Metadata is acknowledged once, and exactly when it has been processed. */
  lemma MetadataAcknowledgedOnce(evs: seq<Event>, max: nat)
    ensures CountOf(AckMetadata, SentOver(NewRequest, evs, max)) == if After(NewRequest, evs, max).meta then 1 else 0
  {
    hide CountOf, SentOver, After, OnEvent;
    LifeCounted(NewRequest, evs, max);
    CountsFromNew(SentOver(NewRequest, evs, max), After(NewRequest, evs, max));
  }

  /** A request that found its own end has acknowledged EOF first. */
  lemma {:induction false} EofBeforeFinished(r: Request, evs: seq<Event>, max: nat)
    requires Counters(r) && (r.finished ==> r.resentEof == 1) && Arrives(AckFinished) !in evs
    ensures After(r, evs, max).finished ==> After(r, evs, max).resentEof == 1
    decreases |evs|
  {
    if evs != [] && OnEvent(r, evs[0], max).Live? {
      match evs[0] {
        case TimesOut => TimeOutCounted(r, max);
        case Arrives(p) => PduCounted(r, p);
      }
      EofBeforeFinished(OnEvent(r, evs[0], max).req, evs[1..], max);
    }
  }

  /** Two time-outs after everything is in, the request is up for removal, having sent FINISHED in the first. */
  lemma TwoTimeOutsClose(r: Request, max: nat)
    requires !r.paused && !r.cleanUp && !r.finished && r.meta && r.fileSize != 0 && r.resentFinished == 0
    requires r.file.Some? && r.file.value.gaps == [] && r.eof && r.file.value.eofSum == r.file.value.partial
    ensures var t1 := OnTimeOut(r, max);
      var t2 := OnTimeOut(t1.0, max);
      && t1.1 == (if r.resentEof == 0 then [AckEof, Finished] else [Finished])
      && !t1.0.cleanUp && t2.0.cleanUp && t2.1 == []
  {
    BusySends(r, max);
  }

  lemma {:induction false} PausedIsSilent(r: Request, evs: seq<Event>, max: nat)
    requires r.paused && r.meta && r.eof
    ensures SentOver(r, evs, max) == []
    decreases |evs|
  {
    if evs != [] {
      var o := OnEvent(r, evs[0], max);
      assert o.Live? && o.sent == [];
      PausedIsSilent(o.req, evs[1..], max);
    }
  }

  /** Message-only metadata pauses its request and puts it up for removal; whatever happens to it until then, it sends
      nothing any more. The FINISHED that the time-out code has for this case is never sent. */
  lemma MessagesOnlyStaysSilent(r: Request, evs: seq<Event>, max: nat)
    requires !r.meta
    ensures var o := OnPdu(r, Metadata(0));
      && o.Live? && o.sent == [AckMetadata] && o.req.cleanUp && o.req.paused && o.req.eof && o.req.file == r.file
      && SentOver(o.req, evs, max) == []
  {
    PausedIsSilent(OnPdu(r, Metadata(0)).req, evs, max);
  }
}
