/** One sender and one receiver over a network that loses, duplicates and reorders. */
module Protocol {
  import opened Options
  import opened Bytes
  import opened Intervals
  import opened Checksum
  import opened Segments
  import opened Receiver
  import opened FileLemmas
  import opened TempLemmas
  import opened Delivery

  /** The sending side: the burst has been sent, its running checksum, and FINISHED has been received. */
  datatype Sender = Sender(started: bool, partial: uint32, finished: bool)

  /** The receiving side: the live request of this transaction, the destination file on disk while no request
      holds it open, and whether the process died on a null file. */
  datatype Server = Server(req: Option<Request>, dest: Option<seq<byte>>, crashed: bool)

  /** `net` holds the PDUs sent and not lost for good: any of them may arrive where it was sent to, at any time and any
      number of times. */
  datatype World = World(sender: Sender, server: Server, net: set<Pdu>)

  datatype Action = Start | ToSender(pdu: Pdu) | ToServer(pdu: Pdu) | Tick | Lose(pdus: set<Pdu>)

  /** The source, and how many gaps one NAK carries. */
  datatype Config = Config(src: Source, max: nat) {
    predicate Valid() { src.Valid() && |src.bytes| > 0 && max > 0 }
  }

  const InitialWorld: World := World(Sender(false, 0, false), Server(None, None, false), {})

  function Elements(ps: seq<Pdu>): (s: set<Pdu>)
    ensures forall p :: p in s <==> p in ps
  {
    set p | p in ps
  }

  // ----- the sender

  /** The burst: all segments in order. */
  function BurstFrom(c: Source, off: nat): seq<Pdu>
    requires c.Valid()
    decreases |c.bytes| + c.seg - off
  {
    if off >= |c.bytes| then [] else [Data(off, c.Payload(off))] + BurstFrom(c, off + c.seg)
  }

  /** The payloads of data PDUs, one behind the other. */
  function Payloads(ps: seq<Pdu>): seq<byte> {
    if ps == [] then [] else (if ps[0].Data? then ps[0].payload else []) + Payloads(ps[1..])
  }

  /** The burst carries the file: its payloads in order are its bytes. */
  lemma {:induction false} BurstIsFile(c: Source, off: nat)
    requires c.Valid() && off <= |c.bytes|
    ensures Payloads(BurstFrom(c, off)) == c.bytes[off..]
    decreases |c.bytes| - off
  {
    if off < |c.bytes| {
      var rest := BurstFrom(c, off + c.seg);
      assert BurstFrom(c, off)[1..] == rest;
      if off + c.seg <= |c.bytes| {
        BurstIsFile(c, off + c.seg);
      } else {
        assert rest == [];
      }
      assert c.Payload(off) + c.bytes[c.End(off)..] == c.bytes[off..];
    }
  }

  /** It takes the quotient of file and segment size, rounded up, packets. */
  lemma {:induction false} BurstCount(c: Source, off: nat)
    requires c.Valid() && off <= |c.bytes|
    ensures |BurstFrom(c, off)| == Ceiling(|c.bytes| - off, c.seg)
    decreases |c.bytes| - off
  {
    hide Ceiling;
    CeilingStep(|c.bytes| - off, c.seg);
    if |c.bytes| - off > c.seg {
      BurstCount(c, off + c.seg);
    } else if off < |c.bytes| {
      assert BurstFrom(c, off + c.seg) == [];
      CeilingStep(0, c.seg);
    }
  }

  lemma BurstFacts(c: Source)
    requires c.Valid()
    ensures Payloads(BurstFrom(c, 0)) == c.bytes && |BurstFrom(c, 0)| == Ceiling(|c.bytes|, c.seg)
  {
    BurstIsFile(c, 0);
    BurstCount(c, 0);
  }

  function EofOf(c: Source, s: Sender): Pdu
    requires c.Valid()
  {
    Eof(|c.bytes|, s.partial)
  }

  /** What the sender transmits when its request starts: metadata, the burst, EOF. */
  function StartSender(c: Source): (Sender, seq<Pdu>)
    requires c.Valid()
  {
    var s := Sender(true, SumFrom(c, 0), false);
    (s, [Metadata(|c.bytes|)] + BurstFrom(c, 0) + [EofOf(c, s)])
  }

  /** Data PDUs for one list of offsets. */
  function DataPdus(c: Source, offs: seq<nat>): seq<Pdu>
    requires c.Valid()
  {
    if offs == [] then []
    else (if offs[0] < |c.bytes| then [Data(offs[0], c.Payload(offs[0]))] else []) + DataPdus(c, offs[1..])
  }

  /** Acknowledgements change nothing at the sender: their whole byte is compared with a bare directive code. */
  function OnSenderPdu(c: Source, s: Sender, p: Pdu): (Sender, seq<Pdu>)
    requires c.Valid()
  {
    match p
    case Finished => (s.(finished := true), [AckFinished])
    case Nak(segments) => (s, DataPdus(c, Retransmitted(c, segments)))
    case NakMetadata => (s, [Metadata(|c.bytes|)])
    case NakEof => (s, [EofOf(c, s)])
    case _ => (s, [])
  }

  /** The sender reacts to FINISHED and to requests only; acknowledgements and its own kinds of PDU change nothing. */
  lemma SenderIgnores(c: Source, s: Sender, p: Pdu)
    requires c.Valid() && !p.Finished? && !p.Nak? && !p.NakMetadata? && !p.NakEof?
    ensures OnSenderPdu(c, s, p) == (s, [])
  {
  }

  // ----- the server

  /** The destination file as another process would see it. */
  function DestFile(v: Server): Option<seq<byte>> {
    if v.req.Some? && v.req.value.file.Some? && v.req.value.file.value.atDest
    then Some(v.req.value.file.value.data) else v.dest
  }

  /** A PDU for a transaction with no live request makes a new request. */
  function OpenRequest(v: Server): Request {
    if v.req.Some? then v.req.value else NewRequest
  }

  /** Metadata is processed once in the life of a request. */
  predicate IsProcessedMetadata(r: Request, p: Pdu) {
    p.Metadata? && !r.meta
  }

  function OnServerPdu(v: Server, p: Pdu): (Server, seq<Pdu>) {
    if v.crashed then (v, [])
    else
      var r := OpenRequest(v);
      match OnPdu(r, p)
      case Fault => (v.(crashed := true), [])
      case Live(r', sent) => (v.(req := Some(r')), sent)
  }

  /** A sweep over the request: its time-out, then removal if that set `clean_up`. */
  function OnTick(v: Server, max: nat): (Server, seq<Pdu>) {
    if v.crashed || v.req.None? then (v, [])
    else
      var t := OnTimeOut(v.req.value, max);
      var v' := v.(req := Some(t.0));
      (if t.0.cleanUp then v'.(req := None, dest := DestFile(v')) else v', t.1)
  }

  // ----- runs

  /** The PDUs the sender sends; the others are the server's. */
  predicate ForServer(p: Pdu) {
    p.Metadata? || p.Data? || p.Eof? || p.AckFinished?
  }

  function Step(c: Config, w: World, a: Action): World
    requires c.Valid()
  {
    match a
    case Start =>
      if w.sender.started then w
      else
        var t := StartSender(c.src);
        w.(sender := t.0, net := w.net + Elements(t.1))
    case ToSender(p) =>
      if p !in w.net || ForServer(p) then w
      else
        var t := OnSenderPdu(c.src, w.sender, p);
        w.(sender := t.0, net := w.net + Elements(t.1))
    case ToServer(p) =>
      if p !in w.net || !ForServer(p) then w
      else
        var t := OnServerPdu(w.server, p);
        w.(server := t.0, net := w.net + Elements(t.1))
    case Tick =>
      var t := OnTick(w.server, c.max);
      w.(server := t.0, net := w.net + Elements(t.1))
    case Lose(ps) => w.(net := w.net - ps)
  }

  function Run(c: Config, w: World, acts: seq<Action>): World
    requires c.Valid()
    decreases |acts|
  {
    if acts == [] then w else Run(c, Step(c, w, acts[0]), acts[1..])
  }

  lemma {:induction false} RunConcat(c: Config, w: World, a: seq<Action>, b: seq<Action>)
    requires c.Valid()
    ensures Run(c, w, a + b) == Run(c, Run(c, w, a), b)
    decreases |a|
  {
    if a == [] {
      assert a + b == b;
    } else {
      assert (a + b)[0] == a[0] && (a + b)[1..] == a[1..] + b;
      RunConcat(c, Step(c, w, a[0]), a[1..], b);
    }
  }
}
