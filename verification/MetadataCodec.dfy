/** The metadata PDU with its list of messages, and the one-octet arithmetic of its builder. */
module MetadataCodec {
  import opened Options
  import opened Bytes
  import opened HeaderCodec
  import opened R = Receiver

  const META_DATA_PDU: byte := 7
  const PROXY_PUT_REQUEST: byte := 0
  const CONTINUE_PARTIAL: byte := 10

  /** "cfdp" and its terminating zero, in front of every message. */
  const CFDP: seq<byte> := [0x63, 0x66, 0x64, 0x70, 0]

  /** What an LV holds. */
  type Lv = s: seq<byte> | |s| < 256

  datatype Message =
    | ProxyPut(destination: nat, source: Lv, dest: Lv)
    | ContinuePartial(destination: nat, originator: nat, transaction: nat)
  {
    /** All identifiers can be sent. */
    predicate Sendable() {
      match this
      case ProxyPut(d, _, _) => IdLength(d) > 0
      case ContinuePartial(d, o, t) => IdLength(d) > 0 && IdLength(o) > 0 && IdLength(t) > 0
    }
  }

  // ----- writing

  function LvBytes(v: Lv): (s: seq<byte>)
    ensures |s| == 1 + |v|
  {
    [|v|] + v
  }

  function IdLvBytes(id: nat): (s: seq<byte>)
    ensures |s| == 1 + IdLength(id)
  {
    [IdLength(id)] + IdBytes(id)
  }

  function MessageBody(m: Message): seq<byte> {
    match m
    case ProxyPut(d, a, b) => IdLvBytes(d) + LvBytes(a) + LvBytes(b)
    case ContinuePartial(d, o, t) => IdLvBytes(d) + IdLvBytes(o) + IdLvBytes(t)
  }

  function MessageType(m: Message): byte {
    if m.ProxyPut? then PROXY_PUT_REQUEST else CONTINUE_PARTIAL
  }

  function MessageBytes(m: Message): (s: seq<byte>)
    ensures |s| >= 6
  {
    CFDP + [MessageType(m)] + MessageBody(m)
  }

  function MessagesBytes(ms: seq<Message>): seq<byte> {
    if ms == [] then [] else MessageBytes(ms[0]) + MessagesBytes(ms[1..])
  }

  /** Fields in front of the messages. */
  function FixedBytes(segmentation: bv1, size: nat, source: Lv, dest: Lv): (s: seq<byte>)
    ensures |s| == 8 + |source| + |dest|
  {
    HeadBytes(segmentation, size) + LvBytes(source) + LvBytes(dest)
  }

  function HeadBytes(segmentation: bv1, size: nat): (s: seq<byte>)
    ensures |s| == 6
  {
    [META_DATA_PDU, Octet(SetBits(0, 0, segmentation as bv8))] + BigEndian(size, 4)
  }

  /** The data length the builder stores: `index` is where the messages start; the absolute index behind the
      messages is added to it, and the start taken away, all in one octet. */
  function MetadataLength(start: nat, index: nat, messages: nat): (n: nat)
    requires start <= index
    ensures n < 256
  {
    Low8(index + (index + messages) - start)
  }

  // ----- reading

  function ReadLv(s: seq<byte>, at: nat): Option<(Lv, nat)> {
    if at < |s| && at + 1 + s[at] <= |s| then Some((s[at + 1..at + 1 + s[at]], at + 1 + s[at])) else None
  }

  /** An identifier with its length in front; unsupported lengths are errors. */
  function ReadIdLv(s: seq<byte>, at: nat): Option<(nat, nat)> {
    if at < |s| && s[at] in {1, 2, 4, 8} && at + 1 + s[at] <= |s|
    then Some((ReadId(s, at + 1, s[at]), at + 1 + s[at])) else None
  }

  function ReadProxyPut(s: seq<byte>, at: nat): Option<(Message, nat)> {
    var id := ReadIdLv(s, at);
    if id.None? then None
    else
      var a := ReadLv(s, id.value.1);
      if a.None? then None
      else
        var b := ReadLv(s, a.value.1);
        if b.None? then None else Some((ProxyPut(id.value.0, a.value.0, b.value.0), b.value.1))
  }

  function ReadContinuePartial(s: seq<byte>, at: nat): Option<(Message, nat)> {
    var d := ReadIdLv(s, at);
    if d.None? then None
    else
      var o := ReadIdLv(s, d.value.1);
      if o.None? then None
      else
        var t := ReadIdLv(s, o.value.1);
        if t.None? then None else Some((ContinuePartial(d.value.0, o.value.0, t.value.0), t.value.1))
  }

  /** One message, or nothing when it is not one the code builds. */
  function ReadMessage(s: seq<byte>, at: nat): (r: Option<(Message, nat)>)
    ensures r.Some? ==> at < r.value.1 <= |s|
  {
    if at + 6 > |s| || s[at..at + 5] != CFDP then None
    else if s[at + 5] == PROXY_PUT_REQUEST then ReadProxyPut(s, at + 6)
    else if s[at + 5] == CONTINUE_PARTIAL then ReadContinuePartial(s, at + 6)
    else None
  }

  predicate StartsMessage(s: seq<byte>, at: nat) {
    at + 4 <= |s| && s[at..at + 4] == CFDP[..4]
  }

  /** Behind "cfdp" the terminating zero is missing. */
  predicate Malformed(s: seq<byte>, at: nat) {
    at + 5 <= |s| && s[at..at + 5] != CFDP
  }

  /** A message of a type the code does not know. */
  predicate Unknown(s: seq<byte>, at: nat) {
    at + 6 <= |s| && s[at..at + 5] == CFDP && s[at + 5] != PROXY_PUT_REQUEST && s[at + 5] != CONTINUE_PARTIAL
  }

  /** What the loop over the messages yields: a list, an uninitialised pointer in it, or no end. */
  datatype Reading = Messages(list: seq<Message>) | Uninitialised | Endless

  function Prepend(ms: seq<Message>, r: Reading): Reading {
    if r.Messages? then Messages(ms + r.list) else r
  }

  /** Messages from `at` on, while the index is below `bound` and four octets spell "cfdp". A malformed message sends
      the index back to the packet's front; the second time it will happen again and again. */
  function ReadMessages(s: seq<byte>, at: nat, bound: nat, again: bool := false): Reading
    decreases if again then 0 else 1, |s| - at
  {
    if at >= bound || !StartsMessage(s, at) then Messages([])
    else if Malformed(s, at) then if again then Endless else ReadMessages(s, 0, bound, true)
    else if Unknown(s, at) then Uninitialised
    else
      var m := ReadMessage(s, at);
      if m.None? then Messages([]) else Prepend([m.value.0], ReadMessages(s, m.value.1, bound, again))
  }

  /** The loop fails to end only when the packet itself begins with "cfdp". */
  lemma {:induction false} EndlessFromFront(s: seq<byte>, at: nat, bound: nat)
    requires ReadMessages(s, at, bound).Endless?
    ensures StartsMessage(s, 0)
    decreases |s| - at
  {
    if !Malformed(s, at) { EndlessFromFront(s, ReadMessage(s, at).value.1, bound); }
  }

  /** A message without the zero behind "cfdp" is not read; the loop goes on at the packet's front, and when the same
      happens there, for ever. */
  lemma MalformedGoesRound(s: seq<byte>, at: nat, bound: nat)
    requires at < bound && at + 5 <= |s| && s[at..at + 4] == [0x63, 0x66, 0x64, 0x70] && s[at + 4] != 0
    ensures !StartsMessage(s, 0) ==> ReadMessages(s, at, bound) == Messages([])
    ensures StartsMessage(s, 0) && s[4] != 0 ==> ReadMessages(s, at, bound) == Endless
    ensures ReadMessages(s, at, bound) == ReadMessages(s, 0, bound, true)
  {
    assert s[at..at + 5][4] == s[at + 4];
    assert |s| >= 5 && s[0..5][4] == s[4];
  }

  /** Of a message of another type a pointer that was never set ends up in the list. */
  lemma UnknownPushed(s: seq<byte>, at: nat, bound: nat)
    requires at < bound && at + 6 <= |s| && s[at..at + 5] == [0x63, 0x66, 0x64, 0x70, 0]
    requires s[at + 5] != 0 && s[at + 5] != 10
    ensures ReadMessages(s, at, bound) == Uninitialised
  {
    assert s[at..at + 5][..4] == s[at..at + 4];
  }

  /** The bound of the reader's loop: data length less four, as an unsigned word. */
  function ReadBound(dataLength: nat): nat
    requires dataLength < 0x1_0000
  {
    if dataLength >= 4 then dataLength - 4 else U32 + dataLength - 4
  }

  // ----- round trip of one message

  lemma LvBack(s: seq<byte>, at: nat, v: Lv)
    requires at + 1 + |v| <= |s| && s[at..at + 1 + |v|] == LvBytes(v)
    ensures ReadLv(s, at) == Some((v, at + 1 + |v|))
  {
    var x := s[at..at + 1 + |v|];
    assert x[0] == |v| && x[1..] == v;
    assert s[at + 1..at + 1 + |v|] == x[1..];
  }

  lemma IdLvBack(s: seq<byte>, at: nat, id: nat)
    requires IdLength(id) > 0 && at + 1 + IdLength(id) <= |s| && s[at..at + 1 + IdLength(id)] == IdLvBytes(id)
    ensures ReadIdLv(s, at) == Some((id, at + 1 + IdLength(id)))
  {
    var x := s[at..at + 1 + IdLength(id)];
    assert x[0] == IdLength(id) && x[1..] == IdBytes(id);
    assert s[at + 1..at + 1 + IdLength(id)] == x[1..];
    ReadIdRoundTrip(s, at + 1, id);
  }

  /** A slice that is three parts, part by part. */
  lemma ThreeParts(s: seq<byte>, at: nat, a: seq<byte>, b: seq<byte>, d: seq<byte>)
    requires at + |a| + |b| + |d| <= |s| && s[at..at + |a| + |b| + |d|] == a + b + d
    ensures var j := at + |a|;
      var k := j + |b|;
      s[at..j] == a && s[j..k] == b && s[k..k + |d|] == d
  {
    var n := |a| + |b| + |d|;
    PartOf(s, at, n, 0, |a|);
    PartOf(s, at, n, |a|, |a| + |b|);
    PartOf(s, at, n, |a| + |b|, n);
    var x := a + b + d;
    assert x[0..|a|] == a && x[|a|..|a| + |b|] == b && x[|a| + |b|..n] == d;
  }

  lemma ProxyPutBack(s: seq<byte>, at: nat, d: nat, a: Lv, b: Lv)
    requires IdLength(d) > 0
    requires var body := MessageBody(ProxyPut(d, a, b)); at + |body| <= |s| && s[at..at + |body|] == body
    ensures ReadProxyPut(s, at) == Some((ProxyPut(d, a, b), at + |MessageBody(ProxyPut(d, a, b))|))
  {
    var x, y, z := IdLvBytes(d), LvBytes(a), LvBytes(b);
    assert |x| == 1 + IdLength(d) && MessageBody(ProxyPut(d, a, b)) == x + y + z;
    hide IdLvBytes, LvBytes, ReadIdLv, ReadLv, IdLength, MessageBody;
    ThreeParts(s, at, x, y, z);
    IdLvBack(s, at, d);
    LvBack(s, at + |x|, a);
    LvBack(s, at + |x| + |y|, b);
  }

  lemma ContinuePartialBack(s: seq<byte>, at: nat, d: nat, o: nat, t: nat)
    requires IdLength(d) > 0 && IdLength(o) > 0 && IdLength(t) > 0
    requires var body := MessageBody(ContinuePartial(d, o, t)); at + |body| <= |s| && s[at..at + |body|] == body
    ensures ReadContinuePartial(s, at) ==
      Some((ContinuePartial(d, o, t), at + |MessageBody(ContinuePartial(d, o, t))|))
  {
    var x, y, z := IdLvBytes(d), IdLvBytes(o), IdLvBytes(t);
    assert |x| == 1 + IdLength(d) && |y| == 1 + IdLength(o) && |z| == 1 + IdLength(t);
    assert MessageBody(ContinuePartial(d, o, t)) == x + y + z;
    hide IdLvBytes, LvBytes, ReadIdLv, ReadLv, IdLength, MessageBody;
    ThreeParts(s, at, x, y, z);
    IdLvBack(s, at, d);
    IdLvBack(s, at + |x|, o);
    IdLvBack(s, at + |x| + |y|, t);
  }

  lemma MessageParts(s: seq<byte>, at: nat, m: Message)
    requires at + |MessageBytes(m)| <= |s| && s[at..at + |MessageBytes(m)|] == MessageBytes(m)
    ensures |MessageBytes(m)| == 6 + |MessageBody(m)| && StartsMessage(s, at)
    ensures s[at..at + 5] == CFDP && s[at + 5] == MessageType(m)
    ensures s[at + 6..at + 6 + |MessageBody(m)|] == MessageBody(m)
  {
    hide MessageBody, MessageType;
    ThreeParts(s, at, CFDP, [MessageType(m)], MessageBody(m));
    assert s[at + 5..at + 6][0] == s[at + 5];
    assert s[at..at + 5][..4] == s[at..at + 4];
  }

  lemma MessageBack(s: seq<byte>, at: nat, m: Message)
    requires m.Sendable() && at + |MessageBytes(m)| <= |s| && s[at..at + |MessageBytes(m)|] == MessageBytes(m)
    ensures StartsMessage(s, at) && !Malformed(s, at) && !Unknown(s, at)
    ensures ReadMessage(s, at) == Some((m, at + |MessageBytes(m)|))
  {
    hide MessageBody, ReadProxyPut, ReadContinuePartial, IdLength;
    MessageParts(s, at, m);
    hide MessageBytes;
    match m
    case ProxyPut(d, a, b) => ProxyPutBack(s, at + 6, d, a, b);
    case ContinuePartial(d, o, t) => ContinuePartialBack(s, at + 6, d, o, t);
  }

  // ----- round trip of the list

  /** Where the last message starts. */
  function LastStart(at: nat, ms: seq<Message>): nat
    requires ms != []
  {
    at + |MessagesBytes(ms[..|ms| - 1])|
  }

  lemma {:induction false} LastStartShift(at: nat, ms: seq<Message>)
    requires |ms| > 1
    ensures LastStart(at, ms) == LastStart(at + |MessageBytes(ms[0])|, ms[1..])
  {
    var front := ms[..|ms| - 1];
    assert front[0] == ms[0] && front[1..] == ms[1..][..|ms| - 2];
  }

  /** The messages lie at `at` and no other message follows. */
  predicate Lies(s: seq<byte>, at: nat, ms: seq<Message>) {
    var end := at + |MessagesBytes(ms)|;
    && (forall i :: 0 <= i < |ms| ==> ms[i].Sendable())
    && end <= |s| && s[at..end] == MessagesBytes(ms) && !StartsMessage(s, end)
  }

  /** Reading what was written yields the same messages exactly when the loop's bound lies past the start of the
      last. */
  lemma {:induction false} MessagesBackIff(s: seq<byte>, at: nat, ms: seq<Message>, bound: nat)
    requires Lies(s, at, ms)
    ensures ReadMessages(s, at, bound) == Messages(ms) <==> ms == [] || LastStart(at, ms) < bound
    decreases |ms|
  {
    hide MessageBytes, MessagesBytes, LastStart, Lies, StartsMessage, ReadMessage, ReadMessages;
    if ms == [] {
      NothingFollows(s, at, bound);
    } else {
      LastStartFrom(at, ms);
      if at < bound {
        TailLies(s, at, ms);
        var next := at + |MessageBytes(ms[0])|;
        ReadsFirst(s, at, ms[0], bound);
        MessagesBackIff(s, next, ms[1..], bound);
        ReadsAll(s, at, next, ms, bound);
      } else {
        PastBound(s, at, bound);
      }
    }
  }

  lemma PastBound(s: seq<byte>, at: nat, bound: nat)
    requires at >= bound
    ensures ReadMessages(s, at, bound) == Messages([])
  {
  }

  lemma ReadsAll(s: seq<byte>, at: nat, next: nat, ms: seq<Message>, bound: nat)
    requires ms != [] && at < bound && ReadMessages(s, at, bound) == Prepend([ms[0]], ReadMessages(s, next, bound))
    requires ReadMessages(s, next, bound) == Messages(ms[1..]) <==> ms[1..] == [] || LastStart(next, ms[1..]) < bound
    requires |ms| == 1 ==> LastStart(at, ms) == at
    requires |ms| > 1 ==> LastStart(at, ms) == LastStart(next, ms[1..])
    ensures ReadMessages(s, at, bound) == Messages(ms) <==> LastStart(at, ms) < bound
  {
    hide ReadMessages, LastStart;
    var rest := ReadMessages(s, next, bound);
    if rest.Messages? { ConsEqual(rest.list, ms); }
    if |ms| == 1 { assert ms[1..] == []; }
  }

  lemma ConsEqual(rest: seq<Message>, ms: seq<Message>)
    requires ms != []
    ensures [ms[0]] + rest == ms <==> rest == ms[1..]
  {
    assert ms == [ms[0]] + ms[1..];
    assert ([ms[0]] + rest)[1..] == rest;
  }

  lemma NothingFollows(s: seq<byte>, at: nat, bound: nat)
    requires Lies(s, at, [])
    ensures ReadMessages(s, at, bound) == Messages([])
  {
  }

  lemma TailLies(s: seq<byte>, at: nat, ms: seq<Message>)
    requires ms != [] && Lies(s, at, ms)
    ensures var next := at + |MessageBytes(ms[0])|;
      next <= |s| && s[at..next] == MessageBytes(ms[0]) && ms[0].Sendable() && Lies(s, next, ms[1..])
  {
    hide StartsMessage, Message.Sendable;
    TailMessages(s, at, ms);
  }

  lemma TwoParts(s: seq<byte>, at: nat, a: seq<byte>, b: seq<byte>)
    requires at + |a| + |b| <= |s| && s[at..at + |a| + |b|] == a + b
    ensures s[at..at + |a|] == a && s[at + |a|..at + |a| + |b|] == b
  {
    assert a + b + [] == a + b;
    ThreeParts(s, at, a, b, []);
  }

  lemma FirstMessage(ms: seq<Message>)
    requires ms != []
    ensures MessagesBytes(ms) == MessageBytes(ms[0]) + MessagesBytes(ms[1..])
  {
  }

  lemma TailMessages(s: seq<byte>, at: nat, ms: seq<Message>)
    requires ms != [] && at + |MessagesBytes(ms)| <= |s| && s[at..at + |MessagesBytes(ms)|] == MessagesBytes(ms)
    ensures var next := at + |MessageBytes(ms[0])|;
      && s[at..next] == MessageBytes(ms[0])
      && next + |MessagesBytes(ms[1..])| == at + |MessagesBytes(ms)|
      && s[next..next + |MessagesBytes(ms[1..])|] == MessagesBytes(ms[1..])
  {
    hide MessageBytes, MessagesBytes;
    FirstMessage(ms);
    TwoParts(s, at, MessageBytes(ms[0]), MessagesBytes(ms[1..]));
  }

  lemma ReadsFirst(s: seq<byte>, at: nat, m: Message, bound: nat)
    requires m.Sendable() && at < bound
    requires at + |MessageBytes(m)| <= |s| && s[at..at + |MessageBytes(m)|] == MessageBytes(m)
    ensures ReadMessages(s, at, bound) == Prepend([m], ReadMessages(s, at + |MessageBytes(m)|, bound))
  {
    hide MessageBytes, StartsMessage, Malformed, Unknown, ReadMessage, Message.Sendable;
    MessageBack(s, at, m);
  }

  lemma LastStartFrom(at: nat, ms: seq<Message>)
    requires ms != []
    ensures |ms| == 1 ==> LastStart(at, ms) == at
    ensures |ms| > 1 ==> LastStart(at, ms) == LastStart(at + |MessageBytes(ms[0])|, ms[1..]) >= at
  {
    if |ms| == 1 {
      assert ms[..0] == [];
    } else {
      LastStartShift(at, ms);
    }
  }

  // ----- the whole PDU

  /** What parsing the fixed part yields, and the index behind it. */
  datatype Fixed = Fixed(segmentation: bv1, size: nat, source: seq<byte>, dest: seq<byte>, index: nat)

  /** Conversion to `uint8_t`. */
  function Low8(x: nat): (r: nat)
    ensures r < 256
  {
    if x < 256 then x else x % 256
  }

  /** A name behind its length, read with an index that is one octet wide: behind a length octet at 255 it is 0. */
  function ReadName(s: seq<byte>, at: nat): Option<(Lv, nat)>
    requires at < 256
  {
    if at >= |s| then None
    else
      var from := Low8(at + 1);
      if from + s[at] <= |s| then Some((s[from..from + s[at]], Low8(from + s[at]))) else None
  }

  /** A name whose length lies at the last index reads from the packet's front; one that ends past it leaves the index
      behind at what is over 256. */
  lemma NamesWrap(s: seq<byte>, at: nat)
    requires at < 256 && at < |s| && at + 1 + s[at] <= |s|
    ensures at == 255 ==> ReadName(s, at) == Some((s[0..s[at]], s[at]))
    ensures at < 255 && at + 1 + s[at] >= 256 ==>
      ReadName(s, at) == Some((s[at + 1..at + 1 + s[at]], at + 1 + s[at] - 256))
  {
  }

  /** The parser of the fixed part, from behind the directive code; its index is one octet wide. */
  function ReadFixed(s: seq<byte>, start: nat): Option<Fixed>
    requires start < |s|
  {
    var at := Low8(start + 1);
    if at + 4 > |s| then None
    else
      var a := ReadName(s, Low8(at + 4));
      if a.None? then None
      else
        var b := ReadName(s, a.value.1);
        if b.None? then None
        else
          Some(Fixed(Bit(s[start] as bv8, 0), FromBigEndian(s[at..at + 4]), a.value.0, b.value.0, b.value.1))
  }

  lemma NameBack(s: seq<byte>, at: nat, v: Lv)
    requires at + 1 + |v| < 256 && at + 1 + |v| <= |s| && s[at..at + 1 + |v|] == LvBytes(v)
    ensures ReadName(s, at) == Some((v, at + 1 + |v|))
  {
    LvBack(s, at, v);
  }

  /** The fixed part comes back whenever the names leave its end within the reach of a one-octet index. */
  lemma FixedRoundTrip(s: seq<byte>, start: nat, segmentation: bv1, size: nat, source: Lv, dest: Lv)
    requires size < U32 && start + 8 + |source| + |dest| < 256
    requires start + 8 + |source| + |dest| <= |s|
    requires s[start..start + 8 + |source| + |dest|] == FixedBytes(segmentation, size, source, dest)
    ensures ReadFixed(s, start + 1) ==
      Some(Fixed(segmentation, size, source, dest, start + 8 + |source| + |dest|))
  {
    var head := HeadBytes(segmentation, size);
    ThreeParts(s, start, head, LvBytes(source), LvBytes(dest));
    HeadBack(s, start, segmentation, size);
    hide BigEndian, FromBigEndian, SetBits, Octet, Bit;
    NameBack(s, start + 6, source);
    NameBack(s, start + 7 + |source|, dest);
    hide ReadName, LvBytes;
  }

  lemma HeadBack(s: seq<byte>, start: nat, segmentation: bv1, size: nat)
    requires size < U32 && start + 6 <= |s|
    requires s[start..start + 6] == HeadBytes(segmentation, size)
    ensures Bit(s[start + 1] as bv8, 0) == segmentation && FromBigEndian(s[start + 2..start + 6]) == size
  {
    SegmentationBack(segmentation);
    Pow256Values();
    BigEndianRoundTrip(size, 4);
    hide BigEndian, FromBigEndian, SetBits, Octet, Bit, Pow256;
    HeadOctets(s, start, s[start..start + 6]);
  }

  lemma SegmentationBack(b: bv1)
    ensures Bit(Octet(SetBits(0, 0, b as bv8)) as bv8, 0) == b
  {
    OctetBack(SetBits(0, 0, b as bv8));
  }

  lemma HeadOctets(s: seq<byte>, start: nat, head: seq<byte>)
    requires start + 6 <= |s| && |head| == 6 && s[start..start + 6] == head
    ensures s[start + 1] == head[1] && s[start + 2..start + 6] == head[2..]
  {
    assert s[start..start + 6][2..] == s[start + 2..start + 6];
  }

  /** Metadata round trip: the fixed part always comes back, the messages behind it exactly when the one-octet
      data length the builder stores still reaches past the start of the last message. */
  lemma MetadataRoundTripIff(s: seq<byte>, start: nat, segmentation: bv1, size: nat, source: Lv, dest: Lv,
                             ms: seq<Message>, index: nat)
    requires size < U32 && index == start + 8 + |source| + |dest| < 256 && index <= |s|
    requires s[start..index] == FixedBytes(segmentation, size, source, dest)
    requires Lies(s, index, ms)
    ensures ReadFixed(s, start + 1) == Some(Fixed(segmentation, size, source, dest, index))
    ensures ReadMessages(s, index, ReadBound(MetadataLength(start, index, |MessagesBytes(ms)|))) == Messages(ms) <==>
      ms == [] || LastStart(index, ms) < ReadBound(MetadataLength(start, index, |MessagesBytes(ms)|))
  {
    hide ReadFixed, FixedBytes, Lies, ReadMessages, LastStart, MessagesBytes, ReadBound, MetadataLength;
    MessagesBackIff(s, index, ms, ReadBound(MetadataLength(start, index, |MessagesBytes(ms)|)));
    FixedRoundTrip(s, start, segmentation, size, source, dest);
  }

  lemma LastMessageSize(ms: seq<Message>)
    requires ms != []
    ensures LastStart(0, ms) + 6 <= |MessagesBytes(ms)|
    decreases |ms|
  {
    LastStartFrom(0, ms);
    if |ms| > 1 {
      LastMessageSize(ms[1..]);
      ShiftedStart(|MessageBytes(ms[0])|, ms[1..]);
    }
  }

  lemma ShiftedStart(at: nat, ms: seq<Message>)
    requires ms != []
    ensures LastStart(at, ms) == at + LastStart(0, ms)
  {
  }

  /** While the indices fit one octet, the added absolute index included, every list comes back. */
  lemma MessagesFit(start: nat, index: nat, ms: seq<Message>)
    requires ms != [] && index >= start + 8 && index + (index + |MessagesBytes(ms)|) < 256
    ensures LastStart(index, ms) < ReadBound(MetadataLength(start, index, |MessagesBytes(ms)|))
  {
    LastMessageSize(ms);
    ShiftedStart(index, ms);
  }

  /** Sixty-octet names are enough for a single message to be lost: its data length wraps to 19. */
  lemma MessageLost(m: Message)
    requires m == ContinuePartial(1, 2, 3)
    ensures var index := 7 + 8 + 60 + 60;
      MetadataLength(7, index, |MessagesBytes([m])|) == 19 && LastStart(index, [m]) >= ReadBound(19)
  {
    assert IdBytes(1) == [1] && IdBytes(2) == [2] && IdBytes(3) == [3] by {
      assert BigEndian(0, 0) == [];
    }
    assert MessagesBytes([m]) == MessageBytes(m) + MessagesBytes([m][1..]);
    assert [m][1..] == [] && [m][..0] == [];
    LastStartFrom(135, [m]);
  }

  /** One message is read exactly when it starts more than four octets before the end that the data length gives the
      packet; a length below four lets every message through. */
  lemma OneMessageReadIff(s: seq<byte>, at: nat, m: Message, dataLength: nat)
    requires Lies(s, at, [m]) && dataLength < 0x1_0000 && at < 0xFFFF_FFFC
    ensures ReadMessages(s, at, ReadBound(dataLength)) == Messages([m]) <==> at + 4 < dataLength || dataLength < 4
  {
    MessagesBackIff(s, at, [m], ReadBound(dataLength));
    LastStartFrom(at, [m]);
    hide ReadMessages, Lies, LastStart;
  }

  // ----- building and reading in buffers

  method PutIdLv(packet: array<byte>, at: nat, id: nat) returns (bytes: nat)
    requires IdLength(id) > 0 && at + 9 <= packet.Length
    modifies packet
    ensures bytes == |IdLvBytes(id)| && packet[..] == Overwritten(old(packet[..]), at, IdLvBytes(id))
  {
    ghost var was := packet[..];
    hide IdBytes, IdLength;
    var length := CopyIdToPacket(packet, at + 1, id);
    packet[at] := length;
    assert packet[..] == Overwritten(was, at, [IdLength(id)] + IdBytes(id));
    bytes := length + 1;
  }

  method PutLv(packet: array<byte>, at: nat, v: Lv) returns (bytes: nat)
    requires at + 1 + |v| <= packet.Length
    modifies packet
    ensures bytes == |LvBytes(v)| && packet[..] == Overwritten(old(packet[..]), at, LvBytes(v))
  {
    PutBytes(packet, at, LvBytes(v));
    bytes := |v| + 1;
  }

  /** The callback on one message: "cfdp" and the type, then the parts of the body. */
  method AddMessage(packet: array<byte>, at: nat, m: Message) returns (next: nat)
    requires m.Sendable() && at + |MessageBytes(m)| + 8 <= packet.Length
    modifies packet
    ensures next == at + |MessageBytes(m)| && packet[..] == Overwritten(old(packet[..]), at, MessageBytes(m))
  {
    ghost var was := packet[..];
    var head := CFDP + [MessageType(m)];
    PutBytes(packet, at, head);
    hide IdLength, IdLvBytes, LvBytes, Overwritten;
    OverwrittenTwice(was, at, head, MessageBody(m));
    match m {
      case ProxyPut(d, a, b) => next := AddProxyPut(packet, at + 6, d, a, b);
      case ContinuePartial(d, o, t) => next := AddContinuePartial(packet, at + 6, d, o, t);
    }
  }

  method AddProxyPut(packet: array<byte>, at: nat, d: nat, a: Lv, b: Lv) returns (next: nat)
    requires IdLength(d) > 0 && at + |IdLvBytes(d)| + |LvBytes(a)| + |LvBytes(b)| + 8 <= packet.Length
    modifies packet
    ensures next == at + |IdLvBytes(d)| + |LvBytes(a)| + |LvBytes(b)|
    ensures packet[..] == Overwritten(old(packet[..]), at, IdLvBytes(d) + LvBytes(a) + LvBytes(b))
  {
    hide IdLength, IdLvBytes, LvBytes, Overwritten;
    WrittenInParts(packet[..], at, IdLvBytes(d), LvBytes(a), LvBytes(b));
    next := at;
    var bytes := PutIdLv(packet, next, d);
    next := next + bytes;
    bytes := PutLv(packet, next, a);
    next := next + bytes;
    bytes := PutLv(packet, next, b);
    next := next + bytes;
  }

  method AddContinuePartial(packet: array<byte>, at: nat, d: nat, o: nat, t: nat) returns (next: nat)
    requires IdLength(d) > 0 && IdLength(o) > 0 && IdLength(t) > 0
    requires at + |IdLvBytes(d)| + |IdLvBytes(o)| + |IdLvBytes(t)| + 8 <= packet.Length
    modifies packet
    ensures next == at + |IdLvBytes(d)| + |IdLvBytes(o)| + |IdLvBytes(t)|
    ensures packet[..] == Overwritten(old(packet[..]), at, IdLvBytes(d) + IdLvBytes(o) + IdLvBytes(t))
  {
    hide IdLength, IdLvBytes, Overwritten;
    WrittenInParts(packet[..], at, IdLvBytes(d), IdLvBytes(o), IdLvBytes(t));
    next := at;
    var bytes := PutIdLv(packet, next, d);
    next := next + bytes;
    bytes := PutIdLv(packet, next, o);
    next := next + bytes;
    bytes := PutIdLv(packet, next, t);
    next := next + bytes;
  }

  lemma WrittenInParts(s: seq<byte>, at: nat, a: seq<byte>, b: seq<byte>, d: seq<byte>)
    requires at + |a| + |b| + |d| <= |s|
    ensures var s1 := Overwritten(s, at, a);
      var s2 := Overwritten(s1, at + |a|, b);
      Overwritten(s2, at + |a| + |b|, d) == Overwritten(s, at, a + b + d)
  {
    OverwrittenTwice(s, at, a, b);
    OverwrittenTwice(s, at, a + b, d);
  }

  /** Iterates over the messages; returns the absolute index behind them. */
  method AddMessages(packet: array<byte>, start: nat, ms: seq<Message>) returns (end: nat)
    requires forall i :: 0 <= i < |ms| ==> ms[i].Sendable()
    requires start + |MessagesBytes(ms)| + 8 <= packet.Length
    modifies packet
    ensures end == start + |MessagesBytes(ms)|
    ensures packet[..] == Overwritten(old(packet[..]), start, MessagesBytes(ms))
  {
    ghost var was := packet[..];
    end := start;
    NoneWritten(was, start, ms);
    for i := 0 to |ms|
      invariant Written(packet[..], was, start, ms, i, end)
    {
      end := AddNext(packet, was, start, ms, i, end);
    }
    assert ms[..|ms|] == ms;
  }

  /** The first `i` messages are in the packet, `end` lies behind them. */
  predicate Written(s: seq<byte>, was: seq<byte>, start: nat, ms: seq<Message>, i: nat, end: nat)
    requires i <= |ms|
  {
    && end == start + |MessagesBytes(ms[..i])| && end <= |was|
    && s == Overwritten(was, start, MessagesBytes(ms[..i]))
  }

  method AddNext(packet: array<byte>, ghost was: seq<byte>, start: nat, ms: seq<Message>, i: nat, end: nat)
    returns (next: nat)
    requires i < |ms| && ms[i].Sendable() && start + |MessagesBytes(ms)| + 8 <= packet.Length == |was|
    requires Written(packet[..], was, start, ms, i, end)
    modifies packet
    ensures Written(packet[..], was, start, ms, i + 1, next)
  {
    hide MessageBytes, Overwritten, Message.Sendable;
    OneMoreWritten(was, start, ms, i);
    next := AddMessage(packet, end, ms[i]);
  }

  lemma NoneWritten(s: seq<byte>, at: nat, ms: seq<Message>)
    requires at <= |s|
    ensures MessagesBytes(ms[..0]) == [] && Overwritten(s, at, []) == s
  {
  }

  lemma {:induction false} MessagesConcat(a: seq<Message>, b: seq<Message>)
    ensures MessagesBytes(a + b) == MessagesBytes(a) + MessagesBytes(b)
  {
    if a == [] {
      assert a + b == b;
    } else {
      assert (a + b)[0] == a[0] && (a + b)[1..] == a[1..] + b;
      MessagesConcat(a[1..], b);
    }
  }

  lemma OneMoreWritten(s: seq<byte>, at: nat, ms: seq<Message>, i: nat)
    requires i < |ms| && at + |MessagesBytes(ms)| <= |s|
    ensures |MessagesBytes(ms[..i])| + |MessageBytes(ms[i])| == |MessagesBytes(ms[..i + 1])| <= |MessagesBytes(ms)|
    ensures Overwritten(Overwritten(s, at, MessagesBytes(ms[..i])), at + |MessagesBytes(ms[..i])|,
                        MessageBytes(ms[i])) ==
      Overwritten(s, at, MessagesBytes(ms[..i + 1]))
  {
    hide MessageBytes, Overwritten;
    assert ms[..i + 1] == ms[..i] + [ms[i]] && ms == ms[..i + 1] + ms[i + 1..];
    MessagesConcat(ms[..i], [ms[i]]);
    MessagesConcat(ms[..i + 1], ms[i + 1..]);
    assert MessagesBytes([ms[i]]) == MessageBytes(ms[i]) by { assert [ms[i]][1..] == []; }
    OverwrittenTwice(s, at, MessagesBytes(ms[..i]), MessageBytes(ms[i]));
  }

  /** The receiver's loop over the messages; where the code would go round for ever it stops and says so. */
  method GetMessages(s: seq<byte>, start: nat, dataLength: nat) returns (r: Reading)
    requires dataLength < 0x1_0000
    ensures r == ReadMessages(s, start, ReadBound(dataLength))
  {
    var bound := ReadBound(dataLength);
    var packetIndex := start;
    var ms: seq<Message> := [];
    var again := false;
    while packetIndex < bound
      invariant Prepend(ms, ReadMessages(s, packetIndex, bound, again)) == ReadMessages(s, start, bound)
      decreases if again then 0 else 1, |s| - packetIndex
    {
      if !StartsMessage(s, packetIndex) {
        break;
      }
      if Malformed(s, packetIndex) {
        if again {
          return Endless;
        }
        packetIndex, again := 0, true;
      } else if Unknown(s, packetIndex) {
        return Uninitialised;
      } else {
        var m := ReadMessage(s, packetIndex);
        if m.None? {
          break;
        }
        PrependTwice(ms, [m.value.0], ReadMessages(s, m.value.1, bound, again));
        ms := ms + [m.value.0];
        packetIndex := m.value.1;
      }
    }
    r := Messages(ms);
  }

  lemma PrependTwice(a: seq<Message>, b: seq<Message>, r: Reading)
    ensures Prepend(a, Prepend(b, r)) == Prepend(a + b, r)
  {
    if r.Messages? { assert a + (b + r.list) == a + b + r.list; }
  }

  /** The fixed part and the messages behind it. */
  function MetadataBody(segmentation: bv1, size: nat, source: Lv, dest: Lv, ms: seq<Message>): (body: seq<byte>)
    ensures |body| == 8 + |source| + |dest| + |MessagesBytes(ms)|
  {
    FixedBytes(segmentation, size, source, dest) + MessagesBytes(ms)
  }

  /** The PDU built behind the header of a zeroed buffer: the fixed part, the messages and the header's length. The
      one-octet index has the absolute index behind the messages added to it, and so has the length. */
  predicate MetadataPlaced(s: seq<byte>, was: seq<byte>, start: nat, segmentation: bv1, size: nat, source: Lv, dest: Lv,
                           ms: seq<Message>, packetIndex: nat) {
    var index := start + 8 + |source| + |dest|;
    && packetIndex == Low8(index + (index + |MessagesBytes(ms)|))
    && BodyPlaced(s, was, start, MetadataBody(segmentation, size, source, dest, ms),
                  MetadataLength(start, index, |MessagesBytes(ms)|), 0)
  }

  method BuildPutPacketMetadata(packet: array<byte>, start: nat, segmentation: bv1, size: nat, source: Lv, dest: Lv,
                                ms: seq<Message>)
    returns (packetIndex: nat)
    requires forall i :: 0 <= i < |ms| ==> ms[i].Sendable()
    requires size < U32 && 3 <= start && start + 8 + |source| + |dest| < 256
    requires start + 8 + |source| + |dest| + |MessagesBytes(ms)| + 8 <= packet.Length && packet[start + 1] == 0
    modifies packet
    ensures MetadataPlaced(packet[..], old(packet[..]), start, segmentation, size, source, dest, ms, packetIndex)
    ensures PduType(packet[..]) == PduType(old(packet[..]))
  {
    ghost var was := packet[..];
    hide *;
    var index, end := WriteBody(packet, start, segmentation, size, source, dest, ms);
    packetIndex := FinishMetadata(packet, start, index, end, was, segmentation, size, source, dest, ms);
    MetadataType(packet[..], was, start, segmentation, size, source, dest, ms, packetIndex);
  }

  /** The data length stored is the index returned less the start, both counted in one octet. */
  lemma IndexAndLength(s: seq<byte>, was: seq<byte>, start: nat, segmentation: bv1, size: nat, source: Lv, dest: Lv,
                       ms: seq<Message>, packetIndex: nat)
    requires MetadataPlaced(s, was, start, segmentation, size, source, dest, ms, packetIndex)
    ensures |s| >= 3 && packetIndex < 256 && FromBigEndian(s[1..3]) == (packetIndex - start) % 256
  {
    var index := start + 8 + |source| + |dest|;
    var messages := |MessagesBytes(ms)|;
    LengthStored(start, index, messages);
    OctetDifference(index + (index + messages), start);
    hide MetadataLength, Low8;
    LengthPlaced(s, was, start, MetadataBody(segmentation, size, source, dest, ms),
                 MetadataLength(start, index, messages), 0);
  }

  lemma LengthPlaced(s: seq<byte>, was: seq<byte>, start: nat, body: seq<byte>, dataLen: nat, isData: bv1)
    requires BodyPlaced(s, was, start, body, dataLen, isData) && dataLen < 0x1_0000
    ensures |s| >= 3 && FromBigEndian(s[1..3]) == dataLen
  {
    hide FromBigEndian, BigEndian;
    LengthBack(dataLen);
    assert s[1..3] == s[..3][1..] == BigEndian(dataLen, 2);
  }

  lemma OctetDifference(x: nat, start: nat)
    requires start <= x
    ensures Low8(x - start) == (Low8(x) - start) % 256
  {
    var q, r := x / 256, x % 256;
    assert x - start == (r - start) + 256 * q;
  }

  lemma MetadataType(s: seq<byte>, was: seq<byte>, start: nat, segmentation: bv1, size: nat, source: Lv, dest: Lv,
                     ms: seq<Message>, packetIndex: nat)
    requires MetadataPlaced(s, was, start, segmentation, size, source, dest, ms, packetIndex)
    ensures |s| == |was| >= 3 && PduType(s) == PduType(was)
  {
    var index := start + 8 + |source| + |dest|;
    hide BodyPlaced, PduType, MetadataBody;
    TypePlaced(s, was, start, MetadataBody(segmentation, size, source, dest, ms),
               MetadataLength(start, index, |MessagesBytes(ms)|), 0);
  }

  /** Stores the data length and returns the index, both in one octet. */
  method FinishMetadata(packet: array<byte>, start: nat, index: nat, end: nat, ghost was: seq<byte>,
                        ghost segmentation: bv1, ghost size: nat, ghost source: Lv, ghost dest: Lv,
                        ghost ms: seq<Message>)
    returns (packetIndex: nat)
    requires 3 <= start && index == start + 8 + |source| + |dest| && end == index + |MessagesBytes(ms)|
    requires end <= packet.Length == |was|
    requires packet[..] == Overwritten(was, start, MetadataBody(segmentation, size, source, dest, ms))
    modifies packet
    ensures MetadataPlaced(packet[..], was, start, segmentation, size, source, dest, ms, packetIndex)
  {
    ghost var body := MetadataBody(segmentation, size, source, dest, ms);
    hide MetadataBody, MessagesBytes, Overwritten, BodyPlaced, Low8, MetadataLength;
    LengthStored(start, index, |MessagesBytes(ms)|);
    var dataLen := Low8(index + end - start);
    packetIndex := Low8(index + end);
    FinishBody(packet, start, body, was, dataLen, 0);
  }

  method WriteBody(packet: array<byte>, start: nat, segmentation: bv1, size: nat, source: Lv, dest: Lv,
                   ms: seq<Message>)
    returns (index: nat, end: nat)
    requires forall i :: 0 <= i < |ms| ==> ms[i].Sendable()
    requires start + 8 + |source| + |dest| < 256
    requires start + 8 + |source| + |dest| + |MessagesBytes(ms)| + 8 <= packet.Length && packet[start + 1] == 0
    modifies packet
    ensures index == start + 8 + |source| + |dest| && end == index + |MessagesBytes(ms)|
    ensures packet[..] ==
      Overwritten(old(packet[..]), start, MetadataBody(segmentation, size, source, dest, ms))
  {
    BodyInTwo(packet[..], start, segmentation, size, source, dest, ms);
    hide *;
    index := BuildFixed(packet, start, segmentation, size, source, dest);
    end := AddMessages(packet, index, ms);
  }

  lemma BodyInTwo(was: seq<byte>, start: nat, segmentation: bv1, size: nat, source: Lv, dest: Lv, ms: seq<Message>)
    requires start + 8 + |source| + |dest| + |MessagesBytes(ms)| <= |was|
    ensures var fixed := FixedBytes(segmentation, size, source, dest);
      && |fixed| == 8 + |source| + |dest|
      && Overwritten(Overwritten(was, start, fixed), start + |fixed|, MessagesBytes(ms)) ==
           Overwritten(was, start, MetadataBody(segmentation, size, source, dest, ms))
  {
    hide MessagesBytes, Overwritten;
    OverwrittenTwice(was, start, FixedBytes(segmentation, size, source, dest), MessagesBytes(ms));
  }

  lemma LengthStored(start: nat, index: nat, messages: nat)
    requires start <= index
    ensures MetadataLength(start, index, messages) == Low8(index + (index + messages) - start)
  {
  }

  /** The segmentation bit or-ed into whatever the octet holds; the rest of the octet of a zeroed buffer stays zero. */
  function OredOctet(was: byte, segmentation: bv1): (b: byte)
    ensures was == 0 ==> b == Octet(SetBits(0, 0, segmentation as bv8))
  {
    Octet(SetBits(was as bv8, 0, segmentation as bv8))
  }

  lemma ZeroedHead(segmentation: bv1, size: nat)
    ensures [META_DATA_PDU, OredOctet(0, segmentation)] + BigEndian(size, 4) == HeadBytes(segmentation, size)
  {
    hide SetBits, OredOctet, BigEndian;
  }

  /** The fields in front of the messages, one after another. */
  method BuildFixed(packet: array<byte>, start: nat, segmentation: bv1, size: nat, source: Lv, dest: Lv)
    returns (packetIndex: nat)
    requires start + 8 + |source| + |dest| < 256 && start + 8 + |source| + |dest| <= packet.Length
    requires packet[start + 1] == 0
    modifies packet
    ensures packetIndex == start + 8 + |source| + |dest|
    ensures packet[..] == Overwritten(old(packet[..]), start, FixedBytes(segmentation, size, source, dest))
  {
    ghost var was := packet[..];
    hide SetBits, Octet, OredOctet, BigEndian, LvBytes, Overwritten;
    ghost var names := LvBytes(source) + LvBytes(dest);
    var head := [META_DATA_PDU, OredOctet(packet[start + 1], segmentation)] + BigEndian(size, 4);
    ZeroedHead(segmentation, size);
    hide HeadBytes;
    FixedInParts(segmentation, size, source, dest);
    hide FixedBytes;
    OverwrittenTwice(was, start, head, names);
    PutBytes(packet, start, head);
    packetIndex := PutNames(packet, start + 6, source, dest);
  }

  lemma FixedInParts(segmentation: bv1, size: nat, source: Lv, dest: Lv)
    ensures FixedBytes(segmentation, size, source, dest) ==
      HeadBytes(segmentation, size) + (LvBytes(source) + LvBytes(dest))
    ensures |LvBytes(source)| == |source| + 1 && |LvBytes(dest)| == |dest| + 1
  {
    hide HeadBytes;
  }

  /** The two file names, each behind its length. */
  method PutNames(packet: array<byte>, at: nat, source: Lv, dest: Lv) returns (packetIndex: nat)
    requires at + |source| + |dest| + 2 <= packet.Length
    modifies packet
    ensures packetIndex == at + |LvBytes(source) + LvBytes(dest)|
    ensures packet[..] == Overwritten(old(packet[..]), at, LvBytes(source) + LvBytes(dest))
  {
    OverwrittenTwice(packet[..], at, LvBytes(source), LvBytes(dest));
    hide Overwritten;
    var bytes := PutLv(packet, at, source);
    packetIndex := at + bytes;
    bytes := PutLv(packet, packetIndex, dest);
    packetIndex := packetIndex + bytes;
  }
}
