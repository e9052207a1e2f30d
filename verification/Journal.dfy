/** The journal of an unfinished request: the text written for it, and the request read back from that text. */
module Journal {
  import opened Bytes
  import opened Options
  import opened Decimal
  import opened Intervals
  import opened Jsmn
  import opened JsonText
  import opened FieldNames

  const MAX_PATH: nat := 255
  const MAX_TOKENS: nat := 255

  /** The file part of a request; `missing` is its gap list. */
  datatype Saved = Saved(isTemp: byte, nextOffset: uint32, totalSize: uint32, partialSum: uint32, eofSum: uint32,
                         missing: seq<Interval>)

  type bit = x: int | 0 <= x < 2

  /** What the local entity has indicated so far, one bit each. */
  datatype LocalEntity = LocalEntity(eofSent: bit, eofReceived: bit, segmentReceived: bit, finished: bit,
                                     suspended: bit, resumed: bit, metadataReceived: bit, metadataSent: bit)

  datatype Request = Request(myId: uint32, destId: uint32, number: nat, fileSize: uint32,
                             sourceName: string, destinationName: string, mode: byte, paused: bool,
                             resentEof: byte, resentFinished: byte, sentFirstRound: byte,
                             local: LocalEntity, file: Option<Saved>)

  // ----- writing

  function Gap32(x: nat): uint32 { x % U32 }

  /** The bounds of the gaps, as the printer's callback writes them, each with a comma behind it. */
  function GapsText(gs: seq<Interval>): string {
    if gs == [] then ""
    else Signed(Gap32(gs[0].start)) + "," + Signed(Gap32(gs[0].end)) + "," + GapsText(gs[1..])
  }

  function Bounds(gs: seq<Interval>): seq<string> {
    if gs == [] then [] else [Signed(Gap32(gs[0].start)), Signed(Gap32(gs[0].end))] + Bounds(gs[1..])
  }

  function Indication(e: LocalEntity, k: nat): bit
    requires 11 <= k < 19
  {
    if k == 11 then e.eofSent
    else if k == 12 then e.eofReceived
    else if k == 13 then e.segmentReceived
    else if k == 14 then e.finished
    else if k == 15 then e.suspended
    else if k == 16 then e.resumed
    else if k == 17 then e.metadataReceived
    else e.metadataSent
  }

  /** What is printed for field `k`; messages to the user are always printed as an empty list. */
  function ValueOf(r: Request, k: nat): Value
    requires k < FIELDS && (k >= BASE_FIELDS ==> r.file.Some?)
  {
    if k == 0 then Number(Signed(r.myId))
    else if k == 1 then Number(Signed(r.destId))
    else if k == 2 then Number(Digits(r.number))
    else if k == 3 then Number(Signed(r.fileSize))
    else if k == 4 then Quoted(r.sourceName)
    else if k == 5 then Quoted(r.destinationName)
    else if k == 6 then Number(Signed(r.mode))
    else if k == 7 then Number(Signed(if r.paused then 1 else 0))
    else if k == 8 then Number(Signed(r.resentEof))
    else if k == 9 then Number(Signed(r.resentFinished))
    else if k == 10 then Number(Signed(r.sentFirstRound))
    else if 11 <= k < 19 then Number(Signed(Indication(r.local, k)))
    else if k == 19 then Numbers([])
    else if k == 20 then Number(Signed(r.file.value.isTemp))
    else if k == 21 then Number(Signed(r.file.value.nextOffset))
    else if k == 22 then Number(Signed(r.file.value.totalSize))
    else if k == 23 then Number(Signed(r.file.value.partialSum))
    else if k == 24 then Number(Signed(r.file.value.eofSum))
    else Numbers(Bounds(r.file.value.missing))
  }

  /** The fields from `k` up to `n` with their values. */
  function EntriesFrom(r: Request, k: nat, n: nat): (es: seq<Entry>)
    requires k <= n <= FIELDS && (n > BASE_FIELDS ==> r.file.Some?)
    ensures |es| == n - k
    decreases n - k
  {
    if k == n then [] else [Entry(Name(k), ValueOf(r, k))] + EntriesFrom(r, k + 1, n)
  }

  function Lines(es: seq<Entry>): string {
    if es == [] then "" else Body(es[0]) + ",\n" + Lines(es[1..])
  }

  /** snprintf into a buffer of `size` characters. */
  function Clip(s: string, size: nat): string
    requires size > 0
  {
    if |s| < size then s else s[..size - 1]
  }

  function BaseText(r: Request): string {
    "{\n" + Lines(EntriesFrom(r, 0, BASE_FIELDS))
  }

  function FileHead(r: Request): string
    requires r.file.Some?
  {
    Lines(EntriesFrom(r, BASE_FIELDS, FIELDS - 1)) + "    \"" + Name(FIELDS - 1) + "\":["
  }

  /** Writing `s` after seeking to `back` characters before the end of what is there. */
  function WriteBack(text: string, back: nat, s: string): string
    requires back <= |text| && back <= |s|
  {
    text[..|text| - back] + s
  }

  /** The file's lines: the list's closing bracket overwrites the character written last. */
  function WithFile(text: string, r: Request): string
    requires r.file.Some?
  {
    WriteBack(text + Clip(FileHead(r), 500) + GapsText(r.file.value.missing), 1, "],\n")
  }

  /** The journal's whole text. */
  function Written(r: Request): string {
    var base := Clip(BaseText(r), 1000);
    WriteBack(if r.file.Some? then WithFile(base, r) else base, 2, "\n}")
  }

  // ----- reading

  /** A comma at the end of every bound: pairs of numbers become gaps. `tmp` is the text since the last comma,
      `first` the bound before it. */
  function ScanGaps(s: string, tmp: string, first: string, odd: bool): seq<Interval> {
    if s == [] then []
    else if s[0] == ',' then
      if odd then [Interval(ToUint32(Atol(first)), ToUint32(Atol(tmp)))] + ScanGaps(s[1..], "", first, false)
      else ScanGaps(s[1..], "", tmp, true)
    else ScanGaps(s[1..], tmp + [s[0]], first, odd)
  }

  /** The gaps a bracketed list of numbers stands for; a comma takes the place of its last character. */
  function ReadGaps(value: string): seq<Interval> {
    if value == "" then [] else ScanGaps((value[..|value| - 1] + ",")[1..], "", "", false)
  }

  function ToByte(v: int): byte { v % 256 }

  function ToBit(v: int): bit { v % 2 }

  /** Stores a value in field `k` of the request; without a file its fields cannot be stored. The file is
      created, at its size `onDisk`, by its first field. */
  function Assign(r: Request, k: nat, value: string, onDisk: uint32): Option<Request>
    requires k < FIELDS
  {
    var v := Atol(value);
    if k == 0 then Some(r.(myId := ToUint32(v)))
    else if k == 1 then Some(r.(destId := ToUint32(v)))
    else if k == 2 then Some(r.(number := v % (U32 * U32)))
    else if k == 3 then Some(r.(fileSize := ToUint32(v)))
    else if k == 4 then Some(r.(sourceName := value[..Min(MAX_PATH, |value|)]))
    else if k == 5 then Some(r.(destinationName := value[..Min(MAX_PATH, |value|)]))
    else if k == 6 then Some(r.(mode := ToByte(v)))
    else if k == 7 then Some(r.(paused := v != 0))
    else if k == 8 then Some(r.(resentEof := ToByte(v)))
    else if k == 9 then Some(r.(resentFinished := ToByte(v)))
    else if k == 10 then Some(r.(sentFirstRound := ToByte(v)))
    else if 11 <= k < 19 then Some(r.(local := AssignEntity(r.local, k, ToBit(v))))
    else if k == 19 then Some(r)
    else if k == 20 then
      var f := if r.file.Some? then r.file.value else Saved(0, 0, onDisk, 0, 0, []);
      Some(r.(file := Some(f.(isTemp := ToByte(v)))))
    else if r.file.None? then None
    else Some(r.(file := Some(AssignFile(r.file.value, k, value))))
  }

  function AssignEntity(e: LocalEntity, k: nat, b: bit): LocalEntity
    requires 11 <= k < 19
  {
    if k == 11 then e.(eofSent := b)
    else if k == 12 then e.(eofReceived := b)
    else if k == 13 then e.(segmentReceived := b)
    else if k == 14 then e.(finished := b)
    else if k == 15 then e.(suspended := b)
    else if k == 16 then e.(resumed := b)
    else if k == 17 then e.(metadataReceived := b)
    else e.(metadataSent := b)
  }

  function AssignFile(f: Saved, k: nat, value: string): Saved
    requires BASE_FIELDS < k < FIELDS
  {
    var v := ToUint32(Atol(value));
    if k == 21 then f.(nextOffset := v)
    else if k == 22 then f.(totalSize := v)
    else if k == 23 then f.(partialSum := v)
    else if k == 24 then f.(eofSum := v)
    else f.(missing := f.missing + ReadGaps(value))
  }

  /** Tries every name from `k` on: a key that begins with it has its value stored there. */
  function Match(r: Request, key: string, value: string, k: nat, onDisk: uint32): Option<Request>
    requires k <= FIELDS
    decreases FIELDS - k
  {
    if k == FIELDS then Some(r)
    else if Name(k) <= key then
      var stored := Assign(r, k, value, onDisk);
      if stored.None? then None else Match(stored.value, key, value, k + 1, onDisk)
    else Match(r, key, value, k + 1, onDisk)
  }

  /** Takes the words two by two as keys and values. */
  function Restore(r: Request, words: seq<string>, onDisk: uint32): Option<Request>
    decreases |words|
  {
    if words == [] then Some(r)
    else if |words| == 1 then None
    else
      var next := Match(r, words[0], words[1], 0, onDisk);
      if next.None? then None else Restore(next.value, words[2..], onDisk)
  }

  function Slice(js: string, t: Token): string {
    if t.start <= t.end <= |js| then js[t.start..t.end] else ""
  }

  function WordsAt(js: string, ts: seq<Token>): seq<string> {
    seq(|ts|, i requires 0 <= i < |ts| => Slice(js, ts[i]))
  }

  /** Reads a request from the journal's text; a text that does not tokenize is an error. */
  function Load(js: string, r: Request, onDisk: uint32): Option<Request> {
    var read := Tokenize(js, 0, [], MAX_TOKENS);
    if read.Err? then None
    else if read.tokens == [] then Some(r)
    else Restore(r, WordsAt(js, read.tokens)[1..], onDisk)
  }
}
