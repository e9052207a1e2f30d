/** The receiving side of one acknowledged transaction as a value: what every PDU and every time-out does. */
module Receiver {
  import opened Options
  import opened Bytes
  import opened Intervals
  import opened Checksum

  datatype Pdu =
    | Metadata(size: nat)
    | Data(offset: uint32, payload: field)
    | Eof(size: nat, sum: uint32)
    | AckMetadata
    | AckEof
    | AckFinished
    | NakMetadata
    | NakEof
    | Nak(segments: seq<Interval>)
    | Finished

  const TEMP_FILESIZE: nat := 1000
  const RESEND_EOF_TIMES: nat := 1
  const RESEND_FINISHED_TIMES: nat := 1

  /** The `File` struct, with the contents behind its descriptor. `atDest` says whether the
      descriptor is the destination file or still the temporary one. */
  datatype File = File(gaps: seq<Interval>, data: seq<byte>, partial: uint32, eofSum: uint32,
                       totalSize: nat, isTemp: bool, atDest: bool)

  /** The `Request` fields the receiving side uses; `cleanUp` is `procedure == clean_up`. */
  datatype Request = Request(file: Option<File>, fileSize: nat, meta: bool, eof: bool, finished: bool,
                             resentEof: nat, resentFinished: nat, paused: bool, cleanUp: bool)

  const NewRequest: Request := Request(None, 0, false, false, false, 0, 0, false, false)

  /** A PDU either leaves a request behind or makes the code dereference a null file. */
  datatype Outcome = Live(req: Request, sent: seq<Pdu>) | Fault

  const EmptyFile: File := File([], [], 0, 0, 0, false, true)

  function TempFile(size: nat): File {
    File([Interval(0, size)], [], 0, 0, size, true, false)
  }

  function AddFirstOffset(f: File, size: nat): File {
    f.(gaps := [Interval(0, size)] + f.gaps)
  }

  /** The last gap is popped, its end moved to the real size, and pushed back. */
  function ExtendLast(gs: seq<Interval>, size: nat): (r: seq<Interval>)
    requires gs != []
  {
    gs[..|gs| - 1] + [Interval(gs[|gs| - 1].start, size)]
  }

  function ChangeTempToActual(f: File, size: nat): File {
    if f.gaps == [] then f.(atDest := true)
    else f.(gaps := ExtendLast(f.gaps, size), isTemp := false, totalSize := size, atDest := true)
  }

  function ProcessData(f: File, off: uint32, payload: field): File {
    var r := Receive(f.gaps, off, Add32(off, |payload|));
    if !r.1 then f
    else if payload == [] then f.(gaps := r.0)
    else f.(gaps := r.0, data := WriteAt(f.data, off, payload),
            partial := Add32(f.partial, CheckSum(payload)))
  }

  function ProcessMetadata(r: Request, size: nat): Request {
    var r' := r.(meta := true, fileSize := size);
    if size == 0 then r'.(eof := true, cleanUp := true, paused := true)
    else r'.(file := FileForMetadata(r.file, size))
  }

  function FileForMetadata(f: Option<File>, size: nat): Option<File> {
    if f.None? then Some(AddFirstOffset(EmptyFile, size))
    else if f.value.isTemp then Some(ChangeTempToActual(f.value, size))
    else Some(AddFirstOffset(f.value, size))
  }

  function ProcessEof(r: Request, size: nat, sum: uint32): Outcome {
    var file := if r.file.None? && r.meta then Some(TempFile(size)) else r.file;
    if file.None? then Fault
    else Live(r.(eof := true, file := Some(file.value.(eofSum := sum, totalSize := size))), [])
  }

  function ProcessDataPdu(r: Request, off: uint32, payload: field): Request {
    var file := if !r.meta && r.file.None? then Some(TempFile(TEMP_FILESIZE)) else r.file;
    if file.None? then r else r.(file := Some(ProcessData(file.value, off, payload)))
  }

  function OnPdu(r: Request, p: Pdu): Outcome {
    match p
    case Data(off, payload) => Live(ProcessDataPdu(r, off, payload), [])
    case Metadata(size) => if r.meta then Live(r, []) else Live(ProcessMetadata(r, size), [AckMetadata])
    case Eof(size, sum) => if r.eof then Live(r, []) else ProcessEof(r, size, sum)
    case AckFinished => Live(r.(finished := true), [])
    case _ => Live(r, [])
  }

  /** First `max` gaps, as many as one NAK carries. */
  function Requested(gs: seq<Interval>, max: nat): seq<Interval> {
    gs[..Min(|gs|, max)]
  }

  function SendFinished(r: Request): (Request, seq<Pdu>) {
    (r.(resentFinished := r.resentFinished + 1), [Finished])
  }

  /** One time-out of an acknowledged transaction, in the order the code tests its flags. */
  function OnTimeOut(r: Request, max: nat): (Request, seq<Pdu>) {
    if r.paused then (r, [])
    else if r.finished && r.resentFinished != RESEND_FINISHED_TIMES then SendFinished(r)
    else if r.finished then (r.(cleanUp := true), [])
    else if !r.meta then (r, [NakMetadata])
    else if r.fileSize == 0 && r.resentFinished != RESEND_FINISHED_TIMES then SendFinished(r)
    else
      var r1 := if r.eof && r.resentEof < RESEND_EOF_TIMES then r.(resentEof := r.resentEof + 1) else r;
      var s1 := if !r.eof then [NakEof] else if r.resentEof < RESEND_EOF_TIMES then [AckEof] else [];
      var r2 := CheckFile(r1, max);
      (r2.0, s1 + r2.1)
  }

  function CheckFile(r: Request, max: nat): (Request, seq<Pdu>) {
    if r.file.None? then (r, [])
    else if |r.file.value.gaps| > 0 then (r, [Nak(Requested(r.file.value.gaps, max))])
    else if r.file.value.eofSum == r.file.value.partial && r.eof then SendFinished(r.(finished := true))
    else (r, [])
  }
}
