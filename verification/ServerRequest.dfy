/** The receiving side as the code keeps it: a request object whose handlers update its flags and its file. */
module ServerRequests {
  import opened Options
  import opened Bytes
  import opened Checksum
  import opened Intervals
  import opened LinkedList
  import F = FileObject
  import R = Receiver

  class ServerRequest {
    var file: F.File?
    var fileSize: nat
    var meta: bool
    var eof: bool
    var finished: bool
    var resentEof: nat
    var resentFinished: nat
    var paused: bool
    var cleanUp: bool

    ghost predicate Valid()
      reads this`file, file
      reads if file == null then {} else {file.missing}, if file == null then {} else file.missing.nodes
    {
      file != null ==> file.Valid()
    }

    /** The objects the file consists of. */
    ghost function FileParts(): set<object>
      reads this`file, file, if file == null then {} else {file.missing}
    {
      if file == null then {} else {file, file.missing} + file.missing.nodes + file.offsets
    }

    ghost function FileView(): Option<R.File>
      requires Valid()
      reads this`file, file, if file == null then {} else {file.missing}
      reads if file == null then {} else file.missing.nodes, if file == null then {} else file.offsets
    {
      if file == null then None else Some(file.View())
    }

    ghost function View(): R.Request
      requires Valid()
      reads this, file, if file == null then {} else {file.missing}
      reads if file == null then {} else file.missing.nodes, if file == null then {} else file.offsets
    {
      R.Request(FileView(), fileSize, meta, eof, finished, resentEof, resentFinished, paused, cleanUp)
    }

    constructor ()
      ensures Valid() && View() == R.NewRequest && FileParts() == {}
    {
      file, fileSize, meta, eof, finished := null, 0, false, false, false;
      resentEof, resentFinished, paused, cleanUp := 0, 0, false, false;
    }

    /** EOF: stores checksum and size in the file; `fault` marks the null file the code would dereference. */
    method ProcessEof(size: nat, sum: uint32) returns (fault: bool)
      requires Valid()
      modifies this, FileParts()
      ensures fault ==> R.ProcessEof(old(View()), size, sum) == R.Fault
      ensures !fault ==> Valid() && R.ProcessEof(old(View()), size, sum) == R.Live(View(), [])
      ensures !fault ==> fresh(FileParts() - old(FileParts()))
    {
      hide F.File.Valid;
      if file == null && meta {
        file := BuildTemporaryFile(size);
      }
      eof := true;
      if file == null {
        return true;
      }
      file.RecordEof(size, sum);
      fault := false;
    }

    /** A fresh temporary file whose one gap is the whole of it. */
    static method BuildTemporaryFile(size: nat) returns (f: F.File)
      ensures fresh(f) && fresh(f.missing) && fresh(f.missing.nodes) && fresh(f.offsets)
      ensures f.Valid() && f.View() == R.TempFile(size)
      ensures f.Gaps() == [Interval(0, size)] && f.data == [] && f.partial == 0
      ensures f.totalSize == size && f.isTemp && !f.atDest
    {
      f := new F.File();
      f.isTemp := true;
      f.atDest := false;
      f.totalSize := size;
      f.AddFirstOffset(size);
    }

    /** The metadata handler's effect on the request and its file. */
    method ProcessMetadata(size: nat)
      requires Valid()
      modifies this, FileParts()
      ensures Valid() && View() == R.ProcessMetadata(old(View()), size)
      ensures fresh(FileParts() - old(FileParts()))
    {
      hide F.File.Valid, F.File.View, F.File.Gaps, R.FileForMetadata;
      meta := true;
      fileSize := size;
      if size != 0 {
        ProcessFileMetadata(size);
      } else {
        eof := true;
        cleanUp := true;
        paused := true;
      }
    }

    method ProcessFileMetadata(size: nat)
      requires Valid()
      modifies this`file, FileParts()
      ensures Valid() && fresh(FileParts() - old(FileParts()))
      ensures FileView() == R.FileForMetadata(old(FileView()), size)
    {
      hide F.File.Valid, F.File.Gaps, R.AddFirstOffset, R.ChangeTempToActual;
      if file == null {
        file := new F.File();
        file.AddFirstOffset(size);
      } else if file.isTemp {
        var _ := file.ChangeTempToActual(size);
      } else {
        file.AddFirstOffset(size);
      }
    }

    /** A file data PDU: opens a temporary file when nothing is known of the transaction. */
    method OnData(packet: array<byte>, at: nat, dataLen: nat)
      requires Valid() && 4 <= dataLen < 0x1_0000 && at + dataLen <= packet.Length
      requires dataLen == 4 || dataLen >= 8
      modifies this`file, FileParts()
      ensures Valid() && fresh(FileParts() - old(FileParts()))
      ensures View() ==
        R.ProcessDataPdu(old(View()), Word(packet[..], at), packet[at + 4..at + dataLen])
    {
      hide F.File.Valid, F.File.View, F.File.Gaps, R.ProcessData, Quad;
      if !meta && file == null {
        file := BuildTemporaryFile(R.TEMP_FILESIZE);
      }
      if file == null {
        return;
      }
      file.ProcessDataPacket(packet, at, dataLen);
    }

    /** A directive PDU, dispatched on its code. */
    method OnDirective(p: R.Pdu) returns (fault: bool, sent: seq<R.Pdu>)
      requires Valid() && !p.Data?
      modifies this, FileParts()
      ensures fault ==> R.OnPdu(old(View()), p) == R.Fault
      ensures !fault ==> Valid() && R.OnPdu(old(View()), p) == R.Live(View(), sent)
      ensures !fault ==> fresh(FileParts() - old(FileParts()))
    {
      hide F.File.Valid, F.File.View, F.File.Gaps, R.ProcessMetadata, R.ProcessEof;
      fault, sent := false, [];
      match p
      case Metadata(size) =>
        if !meta {
          ProcessMetadata(size);
          sent := [R.AckMetadata];
        }
      case Eof(size, sum) =>
        if !eof {
          fault := ProcessEof(size, sum);
        }
      case AckFinished => finished := true;
      case _ =>
    }

    method ResendFinished() returns (sent: seq<R.Pdu>)
      requires Valid()
      modifies this`resentFinished
      ensures Valid() && (View(), sent) == R.SendFinished(old(View()))
    {
      hide F.File.Valid, F.File.View;
      sent := [R.Finished];
      resentFinished := resentFinished + 1;
    }

    /** A request that has been inactive for too long is up for removal, whatever its state. */
    method CheckInactive(expired: bool)
      requires Valid()
      modifies this`cleanUp
      ensures Valid() && View() == old(View()).(cleanUp := old(cleanUp) || expired)
      ensures cleanUp == (old(cleanUp) || expired)
    {
      if expired {
        cleanUp := true;
      }
    }

    /** A time-out: the flags are tested in the code's order, each branch sends at most one PDU. */
    method OnServerTimeOut(max: nat) returns (sent: seq<R.Pdu>)
      requires Valid()
      modifies this
      ensures Valid() && file == old(file) && (View(), sent) == R.OnTimeOut(old(View()), max)
      ensures cleanUp == R.OnTimeOut(old(View()), max).0.cleanUp
    {
      hide F.File.Valid, F.File.View, R.CheckFile;
      if paused {
        return [];
      }
      if finished && resentFinished != R.RESEND_FINISHED_TIMES {
        sent := ResendFinished();
        return;
      }
      if resentFinished == R.RESEND_FINISHED_TIMES && finished {
        cleanUp := true;
        return [];
      }
      if !meta {
        return [R.NakMetadata];
      }
      if fileSize == 0 && resentFinished != R.RESEND_FINISHED_TIMES {
        sent := ResendFinished();
        return;
      }
      sent := [];
      if !eof {
        sent := [R.NakEof];
      } else if resentEof < R.RESEND_EOF_TIMES {
        sent := [R.AckEof];
        resentEof := resentEof + 1;
      }
      var more := CheckCompletion(max);
      sent := sent + more;
    }

    /** Asks for gaps, or compares the checksums when there are none. */
    method CheckCompletion(max: nat) returns (sent: seq<R.Pdu>)
      requires Valid()
      modifies this`finished, this`resentFinished
      ensures Valid() && (View(), sent) == R.CheckFile(old(View()), max)
    {
      hide F.File.Valid;
      if file == null {
        return [];
      }
      var segments := file.NakSegments(max);
      if file.missing.count > 0 {
        return [R.Nak(segments)];
      }
      if file.eofSum == file.partial && eof {
        finished := true;
        sent := ResendFinished();
        return;
      }
      sent := [];
    }
  }
}
