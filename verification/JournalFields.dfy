/** Which key of the journal stands for which field of a request, in the text printed and in the reader. */
module JournalFields {
  import opened Bytes
  import opened Options
  import opened Decimal
  import opened JsonText
  import opened FieldNames
  import opened Journal
  import opened JournalLemmas
  import opened JournalText

  // ----- printing

  /** The keys in the order they are printed, each with what is printed for it. */
  function BaseFields(r: Request): (fs: seq<(string, string)>)
    ensures |fs| == 20
  {
    var e := r.local;
    [("my_cfdp_id", Signed(r.myId)), ("dest_cfdp_id", Signed(r.destId)),
     ("transaction_sequence_number", Digits(r.number)), ("file_size", Signed(r.fileSize)),
     ("source_file_name", "\"" + r.sourceName + "\""), ("destination_file_name", "\"" + r.destinationName + "\""),
     ("transmission_mode", Signed(r.mode)), ("paused", if r.paused then "1" else "0"),
     ("resent_eof", Signed(r.resentEof)), ("resent_finished", Signed(r.resentFinished)),
     ("sent_first_data_round", Signed(r.sentFirstRound)),
     ("local_entity.EOF_sent_indication", Signed(e.eofSent)),
     ("local_entity.EOF_recv_indication", Signed(e.eofReceived)),
     ("local_entity.file_segment_recv_indication", Signed(e.segmentReceived)),
     ("local_entity.transaction_finished_indication", Signed(e.finished)),
     ("local_entity.suspended_indication", Signed(e.suspended)),
     ("local_entity.resumed_indication", Signed(e.resumed)),
     ("local_entity.Metadata_recv_indication", Signed(e.metadataReceived)),
     ("local_entity.Metadata_sent_indication", Signed(e.metadataSent)),
     ("messages_to_user", "[]")]
  }

  /** The same for the request's file, without its gaps. */
  function FileFields(f: Saved): (fs: seq<(string, string)>)
    ensures |fs| == 5
  {
    [("file.is_temp", Signed(f.isTemp)), ("file.next_offset_to_send", Signed(f.nextOffset)),
     ("file.total_size", Signed(f.totalSize)), ("file.partial_checksum", Signed(f.partialSum)),
     ("file.eof_checksum", Signed(f.eofSum))]
  }

  function LineOf(f: (string, string)): string {
    "    \"" + f.0 + "\":" + f.1 + ",\n"
  }

  function LinesOf(fs: seq<(string, string)>): string {
    if fs == [] then "" else LineOf(fs[0]) + LinesOf(fs[1..])
  }

  lemma EntityLine(r: Request, k: nat)
    requires 11 <= k < 19
    ensures BaseFields(r)[k] == (Name(k), Print(ValueOf(r, k)))
  {
    hide Signed, Digits;
  }

  lemma FlagText(b: bool)
    ensures Signed(if b then 1 else 0) == if b then "1" else "0"
  {
  }

  lemma NumberLine(r: Request, k: nat)
    requires k < 4 || k == 6 || 8 <= k <= 10
    ensures BaseFields(r)[k] == (Name(k), Print(ValueOf(r, k)))
  {
    hide Signed, Digits;
  }

  lemma NameLine(r: Request, k: nat)
    requires k == 4 || k == 5
    ensures BaseFields(r)[k] == (Name(k), Print(ValueOf(r, k)))
  {
    hide Signed, Digits;
  }

  lemma FlagLine(r: Request)
    ensures BaseFields(r)[7] == (Name(7), Print(ValueOf(r, 7)))
  {
    FlagText(r.paused);
    hide Signed, Digits;
  }

  lemma MessagesLine(r: Request)
    ensures BaseFields(r)[19] == (Name(19), Print(ValueOf(r, 19)))
  {
    hide Signed, Digits;
    assert Print(Numbers([])) == "[]";
  }

  lemma BaseLine(r: Request, k: nat)
    requires k < 20
    ensures BaseFields(r)[k] == (Name(k), Print(ValueOf(r, k)))
  {
    hide Name, ValueOf, Print, BaseFields;
    if 11 <= k < 19 { EntityLine(r, k); }
    else if k == 4 || k == 5 { NameLine(r, k); }
    else if k == 7 { FlagLine(r); }
    else if k == 19 { MessagesLine(r); }
    else { NumberLine(r, k); }
  }

  lemma FileLine(r: Request, k: nat)
    requires r.file.Some? && k < 5
    ensures FileFields(r.file.value)[k] == (Name(20 + k), Print(ValueOf(r, 20 + k)))
  {
    hide Signed;
  }

  lemma {:induction false} SameLines(r: Request, fs: seq<(string, string)>, k: nat, n: nat)
    requires k <= n <= FIELDS && |fs| == n - k && (n > BASE_FIELDS ==> r.file.Some?)
    requires forall i :: k <= i < n ==> fs[i - k] == (Name(i), Print(ValueOf(r, i)))
    ensures Lines(EntriesFrom(r, k, n)) == LinesOf(fs)
    decreases n - k
  {
    hide Name, ValueOf, Print, EntriesFrom, Lines;
    if k < n {
      forall i | k + 1 <= i < n ensures fs[1..][i - (k + 1)] == (Name(i), Print(ValueOf(r, i))) {
        assert fs[1..][i - (k + 1)] == fs[i - k];
      }
      SameLines(r, fs[1..], k + 1, n);
      FirstLine(r, k, n);
      assert fs[k - k] == (Name(k), Print(ValueOf(r, k)));
    } else {
      NoLines(r, k);
    }
  }

  /** The lines printed for a request: every field behind its own key, in this order. */
  lemma BaseTextLines(r: Request)
    ensures BaseText(r) == "{\n" + LinesOf(BaseFields(r))
  {
    hide Name, ValueOf, Print, BaseFields, LinesOf;
    forall i | 0 <= i < 20 ensures BaseFields(r)[i - 0] == (Name(i), Print(ValueOf(r, i))) { BaseLine(r, i); }
    SameLines(r, BaseFields(r), 0, 20);
  }

  /** And those printed for its file. */
  lemma FileHeadLines(r: Request)
    requires r.file.Some?
    ensures FileHead(r) == LinesOf(FileFields(r.file.value)) + ("    \"" + "file.missing_offsets" + "\":[")
  {
    hide Name, ValueOf, Print, FileFields, LinesOf, Lines, EntriesFrom;
    forall i | 20 <= i < 25 ensures FileFields(r.file.value)[i - 20] == (Name(i), Print(ValueOf(r, i))) {
      FileLine(r, i - 20);
    }
    SameLines(r, FileFields(r.file.value), 20, 25);
    LastName();
    FourJoined(LinesOf(FileFields(r.file.value)), "    \"", Name(25), "\":[");
  }

  lemma LastName()
    ensures Name(25) == "file.missing_offsets"
  {
  }

  lemma FourJoined(a: string, b: string, c: string, d: string)
    ensures a + b + c + d == a + (b + c + d)
  {
  }

  /** A request without a file never takes more than 999 characters: what is longer is cut off. */
  lemma WrittenBounded(r: Request)
    requires r.file.None?
    ensures |Written(r)| == Min(|BaseText(r)|, 999)
    ensures Written(r)[..|Written(r)| - 2] == BaseText(r)[..|Written(r)| - 2]
  {
    hide Lines;
  }

  // ----- reading

  lemma IdFieldsStored(r: Request, v: string, d: uint32)
    ensures Match(r, "my_cfdp_id", v, 0, d) == Some(r.(myId := Atol(v) % 0x1_0000_0000))
    ensures Match(r, "dest_cfdp_id", v, 0, d) == Some(r.(destId := Atol(v) % 0x1_0000_0000))
    ensures Match(r, "transaction_sequence_number", v, 0, d) ==
      Some(r.(number := Atol(v) % 0x1_0000_0000_0000_0000))
    ensures Match(r, "file_size", v, 0, d) == Some(r.(fileSize := Atol(v) % 0x1_0000_0000))
    ensures Match(r, "source_file_name", v, 0, d) == Some(r.(sourceName := v[..Min(255, |v|)]))
    ensures Match(r, "destination_file_name", v, 0, d) == Some(r.(destinationName := v[..Min(255, |v|)]))
    ensures Match(r, "messages_to_user", v, 0, d) == Some(r)
  {
    hide Match, Atol;
    MatchesOnce(r, 0, v, 0, d);
    MatchesOnce(r, 1, v, 0, d);
    MatchesOnce(r, 2, v, 0, d);
    MatchesOnce(r, 3, v, 0, d);
    MatchesOnce(r, 4, v, 0, d);
    MatchesOnce(r, 5, v, 0, d);
    MatchesOnce(r, 19, v, 0, d);
  }

  lemma StateFieldsStored(r: Request, v: string, d: uint32)
    ensures Match(r, "transmission_mode", v, 0, d) == Some(r.(mode := Atol(v) % 256))
    ensures Match(r, "paused", v, 0, d) == Some(r.(paused := Atol(v) != 0))
    ensures Match(r, "resent_eof", v, 0, d) == Some(r.(resentEof := Atol(v) % 256))
    ensures Match(r, "resent_finished", v, 0, d) == Some(r.(resentFinished := Atol(v) % 256))
    ensures Match(r, "sent_first_data_round", v, 0, d) == Some(r.(sentFirstRound := Atol(v) % 256))
  {
    hide Match, Atol;
    MatchesOnce(r, 6, v, 0, d);
    MatchesOnce(r, 7, v, 0, d);
    MatchesOnce(r, 8, v, 0, d);
    MatchesOnce(r, 9, v, 0, d);
    MatchesOnce(r, 10, v, 0, d);
  }

  /** The bits of the local entity about EOF, segments and the end. */
  lemma EntityFieldsStored(r: Request, v: string, d: uint32)
    ensures var e, b := r.local, Atol(v) % 2;
      && Match(r, "local_entity.EOF_sent_indication", v, 0, d) == Some(r.(local := e.(eofSent := b)))
      && Match(r, "local_entity.EOF_recv_indication", v, 0, d) == Some(r.(local := e.(eofReceived := b)))
      && Match(r, "local_entity.file_segment_recv_indication", v, 0, d) == Some(r.(local := e.(segmentReceived := b)))
      && Match(r, "local_entity.transaction_finished_indication", v, 0, d) == Some(r.(local := e.(finished := b)))
  {
    hide Match, Atol;
    MatchesOnce(r, 11, v, 0, d);
    MatchesOnce(r, 12, v, 0, d);
    MatchesOnce(r, 13, v, 0, d);
    MatchesOnce(r, 14, v, 0, d);
  }

  /** And those about pauses and metadata. */
  lemma PauseFieldsStored(r: Request, v: string, d: uint32)
    ensures var e, b := r.local, Atol(v) % 2;
      && Match(r, "local_entity.suspended_indication", v, 0, d) == Some(r.(local := e.(suspended := b)))
      && Match(r, "local_entity.resumed_indication", v, 0, d) == Some(r.(local := e.(resumed := b)))
      && Match(r, "local_entity.Metadata_recv_indication", v, 0, d) == Some(r.(local := e.(metadataReceived := b)))
      && Match(r, "local_entity.Metadata_sent_indication", v, 0, d) == Some(r.(local := e.(metadataSent := b)))
  {
    hide Match, Atol;
    MatchesOnce(r, 15, v, 0, d);
    MatchesOnce(r, 16, v, 0, d);
    MatchesOnce(r, 17, v, 0, d);
    MatchesOnce(r, 18, v, 0, d);
  }

  /** The file's fields; the first of them opens the file, which has `d` bytes on disk, and without it the others are
      errors. */
  lemma FileFieldsStored(r: Request, v: string, d: uint32)
    ensures var f, n := if r.file.Some? then r.file.value else Saved(0, 0, d, 0, 0, []), Atol(v) % 0x1_0000_0000;
      && Match(r, "file.is_temp", v, 0, d) == Some(r.(file := Some(f.(isTemp := Atol(v) % 256))))
      && (r.file.Some? ==>
            && Match(r, "file.next_offset_to_send", v, 0, d) == Some(r.(file := Some(f.(nextOffset := n))))
            && Match(r, "file.total_size", v, 0, d) == Some(r.(file := Some(f.(totalSize := n))))
            && Match(r, "file.partial_checksum", v, 0, d) == Some(r.(file := Some(f.(partialSum := n))))
            && Match(r, "file.eof_checksum", v, 0, d) == Some(r.(file := Some(f.(eofSum := n))))
            && Match(r, "file.missing_offsets", v, 0, d) ==
                 Some(r.(file := Some(f.(missing := f.missing + ReadGaps(v))))))
      && (r.file.None? ==>
            Match(r, "file.next_offset_to_send", v, 0, d) == Match(r, "file.total_size", v, 0, d) ==
            Match(r, "file.partial_checksum", v, 0, d) == Match(r, "file.eof_checksum", v, 0, d) ==
            Match(r, "file.missing_offsets", v, 0, d) == None)
  {
    hide Match, Atol, ReadGaps;
    MatchesOnce(r, 20, v, 0, d);
    MatchesOnce(r, 21, v, 0, d);
    MatchesOnce(r, 22, v, 0, d);
    MatchesOnce(r, 23, v, 0, d);
    MatchesOnce(r, 24, v, 0, d);
    MatchesOnce(r, 25, v, 0, d);
  }
}
