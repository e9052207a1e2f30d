/** The names of the journal's fields, in the order they are printed and looked up. */
module FieldNames {
  import opened JsonText

  /** Fields 20 and up belong to the request's file. */
  const BASE_FIELDS: nat := 20
  const FIELDS: nat := 26

  /** What the local entity has indicated. */
  function EntityName(k: nat): (s: string)
    requires 11 <= k < 19
    ensures 31 <= |s| <= 44 && s[0] == 'l'
  {
    if k == 11 then "local_entity.EOF_sent_indication"
    else if k == 12 then "local_entity.EOF_recv_indication"
    else if k == 13 then "local_entity.file_segment_recv_indication"
    else if k == 14 then "local_entity.transaction_finished_indication"
    else if k == 15 then "local_entity.suspended_indication"
    else if k == 16 then "local_entity.resumed_indication"
    else if k == 17 then "local_entity.Metadata_recv_indication"
    else "local_entity.Metadata_sent_indication"
  }

  function Name(k: nat): (s: string)
    requires k < FIELDS
    ensures 6 <= |s| <= 45 && 'a' <= s[0] <= 'z'
  {
    if k == 0 then "my_cfdp_id"
    else if k == 1 then "dest_cfdp_id"
    else if k == 2 then "transaction_sequence_number"
    else if k == 3 then "file_size"
    else if k == 4 then "source_file_name"
    else if k == 5 then "destination_file_name"
    else if k == 6 then "transmission_mode"
    else if k == 7 then "paused"
    else if k == 8 then "resent_eof"
    else if k == 9 then "resent_finished"
    else if k == 10 then "sent_first_data_round"
    else if k < 19 then EntityName(k)
    else if k == 19 then "messages_to_user"
    else if k == 20 then "file.is_temp"
    else if k == 21 then "file.next_offset_to_send"
    else if k == 22 then "file.total_size"
    else if k == 23 then "file.partial_checksum"
    else if k == 24 then "file.eof_checksum"
    else "file.missing_offsets"
  }

  /** Which name a key begins with, told from a few of its characters. */
  function Recognised(key: string): nat {
    if |key| < 6 then FIELDS
    else if key[0] == 'm' then (if key[1] == 'y' then 0 else 19)
    else if key[0] == 'd' then (if key[4] == '_' then 1 else 5)
    else if key[0] == 't' then (if key[5] == 'a' then 2 else 6)
    else if key[0] == 'f' then
      (match key[5]
       case 's' => 3 case 'i' => 20 case 'n' => 21 case 't' => 22 case 'p' => 23 case 'e' => 24 case _ => 25)
    else if key[0] == 's' then (if key[1] == 'o' then 4 else 10)
    else if key[0] == 'p' then 7
    else if key[0] == 'r' then (if |key| > 7 && key[7] == 'e' then 8 else 9)
    else if |key| < 23 then FIELDS
    else if key[13] == 'E' then (if key[17] == 's' then 11 else 12)
    else if key[13] == 'M' then (if key[22] == 'r' then 17 else 18)
    else (match key[13] case 'f' => 13 case 't' => 14 case 's' => 15 case _ => 16)
  }

  /** The characters by which these names are told apart. */
  lemma EntityChars(k: nat)
    requires 11 <= k < 19
    ensures k == 11 ==> EntityName(k)[13] == 'E' && EntityName(k)[17] == 's'
    ensures k == 12 ==> EntityName(k)[13] == 'E' && EntityName(k)[17] == 'r'
    ensures k == 13 ==> EntityName(k)[13] == 'f'
    ensures k == 14 ==> EntityName(k)[13] == 't'
    ensures k == 15 ==> EntityName(k)[13] == 's'
    ensures k == 16 ==> EntityName(k)[13] == 'r'
    ensures k == 17 ==> EntityName(k)[13] == 'M' && EntityName(k)[22] == 'r'
    ensures k == 18 ==> EntityName(k)[13] == 'M' && EntityName(k)[22] == 's'
  {
  }

  lemma EntityNameRecognised(k: nat, key: string)
    requires 11 <= k < 19 && EntityName(k) <= key
    ensures Recognised(key) == k
  {
    EntityChars(k);
    hide EntityName;
    var name := EntityName(k);
    assert key[0] == name[0] && key[13] == name[13] && key[17] == name[17] && key[22] == name[22];
  }

  lemma NameRecognised(k: nat, key: string)
    requires k < FIELDS && Name(k) <= key
    ensures Recognised(key) == k
  {
    if 11 <= k < 19 {
      EntityNameRecognised(k, key);
      return;
    }
    var name := Name(k);
    assert key[0] == name[0];
    if k == 0 { assert key[1] == 'y'; }
    else if k == 1 { assert key[4] == '_'; }
    else if k == 2 { assert key[5] == 'a'; }
    else if k == 3 { assert key[5] == 's'; }
    else if k == 4 { assert key[1] == 'o'; }
    else if k == 5 { assert key[4] == 'i'; }
    else if k == 6 { assert key[5] == 'm'; }
    else if k == 8 { assert key[7] == 'e'; }
    else if k == 9 { assert key[7] == 'f'; }
    else if k == 10 { assert key[1] == 'e'; }
    else if k == 19 { assert key[1] == 'e'; }
    else if k == 20 { assert key[5] == 'i'; }
    else if k == 21 { assert key[5] == 'n'; }
    else if k == 22 { assert key[5] == 't'; }
    else if k == 23 { assert key[5] == 'p'; }
    else if k == 24 { assert key[5] == 'e'; }
    else if k == 25 { assert key[5] == 'm'; }
  }

  /** No name begins with another: a key matches one entry of the list only. */
  lemma NamesApart(j: nat, k: nat)
    requires j < FIELDS && k < FIELDS && Name(j) <= Name(k)
    ensures j == k
  {
    hide Name, Recognised;
    NameRecognised(j, Name(k));
    NameRecognised(k, Name(k));
  }

  lemma RequestNamesPlain()
    ensures Plain("my_cfdp_id") && Plain("dest_cfdp_id") && Plain("transaction_sequence_number")
    ensures Plain("file_size") && Plain("source_file_name") && Plain("destination_file_name")
    ensures Plain("transmission_mode") && Plain("paused") && Plain("resent_eof")
    ensures Plain("resent_finished") && Plain("sent_first_data_round") && Plain("messages_to_user")
  {
  }

  lemma EofNamesPlain()
    ensures Plain("local_entity.EOF_sent_indication") && Plain("local_entity.EOF_recv_indication")
  {
  }

  lemma ReceiveNamesPlain()
    ensures Plain("local_entity.file_segment_recv_indication") && Plain("local_entity.transaction_finished_indication")
  {
  }

  lemma PauseNamesPlain()
    ensures Plain("local_entity.suspended_indication") && Plain("local_entity.resumed_indication")
  {
  }

  lemma MetadataNamesPlain()
    ensures Plain("local_entity.Metadata_recv_indication") && Plain("local_entity.Metadata_sent_indication")
  {
  }

  lemma FileNamesPlain()
    ensures Plain("file.is_temp") && Plain("file.next_offset_to_send") && Plain("file.total_size")
    ensures Plain("file.partial_checksum") && Plain("file.eof_checksum") && Plain("file.missing_offsets")
  {
  }

  /** Every name can stand between quotes as it is. */
  lemma NamePlain(k: nat)
    requires k < FIELDS
    ensures Plain(Name(k))
  {
    hide Plain;
    if 11 <= k < 19 {
      EofNamesPlain();
      ReceiveNamesPlain();
      PauseNamesPlain();
      MetadataNamesPlain();
    } else {
      RequestNamesPlain();
      FileNamesPlain();
    }
  }
}
