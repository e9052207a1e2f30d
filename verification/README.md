# CFDP transfer, codecs and journal

A Dafny model of a C implementation of the CCSDS File Delivery Protocol (CCSDS 727.0-B-4) with machine-checked
proofs about its acknowledged mode: a sender cuts a file into segments, a receiver keeps a linked list of missing
byte ranges, NAKs ask for them, a running checksum is compared with the one in EOF, and FINISHED closes the
transaction. `dafny verify dfyconfig.toml` checks everything.

## How the model is built

| part | files |
|---|---|
| missing ranges, checksum, segments | `Intervals`, `Checksum`, `Segments`, `FileLemmas`, `TempLemmas`, `Delivery` |
| one receiver, the whole protocol, runs | `Receiver`, `Protocol`, `Safety`, `Progress`, `Doom`, `Recovery`, `Limits`, `Finishing`, `Closing` |
| the code's mutable objects | `LinkedList`, `FileObject`, `ServerRequest`, `SenderRequest`, `Sweep` |
| packet codecs | `Bytes`, `Division`, `HeaderCodec`, `NakCodec`, `MetadataCodec`, `Wire` |
| journal and tokenizer | `Jsmn`, `JsonText`, `Decimal`, `FieldNames`, `Journal`, `JournalLemmas`, `JournalText`, `JournalFields`, `JournalFile` |

The receiver is a value (`Receiver.Request`) with functions for every PDU and time-out. The classes hold the same
state the way the C structs do (linked nodes, offsets edited in place, buffers, counters), and each of their methods
is proved to compute the function on the object's `View()`. `Protocol` puts one sender and one receiver on a
network that is the set of all PDUs sent and not lost for good: any of them may arrive where it was sent to, at any time
and any number of times. A run is any sequence of starts, deliveries, time-outs and losses of any set of PDUs. The main
results are about all runs.

Assumptions shared by all results: allocation, reads, writes, seeks and renames succeed; the sender's file does not
change; file sizes are below 2^31; the burst and the replies to NAKs use the same segment size.

## Where the code departs from its purpose

Each of these is a lemma below, with the exact condition.

- A file longer than 1000 bytes whose segment size divides 1000 can lose everything past byte 1000: promotion of a
  temporary file without gaps does not add the rest (`LosesTail`). Before completion the transfer is then reported
  complete or waits for ever, depending on the checksum of the lost part (`Limits.TailNeverRequested`); after it, the
  delivered file is replaced by the short one (`Limits.UnsafeRun`). These are exactly the unsafe files
  (`Limits.SafeExactly`), and of any file exactly the runs without such a step keep all claims true
  (`Safety.EveryRunSafe`, `Limits.FinishedRunsExactly`).
- A duplicate of the metadata PDU that arrives after the request was removed truncates the delivered file, and can
  lose it for good (`Limits.DeliveryCanBeUndone`, `Limits.DeliveryLostForGood`). `Safety.HonestStep` says exactly
  which steps make a true claim false.
- Data that overtakes the metadata can doom a transfer: a short file whose last segment is taken before the
  metadata, a file of 1000 bytes or more whose segments before byte 1000 are opened again and counted twice, a list
  that is empty too early. `Doom.PromotionDecides` gives the exact condition for a promotion, `Recovery.StateDecides`
  for every state, `Finishing.FinishableExactly` for a file and `Finishing.FinishableExactlySizes` for a size.
- What is sent at the start is sent once: when all of it is lost the transfer never begins (`Finishing.BurstLost`), and
  the server recovers exactly if something reaches it from which it learns of the transfer (`Recovery.LossExactly`).
- FINISHED is sent once: when it is lost the sender never learns that the file is there (`Finishing.NeverTold`;
  `Recovery.SilentExactly` is the exact condition).
- EOF that arrives first, and a copy of EOF after every successful transfer, makes the server dereference a null file
  (`Limits.EofFirstCrashes`, `Limits.LateEofCrashes`; `Limits.CrashedIff` is the exact condition). In the model the
  server stops for good; safety covers these runs, progress starts from live servers.
- After a request has been removed the model opens a new one for the next PDU of the transaction. The code does so only
  when a PDU of another transaction has come in between: `app->current_request` is never cleared
  (`Program/src/app_control.c:89-108`, `Program/src/app_control.c:257-270`), so otherwise it goes on using the freed
  request. `Limits.DeliveryCanBeUndone`, `Limits.DeliveryLostForGood`, `Limits.UnsafeRun` and `Limits.LateEofCrashes`
  are runs with such an interlude.
- FINISHED for message-only transfers is never sent (`Closing.MessagesOnlyStaysSilent`): the request is paused.
- A header with an unsupported entity id length is not rejected (`HeaderCodec.MalformedIff`): a 32-bit value is
  compared with a 64-bit -1.
- The metadata builder adds an absolute index to a relative one, in one octet: long names lose the messages behind
  them (`MetadataCodec.MetadataRoundTripIff`, `MetadataCodec.MessageLost`).
- A message that lacks the zero behind "cfdp" sends the reader back to the packet's front, where it may go round for ever
  (`MetadataCodec.EndlessFromFront`); an unknown message type leaves an uninitialised pointer in the list.
- The checksum omits the last whole word when the length is a multiple of four (`Checksum.MatchesStandardIff`).
- A journal with an empty gap list, or with more than 101 gaps, cannot be read back (`JournalText.RoundTripIff`).
- The sender compares the whole directive octet of an ACK with a bare code, so ACKs of EOF and metadata change
  nothing (`Protocol.OnSenderPdu`).

## Model

| member | source | states |
|---|---|---|
| Safety.EveryRunSafe | Program/src/protocol_handler.c:482-929 | For files of every size, in every run over a network that loses, duplicates and reorders and in which no step loses a tail (metadata meeting a full temporary file while the real one is longer): all claims of completion along the run (FINISHED or its ACK sent or received, at either side) are true if and only if no step undoes a delivery. Then a sender that has received FINISHED has its file at the destination, byte for byte, with nothing listed as missing. |
| Limits.FinishedRunsExactly | Program/src/protocol_handler.c:482-929 | For files of every size and every run at whose end the sender has received FINISHED: all claims along the run were true if and only if no step undid a delivery and none lost a tail. |
| Safety.HonestStep | Program/src/protocol_handler.c:482-929 | The exact step condition, for all sizes: a true claim becomes false in exactly two kinds of step, when metadata is processed by a server without a file or with gaps left, and when it promotes a full temporary file shorter than the real one. |
| Safety.InvStep | Program/src/protocol_handler.c:482-929 | For all sizes every step of either side, but one that loses a tail, keeps the invariant: all PDUs sent lie on the segment grid and tell the truth about size and checksum, and the server's bytes agree with the file wherever nothing is missing. |
| Safety.CompleteOnPdu | Program/src/protocol_handler.c:861-929 | For all sizes: a complete destination survives a PDU if and only if that PDU neither makes the server start over nor loses a tail. |
| Safety.CompleteOnTick | Program/src/protocol_handler.c:795-858 | A time-out keeps a complete destination complete, and on a request not yet finished it claims completion only of a complete one. A reopened request that hears a copy of ACK(FINISHED) is finished without being complete: `Limits.DeliveryLostForGood`. |
| Safety.NoNewClaim | Program/src/protocol_handler.c:614-668 | Starts and deliveries, for all sizes, make no claim of completion nobody had made before. |
| Limits.LostTail | Program/src/filesystem_funcs.c:304-321 | What a step that loses a tail does in a live server, in every state the invariants allow: before any claim it dooms the transfer, after one it makes the claim false. |
| Limits.SafeExactly | Program/src/filesystem_funcs.c:290-321 | The exact files that are safe: all claims are true in all runs in which no step undoes a delivery if and only if the file has at most 1000 bytes or its segment size does not divide 1000. |
| Limits.TailNeverRequested | Program/src/filesystem_funcs.c:304-321 | For every file of an unsafe size some run loses everything past byte 1000: it is never asked for. The transfer is then reported complete if the checksum of the lost part is zero, and starves if it is not. |
| Limits.StarvedForever | Program/src/protocol_handler.c:837-856 | A starved transfer never finishes: no continuation brings FINISHED to the sender. |
| Limits.UnsafeRun | Program/src/filesystem_funcs.c:304-321 | For every file of an unsafe size, whatever its bytes: after a delivery that everybody has confirmed, copies of the segments before byte 1000 and of the metadata leave 1000 bytes at the destination, and no step has undone the delivery by starting over. |
| Limits.DeliveryCanBeUndone | Program/src/protocol_handler.c:745-768 | Delivered does not mean it stays delivered: for every file some run completes and then, on a duplicate of the metadata PDU, truncates the destination to nothing. |
| Limits.DeliveryLostForGood | Program/src/protocol_handler.c:795-929 | And for every file some run goes on: a copy of ACK(FINISHED) makes the reopened request finished, the next time-out sends FINISHED again, and the one after it closes the request over an empty file. |
| Limits.LateMetadataTruncates | Program/src/filesystem_funcs.c:38-80 | A metadata PDU that meets no live request truncates the destination file. |
| Limits.CleanTransferEnds | Program/src/protocol_handler.c:482-502 | The undisturbed run ends with the sender finished, the destination equal to the file and the request removed. |
| Limits.StartArrivesInOrder | Program/src/protocol_handler.c:482-502 | What the sender transmits at its start has metadata first, EOF last and only data between; arriving in that order, nothing lost, it leaves a live server with metadata, EOF, every byte and equal checksums. |
| Finishing.ShortFileGetsStuck | Program/src/filesystem_funcs.c:304-321 | For every file shorter than the temporary size: when all its data, the last segment in particular, overtakes its metadata, promotion leaves an empty gap and the transfer is doomed. |
| Doom.DoomedForever | Program/src/protocol_handler.c:795-929 | A doomed transfer never finishes: every continuation without a false claim leaves it doomed, and the sender without FINISHED. |
| Recovery.StateDecides | Program/src/protocol_handler.c:795-929 | The exact condition of a state, in every run, for all sizes and whatever has been lost: with a started sender and no claim yet the transfer can be finished if and only if the server is alive and one of these holds: it knows nothing, but metadata, a request for it or salvageable data is on its way; it has no file yet; its metadata is in and its file exact; its temporary file is salvageable, that is, its list is promotable or packets on their way make it so. |
| Recovery.LossExactly | Program/src/protocol_handler.c:548-668 | For files that always promote, in every run: whatever has been lost, the transfer can be finished if and only if the server is alive and knows of it, or metadata, a request for it, data, or a NAK that brings data is on its way. |
| Recovery.NothingRecovers | Program/src/protocol_handler.c:482-502 | When everything is lost before the server learns of the transfer nothing ever happens again: the burst is sent once. |
| Recovery.FinishedLostForGood | Program/src/protocol_handler.c:801-808 | When FINISHED has been sent as often as it ever is and everything on its way is lost, no continuation tells the sender. |
| Recovery.SilentExactly | Program/src/protocol_handler.c:795-858 | Exactly when the sender of a file that always promotes can still learn of the end although everything on its way has been lost: when it has already, or the server is alive with a request that is not finished or has FINISHED left to send. |
| Recovery.SalvagedBefore | Program/src/protocol_handler.c:870-883 | No packet makes a temporary file salvageable that was not so while the packet was on its way. |
| Recovery.TakesFrom | Program/src/protocol_handler.c:861-883 | From any temporary file whose missing segments from an offset on are on their way a run takes exactly these. |
| Finishing.BurstLost | Program/src/protocol_handler.c:482-502 | For every file: with everything sent at the start lost, the world never changes again. |
| Finishing.NeverTold | Program/src/protocol_handler.c:795-858 | For every file: the undisturbed transfer with FINISHED lost, and no copy of anything left, ends with the file delivered and a sender that never learns of it. |
| Doom.PromotionDecides | Program/src/filesystem_funcs.c:304-321 | The deciding step, in every run and for all sizes: when metadata on its way meets a temporary file, the transfer can be finished from there if and only if the list is promotable, that is: no byte past 1000 is lost with an empty list, the last gap starts inside the file, and the received bytes it opens again have checksums that sum to zero. |
| Finishing.DoubleCount | Program/src/filesystem_funcs.c:304-321 | When a packet can end at byte 1000 and the segments from some later one up to it arrive first, with checksums that do not sum to zero, they are asked for again and counted twice: the transfer is doomed, for every size of at least 1000 bytes. |
| Finishing.DoubleCountStarves | Program/src/filesystem_funcs.c:304-321 | For a file of exactly 1000 bytes such a run ends with every byte received, nothing listed as missing, and checksums that differ for ever. |
| Finishing.FinishableExactly | Program/src/protocol_handler.c:482-929 | Exactly when a file can always be finished, whatever has been lost: from every reachable state with a started sender, a live server that knows of the transfer or can still learn of it, and no claim yet, there is a continuation, honest throughout, that brings FINISHED to the sender, if and only if the file is longer than 1000 bytes and its segment size does not divide 1000, or it is exactly 1000 bytes long and no segment but the first has a checksum other than zero. |
| Finishing.FinishableExactlySizes | Program/src/protocol_handler.c:482-929 | The same for all files of a size: `size > 1000` and `seg` does not divide 1000, or `size == 1000` and `seg` is at least 1000, or 4, or 996 (there the later segments have four bytes, whose checksum the code computes as zero). |
| Limits.CrashedIff | Program/src/protocol_handler.c:728-741 | Over whole runs: the server has dereferenced a null file if and only if in some step an EOF not yet processed met a request, or no request at all, with neither file nor metadata. |
| Limits.EofFirstCrashes | Program/src/protocol_handler.c:728-741 | It does when EOF arrives first. |
| Limits.LateEofCrashes | Program/src/protocol_handler.c:728-741 | It does after every transfer that went well, on a copy of EOF that arrives when the request has been removed. |
| Progress.TrackedStep | Program/src/protocol_handler.c:216-248 | Whatever the sizes, every step keeps temporary files exact, that is gaps, bytes and checksum together account for the whole file, and for files that always promote the real ones too. |
| Progress.TrackedRun | Program/src/protocol_handler.c:614-929 | The same over whole runs. |
| Progress.NakExchange | Program/src/protocol_handler.c:548-609 | With metadata in, for any sizes: a time-out followed by the NAK's arrival puts every packet of the requested gaps on the network, and claims nothing. |
| Progress.RoundRun | Program/src/protocol_handler.c:548-609 | For any sizes: one loss-free round in the running protocol closes exactly the gaps the NAK listed, the first `min(gaps, max)` of them. |
| Progress.CollectAll | Program/src/protocol_handler.c:795-858 | For any sizes: once metadata and EOF are in and the file is exact, k gaps are closed and FINISHED is delivered with k / max, rounded up, and one more time-outs, without a false claim on the way. |
| Progress.GetsMetadata | Program/src/protocol_handler.c:810-814 | With nothing on its way a server that knows of the transfer gets the metadata: its time-out asks, the sender repeats it. The file then has the gaps it had. |
| Progress.GetsEof | Program/src/protocol_handler.c:822-825 | The same for EOF, once metadata is in. |
| Progress.CanFinish | Program/src/protocol_handler.c:795-929 | For files of any size and whatever has been lost: from any live server that knows of the transfer and has no file yet, an exact file, or a temporary one that is promotable, or knows nothing while metadata or a request for it is on its way, a run delivers the file and FINISHED, with one time-out for each of metadata and EOF that is neither there nor on its way, k / max, rounded up, for k gaps, and one more, without a false claim on the way. |
| Progress.EveryRunCanFinish | Program/src/protocol_handler.c:795-929 | Over runs that lose, repeat and reorder: from every reachable state of a file that always promotes, with a started sender and a live server whose request is not finished, or without one while metadata or a request for it is on its way, such a continuation exists. |
| Progress.DeliveryRun | Program/src/protocol_handler.c:861-883 | Delivering data PDUs one by one in a run is delivering their segments to the file. |
| Intervals.ReceiveIsSubtraction | Program/src/filesystem_funcs.c:197-277 | Receiving a non-empty range removes exactly its bytes from the missing set when all of them are missing, else changes nothing and reports it; sorted, disjoint, non-touching lists stay so, and the size drops by the range's length. |
| Intervals.TakenIffAllMissing | Program/src/filesystem_funcs.c:197-209 | `find_nak` finds a gap for a non-empty range exactly when every byte of it is missing. |
| Intervals.ReceiveKeepsCanonicalIff | Program/src/filesystem_funcs.c:228-275 | For arbitrary bounds the list stays sorted, disjoint and non-touching unless the range is reversed, or empty and strictly inside a gap. |
| Intervals.CanonicalUnique | Program/src/filesystem_funcs.c:212-277 | The list is determined by the set of bytes it misses. |
| LinkedList.List.Insert | Program/src/list.c:60-75 | Adds in front of a well-linked list and leaves it well linked, with the right count. |
| LinkedList.List.Push | Program/src/list.c:82-103 | Adds at the end. |
| LinkedList.List.Pop | Program/src/list.c:37-52 | Takes the last element; an empty list stays as it is. |
| LinkedList.List.RemoveNode | Program/src/list.c:123-136 | Takes out a node held during an iteration: element, contents and chain without it. |
| LinkedList.List.FindNode | Program/src/list.c:264-283 | Returns the first node whose element satisfies the test, or nothing when none does. |
| LinkedList.List.Link | Program/src/filesystem_funcs.c:246-275 | Linking a node between two neighbours keeps both directions of the chain, the count and the order. |
| FileObject.File.FindNak | Program/src/filesystem_funcs.c:197-226 | Over the linked list: the node of the first enclosing gap. |
| FileObject.File.ReceiveOffset | Program/src/filesystem_funcs.c:212-277 | The in-place edit of gap nodes computes `Intervals.Receive` on the list's gaps, and keeps the structure. |
| FileObject.File.AddFirstOffset | Program/src/filesystem_funcs.c:279-288 | The gap [0, size) goes in front. |
| FileObject.File.ChangeTempToActual | Program/src/filesystem_funcs.c:304-321 | Pops the last gap, moves its end to the real size and pushes it back; with no gap it fails after the rename. |
| FileObject.File.ProcessDataPacket | Program/src/protocol_handler.c:216-248 | A data PDU changes gaps, bytes and running checksum as the receiver function says: only a segment that one gap contains is written and counted. |
| FileObject.File.Scope | Program/src/packet.c:533-572 | NAK scopes read through the sentinels are the first gap's start and the last gap's end. |
| FileLemmas.GapsStayOnGrid | Program/src/filesystem_funcs.c:228-275 | Segment grid: a packet the sender can emit keeps every gap's start on a multiple of the segment size and its end on one or on the file's end. |
| Segments.RetransmitAligned | Program/src/protocol_handler.c:548-574 | Every retransmitted packet starts on the grid when the requested range does. |
| Segments.RetransmitOnGrid | Program/src/protocol_handler.c:548-574 | The retransmission loop emits exactly the grid segments of the range. |
| Safety.SenderIsGood | Program/src/protocol_handler.c:548-668 | Whatever the sender answers, every packet it emits is a whole grid segment with the file's bytes. |
| FileLemmas.TakenIffFirstByteMissing | Program/src/filesystem_funcs.c:197-209 | On the grid a packet is accepted exactly when its first byte is missing. |
| FileLemmas.AgreementKept | Program/src/protocol_handler.c:216-248 | Each byte below the bound is missing or the sender's after any packet, and a received byte is never written again. |
| FileLemmas.ExactStep | Program/src/protocol_handler.c:216-248 | A packet keeps the file exact: bytes, gaps and the checksum of the segments received, each counted once. |
| FileLemmas.ExactAndEmptyIsComplete | Program/src/protocol_handler.c:839-850 | With no gap left the bytes are the sender's and the running checksum is the one EOF carries, so the completion test succeeds. |
| Segments.SumReceivedAdds | Program/src/protocol_handler.c:244 | Accepting a segment adds its checksum to the sum over received segments, wherever it lies, modulo 2^32. |
| Segments.SumReceivedAll | Program/src/protocol_handler.c:386-397 | When everything is received that sum is the sender's checksum. |
| Checksum.CalcCheckSum | Program/src/filesystem_funcs.c:149-176 | The summing loop and its padded last chunk compute the checksum function. |
| Checksum.MatchesStandardIff | Program/src/filesystem_funcs.c:149-176 | That function is the modular checksum of section 4.1.2 of CCSDS 727.0-B-4 if and only if the length is no multiple of four or the last word is zero. |
| Checksum.OneWordSum | Program/src/filesystem_funcs.c:149-176 | One word, padded with zeros behind, counts as a big-endian number. |
| Delivery.DeliveryConfluent | Program/src/protocol_handler.c:216-248 | After metadata, gaps, bytes and checksum depend only on which grid segments arrived, not on order or repetition. |
| Delivery.DeliverDescribed | Program/src/protocol_handler.c:216-248 | After any deliveries exactly the segments not delivered are missing. |
| Delivery.GapsFilled | Program/src/protocol_handler.c:548-609 | Receiving the packets sent for the first k gaps removes exactly those gaps. |
| Delivery.RoundsComplete | Program/src/packet.c:533-572 | With `max` gaps a NAK, any number of rounds that covers the gaps leaves the sender's file and checksum. |
| TempLemmas.PromotionExactIff | Program/src/filesystem_funcs.c:304-321 | Promotion yields the list of what is really missing if and only if the last gap still ends at the temporary size (or the shorter real one) and starts inside the real file; with no gap, if and only if the file is no longer than that. |
| TempLemmas.PromotedFields | Program/src/filesystem_funcs.c:290-321 | Promotion moves the file to its destination in any case; only with a gap left does it stop being temporary and learn its size. Bytes and checksums stay. |
| TempLemmas.SegmentEndWraps | Program/src/protocol_handler.c:226-230 | The end of a segment is counted in 32 bits. |
| TempLemmas.TempExactStep | Program/src/protocol_handler.c:870-883 | While metadata is missing, for all sizes, gaps, bytes and checksum stay exact, and the last gap keeps its end at 1000 unless a packet can end there. |
| TempLemmas.PromotionExact | Program/src/filesystem_funcs.c:304-321 | Promotion of such a file yields an exact file of the real size if and only if the list is promotable; in particular received bytes that are opened again must have checksums that sum to zero. |
| TempLemmas.PromotedSum | Program/src/filesystem_funcs.c:304-321 | The running checksum after promotion is that of the bytes still counted as received plus that of the bytes opened again. |
| ServerRequests.ServerRequest.OnData | Program/src/protocol_handler.c:870-883 | The request object refines the receiver function on data PDUs, the temporary file included. |
| ServerRequests.ServerRequest.OnDirective | Program/src/protocol_handler.c:886-929 | The same for directives; `fault` marks the null dereference. |
| ServerRequests.ServerRequest.ProcessEof | Program/src/protocol_handler.c:728-741 | Checksum and size of EOF go into the file; which file, and when there is none. |
| ServerRequests.ServerRequest.ProcessMetadata | Program/src/protocol_handler.c:745-792 | New file, promotion or another first gap, and the message-only case, on the file object. |
| ServerRequests.ServerRequest.OnServerTimeOut | Program/src/protocol_handler.c:795-858 | The time-out's branches in the code's order: new flags and counters, and what is sent. |
| Closing.TimeOutSends | Program/src/protocol_handler.c:795-858 | Of any request, exactly when a time-out sends a request for metadata, one for EOF, ACK(EOF), a NAK and with which ranges, and FINISHED; at most two PDUs, and what concerns EOF first. |
| Closing.TimeOutChanges | Program/src/protocol_handler.c:795-858 | What a time-out changes: the two counters by what it sends, `finished` exactly when it finds everything in and agreeing, removal exactly when FINISHED has been sent; nothing else. |
| Closing.LifeCounted | Program/src/protocol_handler.c:717-858 | Conservation over any life of a request: the counters and the metadata flag say how often FINISHED, ACK(EOF) and ACK(metadata) have been sent. |
| Closing.FinishedAtMostOnce | Program/src/protocol_handler.c:717-724 | In any life of a request at most one FINISHED is sent, whatever arrives. |
| Closing.EofAcknowledgedOnce | Program/src/protocol_handler.c:828-830 | In any life at most one ACK(EOF) is sent, and the next time-out of a request that is past metadata with its EOF in sends it if and only if it has not been sent. |
| Closing.MetadataAcknowledgedOnce | Program/src/protocol_handler.c:745-792 | In any life ACK(metadata) is sent once if metadata has been processed and never otherwise. |
| Closing.EofBeforeFinished | Program/src/protocol_handler.c:828-850 | A request that found its own end has acknowledged EOF before. |
| Closing.EofRecorded | Program/src/protocol_handler.c:728-741 | EOF kills exactly a request with neither file nor metadata; any other records checksum and size and keeps its data. |
| Closing.OthersIgnored | Program/src/protocol_handler.c:886-929 | A second metadata or EOF, data without a file behind the metadata, and every PDU meant for the sender leave a request as it is and unanswered. |
| Closing.TwoTimeOutsClose | Program/src/protocol_handler.c:795-850 | Two time-outs after everything is in, the request is up for removal, FINISHED sent in the first. |
| Closing.MessagesOnlyStaysSilent | Program/src/protocol_handler.c:770-820 | Message-only metadata pauses its request and puts it up for removal; until then it never sends anything again, the FINISHED meant for this case included. |
| Sweeping.Server.TimeOutCheck | Program/src/app_control.c:63-108 | The callback on one node: what its time-out sends, and removal of the node under iteration exactly when the time-out asks for it or the request has been inactive too long. |
| Sweeping.Server.Sweep | Program/src/app_control.c:216-241 | One sweep gives each request exactly one turn, in order: a request stays exactly when it has not been inactive too long and its own time-out does not ask for removal, the order is kept, and what is sent is what the time-outs send, one after another. |
| Sweeping.KeptIff | Program/src/app_control.c:65-92 | The membership half of that for the specification. |
| SenderRequests.SenderRequest.CreateDataBurstPackets | Program/src/protocol_handler.c:399-429 | One packet: the next segment with its offset, the new offset and running checksum, and 1 exactly on the last. |
| SenderRequests.SenderRequest.Burst | Program/src/protocol_handler.c:482-502 | The burst loop ends, having sent all segments in order: ceil(n / L) packets whose payloads, one behind the other, are the file, with the running checksum of the whole file. |
| Protocol.BurstIsFile | Program/src/protocol_handler.c:399-429 | The payloads of the burst from any offset on are the file's bytes from there on. |
| Protocol.BurstCount | Program/src/protocol_handler.c:399-429 | The number of packets is the quotient of what is left and the segment size, rounded up. |
| SenderRequests.SenderRequest.CheckSumFile | Program/src/filesystem_funcs.c:180-195 | The file's checksum by buffers is the sum the burst ends with. |
| SenderRequests.SenderRequest.AcknowledgedStart | Program/src/protocol_handler.c:482-502 | Metadata, burst, EOF: what the protocol's sender transmits at its start; a file of size zero gets metadata only. |
| SenderRequests.SenderRequest.SegmentOffset | Program/src/protocol_handler.c:548-574 | The packets for one requested range. |
| SenderRequests.SenderRequest.ProcessNakPdu | Program/src/protocol_handler.c:579-609 | The packets for all ranges a decoded NAK lists, in order. |
| SenderRequests.SenderRequest.ParsePacketClient | Program/src/protocol_handler.c:614-668 | The sender's reaction to every other PDU. |
| Protocol.SenderIgnores | Program/src/protocol_handler.c:614-668 | The sender reacts to FINISHED and to requests only. |
| SenderRequests.Placed | Program/src/packet.c:362-391 | From the packet a sender leaves in its buffer a receiver reads, through the data length in the header, exactly that offset and payload. |
| SenderRequests.DataRoundTrip | Program/src/packet.c:362-391 | Offset and payload come back from a data PDU. |
| HeaderCodec.HeaderRoundTrip | Program/src/packet.c:146-228 | Parsing a header that could be built recovers every field, all identifiers and the header's length. |
| HeaderCodec.MalformedIff | Program/src/packet.c:146-189 | The parser rejects exactly the headers whose sequence number length is unsupported; a bad entity id length passes. |
| HeaderCodec.UnsupportedEntity | Program/src/packet.c:146-189 | Entity identifiers of an unsupported length come out as all ones in 32 bits. |
| HeaderCodec.BuildPduHeader | Program/src/packet.c:192-228 | The header's bytes at the front of the buffer, nothing else changed; -1 exactly when an identifier's length is unsupported or not the one the header announces. |
| HeaderCodec.CopyIdToPacket | Program/src/packet.c:47-74 | An identifier at its own length, or nothing and -1. |
| HeaderCodec.ReadIdRoundTrip | Program/src/packet.c:47-94 | Identifiers come back at every length. |
| HeaderCodec.IdLengths | Program/src/packet.c:47-74 | Which identifiers take one, two, four or eight octets, and which none. |
| Wire.HeaderOctets | Program/src/packet.c:192-228 | Every field of the header at its bits and octets, the bits by shifts. |
| Wire.NakOctets | Program/src/packet.c:533-572 | A NAK's code 8, scope and count at their octets. |
| Wire.NakRangeOctets | Program/src/packet.c:472-530 | And its ranges, eight octets each. |
| Wire.DataOctets | Program/src/packet.c:362-391 | A data PDU's offset and bytes at their octets. |
| Wire.FixedOctets | Program/src/packet.c:309-340 | The metadata's code 7, segmentation bit, size, source and destination name at their octets. |
| Wire.ProxyPutOctets | Program/src/packet.c:651-700 | A PROXY_PUT_REQUEST's octets, source before destination name. |
| Wire.ContinuePartialOctets | Program/src/packet.c:651-726 | A CONTINUE_PARTIAL's octets, destination, originator, transaction. |
| Bytes.BigEndianAt | Program/src/packet.c:57-66 | Numbers on the wire: the octet at each position is the one of that weight, the most significant first. |
| HeaderCodec.BodyBuilderKeepsHeader | Program/src/packet.c:27-30 | A body builder changes a built header only in the PDU type, by or, and in the data length. |
| NakCodec.NakRoundTrip | Program/src/packet.c:502-572 | Decoding a built NAK yields the first ranges that fit, in order, and scopes over the whole list. |
| NakCodec.NakFits | Program/src/packet.c:533-572 | The PDU never passes the packet's end. |
| NakCodec.NakFills | Program/src/packet.c:541 | Nothing more would have fitted: it lists all ranges, or one more would pass the packet's end. |
| NakCodec.BuildNakPacket | Program/src/packet.c:472-572 | The builder, by iteration over the linked list, writes exactly that PDU and leaves the header's type as it was. |
| MetadataCodec.MetadataRoundTripIff | Program/src/packet.c:309-350 | File size and both names always come back; the messages come back if and only if the one-octet data length the builder stores reaches past the start of the last message. |
| MetadataCodec.MessagesFit | Program/src/packet.c:309-350 | Condition on the indices under which every message list comes back, the absolute index added at line 344 included. |
| MetadataCodec.MessageLost | Program/src/packet.c:344 | Two names of sixty octets and one message: the length wraps and the message is lost. |
| MetadataCodec.MessagesBackIff | Program/src/packet.c:730-822 | Reading a written list of messages yields it if and only if the loop's bound lies past the last one's start. |
| MetadataCodec.OneMessageReadIff | Program/src/packet.c:808-822 | A message is read if and only if it starts more than four octets before the end that the data length gives; a length below four lets every one through. |
| MetadataCodec.IndexAndLength | Program/src/packet.c:344-349 | The data length stored is the index returned less the start, in one octet. |
| MetadataCodec.MessageBack | Program/src/packet.c:651-805 | Each PROXY_PUT_REQUEST and CONTINUE_PARTIAL message comes back from its bytes. |
| MetadataCodec.LvBack | Program/src/requests.c:24-51 | Length-value fields come back. |
| MetadataCodec.IdLvBack | Program/src/packet.c:97-122 | Identifiers behind their length come back. |
| MetadataCodec.AddMessages | Program/src/packet.c:651-726 | The iteration over the messages writes their bytes one after another and returns the index behind them. |
| MetadataCodec.GetMessages | Program/src/packet.c:808-822 | The receiver's loop reads what the specification function says, for any bytes: the messages, or that it pushes an uninitialised pointer on an unknown type, or never ends. |
| MetadataCodec.EndlessFromFront | Program/src/packet.c:731-820 | The loop can fail to end only in a packet that itself begins with "cfdp": a message without the terminating zero sends it back to the packet's front. |
| MetadataCodec.MalformedGoesRound | Program/src/packet.c:731-736 | Such a message makes the loop go on at the front, end if no message begins there, and go round for ever if it is malformed too. |
| MetadataCodec.UnknownPushed | Program/src/packet.c:746-803 | A message of another type leaves a pointer in the list that was never set. |
| MetadataCodec.BuildPutPacketMetadata | Program/src/packet.c:309-350 | The builder places the fixed part and the messages behind the header of a zeroed buffer and stores the wrapped length. |
| MetadataCodec.FixedRoundTrip | Program/src/protocol_handler.c:274-303 | The parser of the fixed part, its index one octet wide, gives back the file size and both names from what the builder wrote, for names that end within the reach of that index. |
| MetadataCodec.NamesWrap | Program/src/protocol_handler.c:274-303 | Where that index passes 255 it goes on from zero. |
| Jsmn.TokensStructured | Program/include/jsmn.h:273-458 | After success every token lies in the text, starts strictly increase, any two tokens are disjoint or nested, containers sit between matching brackets, none is open, and no more than the array holds. |
| Jsmn.CountingAgrees | Program/include/jsmn.h:280-457 | When tokenizing succeeds with r tokens, counting the same text returns r. |
| Jsmn.CountIsEnough | Program/include/jsmn.h:111-125 | An array as large as the count never runs out, and more room changes nothing. |
| Jsmn.PrimitiveEndIff | Program/include/jsmn.h:140-193 | A primitive token is a stretch of printable characters other than blanks, colons, commas and closing brackets, and ends at the first of these, a NUL or the end of the text. |
| Jsmn.FindQuoteIff | Program/include/jsmn.h:198-268 | A string ends at a place if and only if a quote stands there and the characters before it are plain ones and whole escapes, of eight letters or of u and four hexadecimal digits. |
| Jsmn.SeparatorsSkipped | Program/include/jsmn.h:366-401 | Between tokens tabs, line ends, blanks, colons and commas are passed over. |
| Jsmn.Parser.ParseString | Program/include/jsmn.h:198-268 | The string scanner finds the closing quote, over escapes, or the error; it fills one token or none. |
| Jsmn.Parser.ParsePrimitive | Program/include/jsmn.h:140-193 | The same for primitives. |
| Jsmn.Parser.CloseBracket | Program/include/jsmn.h:313-365 | A closing bracket closes the last open token, found by scanning backwards, and makes the one around it the parent. |
| Jsmn.Parser.Comma | Program/include/jsmn.h:384-401 | A comma makes the innermost open container the parent again unless a container already is, or none is open. |
| Jsmn.Parser.Parse | Program/include/jsmn.h:273-458 | The loop over the mutable parser state and token array returns what tokenizing, or without an array counting, the text yields. |
| JournalText.RoundTripIff | Program/src/filesystem_funcs.c:323-917 | Reading back the journal of a request restores all its fields and its gaps in order if and only if it has no file, or from 1 to 101 gaps; otherwise nothing can be read. |
| JournalText.GaplessFails | Program/src/filesystem_funcs.c:792-802 | With an empty gap list the closing bracket overwrites the opening one: the text is no JSON. |
| JournalText.WrittenIsDocument | Program/src/filesystem_funcs.c:754-904 | Otherwise the seeks and overwrites leave a well-formed document of the request's fields. |
| JsonText.DocumentTokens | Program/include/jsmn.h:273-458 | A document of keys and values tokenizes into the object and, in order, tokens over exactly its keys, values and list items. |
| JournalLemmas.Restores | Program/src/filesystem_funcs.c:608-720 | Taking those words two by two restores field after field, the numbers of the gap list being ignored as keys. |
| JournalLemmas.GapsBack | Program/src/filesystem_funcs.c:491-537 | The printed gap list reads back as the same gaps in the same order. |
| FieldNames.NamesApart | Program/src/filesystem_funcs.c:571-598 | No field name begins with another, so prefix comparison finds one field only. |
| Decimal.SignedBack | Program/src/filesystem_funcs.c:741 | A 32-bit value printed with %d, negative in its upper half, comes back through atol. |
| Decimal.SignedIsTwosComplement | Program/src/filesystem_funcs.c:741 | What %d prints for a 32-bit word is its two's complement value, with a sign exactly in the upper half. |
| Decimal.AtolReads | Program/src/filesystem_funcs.c:632-634 | atol reads a number behind an optional sign up to the first character that is no digit. |
| Decimal.AtolSkips | Program/src/filesystem_funcs.c:632-634 | Blank characters in front do not matter to it. |
| Decimal.NoLeadingZero | Program/src/filesystem_funcs.c:741 | No number is printed with a leading zero. |
| JournalFields.BaseTextLines | Program/src/filesystem_funcs.c:820-870 | The text printed for a request is the twenty lines of a table that names each key and the field whose value stands behind it, in this order. |
| JournalFields.FileHeadLines | Program/src/filesystem_funcs.c:754-776 | The same for the five fields of its file and the key of the gap list. |
| JournalFields.WrittenBounded | Program/src/filesystem_funcs.c:806-877 | The journal of a request without a file takes at most 999 characters; what is longer is cut off. |
| JournalFields.IdFieldsStored | Program/src/filesystem_funcs.c:625-684 | Which field of the request the reader stores a value in for each of these keys, spelled out, and how it converts it: identifiers, sequence number, size and both names. |
| JournalFields.StateFieldsStored | Program/src/filesystem_funcs.c:643-657 | The same for mode, pause flag and counters. |
| JournalFields.EntityFieldsStored | Program/src/filesystem_funcs.c:658-669 | The same for the local entity's bits about EOF, segments and the end. |
| JournalFields.PauseFieldsStored | Program/src/filesystem_funcs.c:670-681 | The same for its bits about pauses and metadata. |
| JournalFields.FileFieldsStored | Program/src/filesystem_funcs.c:685-711 | The same for the file's fields; the first of them opens the file, without which the others are errors. |
| JournalFile.Output.WriteRequest | Program/src/filesystem_funcs.c:806-904 | The writes, the iteration over the gaps and the two seeks leave exactly the specified text, whose lines are those of `JournalFields.BaseTextLines` and `FileHeadLines`. |
| JournalFile.ParseGaps | Program/src/filesystem_funcs.c:491-537 | The comma-splitting loop computes the specified gap list. |
| JournalFile.Reader.ParseRequest | Program/src/filesystem_funcs.c:608-720 | The loop over all names stores the value wherever the key begins with one. |
| JournalFile.Reader.ReadJson | Program/src/filesystem_funcs.c:323-428 | Tokenizing and taking tokens two by two yields the specified request, or an error. |

## Left out

- Sockets, CSP, FreeRTOS queues, threads, locks and select loops: the network is a set of PDUs, a file a byte sequence.
- Clock time: a time-out is a step that may happen at any moment.
- `main.c`, Python wrappers, logging, MIB loading: configuration and plumbing.
- Unacknowledged mode, user requests and the scheduling of stored requests: they add no harder property.
- The continue-partial path and reloading a journal in mid-transfer: the journal's round trip is proved on its own, runs never reload one.
- Inactivity in runs: `Sweep` removes inactive requests, the protocol's runs do not; nor do they save journals. The close flag that aborts a burst is left out.
- Dispatch of a PDU to its request in `process_pdu_header`: the model follows one transaction; the order of requests and their removal is in `Sweep`.
- The effect of received messages (starting a proxy put or a partial resend): only their encoding is modelled.
- ACK, EOF and Finished octet layouts: straight-line; these PDUs are constructors of `Receiver.Pdu`.
- Malformed and unknown directives: a data PDU shorter than its offset field.
- `insertAt` and `removeElement` of `list.c`: not used by the transfer path.
- Memory lifetime: freed nodes, what happens through a stale `current_request`, and allocation failure.
- Callbacks passed to `iterate` are written as the loops they amount to; the message list is a sequence, and so are the gaps that `JournalFile.Output.AddFile` prints and `JournalFile.ParseGaps` reads; elsewhere the lists of gaps and of requests are linked nodes.
- In `JournalFile` the request being read is a value held in a field, not a struct of separate fields; the text file is a string with a write position at its end.
- Sweeping.Server.Sweep: does not cover the sweep over the server's own clients that precedes it, nor the journals saved on inactivity.
- Sweeping.Server.TimeOutCheck: does not cover saving or deleting the request's journal.
- ServerRequests.ServerRequest.ProcessMetadata: does not cover the names and messages that come with the size; `MetadataCodec` reads them, starting what a message asks for is not modelled.
- HeaderCodec.BuildPduHeader: does not say what is in the buffer after a failure.
- MetadataCodec.MetadataRoundTripIff: does not cover names that push the message index past 255, where the builder writes over the packet's front.
- MetadataCodec.GetMessages: does not cover what lies behind the packet's end; a message cut off there ends the list.
- FileObject.File.ProcessDataPacket: does not cover payloads of one to three octets, because the C checksum reads outside its buffer there. Those are the last segments of files whose length leaves such a rest; the protocol functions give them some fixed checksum.
- Checksum.CalcCheckSum: does not cover data shorter than four octets, for the same reason.
- SenderRequests.SenderRequest.Burst: does not cover files whose last segment has fewer than four octets, for the same reason; `Finishing.FinishableExactlySizes` names the same condition.
- MetadataCodec.BuildPutPacketMetadata: does not cover names that push the message index past 255, nor messages whose identifiers are 2^32 - 1 or above (`Message.Sendable`).
- Jsmn.Parser.Parse: does not state the tokens' child counts and the parent index, which no caller reads; `OpenBracket`, `CloseBracket`, `Comma` and `CountChild` state how they change.
- JournalText.RoundTripIff: does not cover names with quotes, backslashes or NUL, sequence numbers of 2^63 and above (atoll is undefined there), nor requests whose first twenty lines exceed the 1000-character buffer: the cut text, and what is read from it, depends on where in a line the cut falls, and behind a cut key or name the quotes of the file's lines pair up wrongly.
- JournalFile.Reader.ReadJson: does not model a key without a value, where the code reads a token it never filled; here that is an error.
- JournalFile.ParseGaps: does not model numbers longer than the 15-character buffers; printed numbers have at most eleven characters.
- HeaderCodec.HeaderRoundTrip: does not cover a transmission mode above 1, which the builder stores in a one-bit field.
