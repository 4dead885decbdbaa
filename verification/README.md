# Models of the vendored transport and encoding code

Three components that the iOS app ships as pods are modelled here, and what they
promise is proved of the models:

- **DTLS handshake transport** (BoringSSL, `d1_both.cc`, `dtls_record.cc`,
  `dtls_method.cc`, `d1_lib.cc`): flights of handshake messages are cut into
  fragments, packed into datagrams, lost, repeated, reordered and resent; the
  receiver reassembles them in a ring of seven slots, behind a replay window
  (RFC 6347).
- **nanopb** (`pb_encode.c`, `pb_decode.c`, `pb_common.c`): the Protocol Buffers
  encoder, decoder and field iterator, driven by descriptors that nest.
- **TLS 1.0 to 1.2 state machines and write path** (BoringSSL,
  `handshake_client.cc`, `handshake_server.cc`, `handshake.cc`, `s3_pkt.cc`,
  `ssl_buffer.cc`): the two handshake drivers, the server's choice of a cipher,
  and the resumable writer of application data (RFC 5246).

## Layout

Every component has functions on values that say what it computes, classes
and methods with the mutable state of the source that are proved to compute
them, and theorems about whole runs:

| | specification | mutable form | theorems |
|---|---|---|---|
| DTLS receiver | `DtlsReaderSpec`, `DtlsReassembly`, `DtlsReplay` | `DtlsReader`, `HmFragment`, `ReplayWindow` | `DtlsReaderRuns`, `DtlsReceives` |
| DTLS sender | `DtlsWriterSpec` | `DtlsWriter` | `DtlsWriterRuns`, `DtlsFlights`, `DtlsProgress` |
| DTLS, both ends | | | `DtlsEndToEnd`, `DtlsDelivery`, `DtlsWorld` |
| DTLS formats, timer | `DtlsWire`, `DtlsRecordFormat` | `DtlsTimer`, `DtlsTimeout` | `DtlsTimer`, `DtlsTimeout` |
| nanopb | `PbDescriptor`, `PbVarint`, `PbEncoderSpec`, `PbDecoderSpec`, `PbObservable` | `PbIterator`, `PbEncoder`, `PbDecoder` | `PbRoundTrip`, `PbMerge`, `PbArrays`, `PbRepeats`, `PbRequired`, `PbSafety`, `PbEncodable`, `PbEncoder` |
| TLS handshake | `TlsHandshakeSpec`, `TlsDuality` | `TlsHandshake` | `TlsHandshakeRuns`, `TlsHandshakeProgress`, `TlsHandshakeAlone`, `TlsHandshakeChoices`, `TlsHandshake` |
| TLS writing, ciphers | `TlsWriterSpec`, `TlsCipherChoice` | `TlsWriter`, `TlsBuffer`, `TlsCipherChoice` | `TlsWriterSpec`, `TlsWriterProgress` |

`Wrappers`, `Bytes`, `Arith` (bits of unbounded numbers) and `Paths` are shared.

Modelling choices:

- An AEAD is any pair of functions `seal` and `open`; `Lawful` asks that opening
  undoes sealing under the same parameters and that the overhead is bounded.
- The network is the choice of which sealed record to deliver next, as often as
  wanted, with arbitrary bytes behind it. BIO results, clocks, random nonces,
  allocation addresses and callbacks that are not ready are parameters.
- C integers are unbounded numbers with the wrap-around of the source written
  out: 16-bit epochs and message numbers, 48-bit sequence numbers, the 64-bit
  replay word, 32-bit and 64-bit varints, the 16-bit offset of `SSLBuffer`.
- The pods compile nanopb with `PB_FIELD_32BIT`
  (`iOS/Pods/Target Support Files/nanopb/nanopb.xcconfig:2`), so `pb_size_t` has
  32 bits.

## Where the code does less than one might expect

- A fragment whose number is exactly seven past the next message passes the
  "too far in the future" filter and is then refused with an internal error by
  the ring guard (`RingGuardFiresExactly`).
- `pb_decode_varint32` accepts some varints past 32 bits that are no sign
  extension, because bits 32 to 34 are not looked at; `ReadVarint32OfVarint`
  gives the exact condition.
- A zero key ends a message early. Concatenation merges if and only if the first
  part does not end on one or the second changes nothing (`MergesExactly`;
  `ZeroKeyLoses` has an instance). The header comment on merging does not say
  so.
- The proto3 check for defaults takes the first word of a fixed-count array for
  its count, and does not know explicit defaults. What is taken for a default is
  not written. `RoundTripExactly` says, for every descriptor and message, exactly
  when the message comes back; `FixedArrayLost` has an instance where it does
  not.
- The 16-bit offset of `SSLBuffer` can wrap when capacity and alignment slack
  reach 2^16; `WrapLosesData` reaches it, and bytes that were never stored are
  next in line.
- `ssl3_write_app_data` clears `wnum` before it checks for a length that is too
  short. After that error the position is lost, and so is the exactly-once
  property (`ConsistentExactly`); in `PositionForgotten` a byte is sealed and
  sent twice.

## Model

| member | source | states |
|---|---|---|
| `DtlsEndToEnd.ReceivedIsPrefixOfSent` | iOS/Pods/BoringSSL-GRPC/ssl/d1_both.cc:297-438 | For every run of sender, network and receiver (loss, repetition, reordering, any packet sizes, retransmissions, key changes; fewer than 2^16 messages) the messages handed to the receiving handshake are a prefix of those the sender queued: same order, type, body, and the same serialised bytes that each side hashes (RFC 6347, sections 4.2.3 and 4.2.6) |
| `DtlsEndToEnd.InvAlways` | iOS/Pods/BoringSSL-GRPC/ssl/d1_both.cc:525-734 | The joint invariant of queue, sealed records, ring and messages handed out, in every reachable state of the two ends and the network |
| `DtlsEndToEnd.MoveKeeps` | iOS/Pods/BoringSSL-GRPC/ssl/d1_both.cc:297-438 | Each single move keeps that invariant: any sender operation, any delivery with arbitrary bytes behind the record, taking a message, taking a ChangeCipherSpec, changing the read keys |
| `DtlsEndToEnd.TakeGenuineFragment` | iOS/Pods/BoringSSL-GRPC/ssl/d1_both.cc:348-391 | A piece of one of the sender's messages is turned away with an error in exactly three cases (too long for this end, not the current message in epoch 1, first number past the ring); header conflicts with the ring never come up |
| `DtlsEndToEnd.OpenDelivered` | iOS/Pods/BoringSSL-GRPC/ssl/dtls_record.cc:177-272 | Whatever a delivered record opens to is the type and plaintext that were sealed, also with other bytes behind it in the datagram |
| `DtlsEndToEnd.HandedIsAsSent` | iOS/Pods/BoringSSL-GRPC/ssl/d1_both.cc:408-424 | A complete message in the ring has the type, body and hashed bytes of the message with its number on the sending side |
| `DtlsDelivery.TakeFragmentPresent` | iOS/Pods/BoringSSL-GRPC/ssl/d1_both.cc:393-402 | A byte that has arrived stays there whatever arrives next, and the bytes of a fragment just taken are there |
| `DtlsWire.ParseSerialized` | iOS/Pods/BoringSSL-GRPC/ssl/d1_both.cc:459-473 | Parsing a serialised fragment gives it back together with whatever follows it |
| `DtlsWire.SerializeParsed` | iOS/Pods/BoringSSL-GRPC/ssl/d1_both.cc:459-473 | Whatever parses is the serialisation of the result followed by what was not read |
| `DtlsReassembly.BitRangeBits` | iOS/Pods/BoringSSL-GRPC/ssl/d1_both.cc:203-205 | `bit_range(start, end)` sets exactly the bits from start up to end |
| `DtlsReassembly.MarkMask` | iOS/Pods/BoringSSL-GRPC/ssl/d1_both.cc:226-236 | The in-place marking of a range, within one byte or across several, sets exactly the bits of the range and keeps all others |
| `DtlsReassembly.MaskFull` | iOS/Pods/BoringSSL-GRPC/ssl/d1_both.cc:238-250 | The completeness check holds if and only if every one of the msg_len bits is set, given that no later bit is |
| `DtlsReassembly.HmFragment.constructor` | iOS/Pods/BoringSSL-GRPC/ssl/d1_both.cc:152-199 | A new fragment has the whole-message header written out, no body byte, and a mask unless the body is empty |
| `DtlsReassembly.HmFragment.Mark` | iOS/Pods/BoringSSL-GRPC/ssl/d1_both.cc:211-251 | A body index is received afterwards iff it was before or lies in the range; no bit past the length is ever set; the mask is dropped iff all are received |
| `DtlsReassembly.HmFragment.Fill` | iOS/Pods/BoringSSL-GRPC/ssl/d1_both.cc:393-402 | Copying and marking a fragment adds exactly its bytes to the partial map the object stands for |
| `DtlsReassembly.PresentIffCovered` | iOS/Pods/BoringSSL-GRPC/ssl/d1_both.cc:211-251 | After any sequence of arrivals a byte index is present iff it was at the start or some arrival covered it |
| `DtlsReassembly.CompleteIsFinal` | iOS/Pods/BoringSSL-GRPC/ssl/d1_both.cc:393-397 | A completed message never changes again, whatever arrives |
| `DtlsReassembly.NullMaskMeansComplete` | iOS/Pods/BoringSSL-GRPC/ssl/d1_both.cc:393-397 | The mask is null iff the message is complete, and then the buffer is the whole-message header followed by the body |
| `DtlsReaderSpec.TakeFragmentKeepsRing` | iOS/Pods/BoringSSL-GRPC/ssl/d1_both.cc:265-295 | Every fragment keeps the ring invariant (slot = number mod 7, read_seq <= number < read_seq+7), and the message found has the number asked for, so that the assertion in the source never fires |
| `DtlsReaderSpec.RingGuardFiresExactly` | iOS/Pods/BoringSSL-GRPC/ssl/d1_both.cc:380-391 | The ring guard's internal error comes up iff the fragment's number is exactly read_seq+7, outside epoch 1, with bounds in order: the one number that the filter lets pass and the guard refuses |
| `DtlsReaderSpec.NextRingKeepsRing` | iOS/Pods/BoringSSL-GRPC/ssl/d1_both.cc:426-438 | Handing on a message keeps the ring invariant, and at the wrap of the 16-bit counter every slot is empty |
| `DtlsReaderSpec.WindowMovesOnlyOnAuthenticRecords` | iOS/Pods/BoringSSL-GRPC/ssl/dtls_record.cc:225-259 | A number is recorded only for a record that opened, in the current epoch, and that the window did not already discard |
| `DtlsReaderRuns.TakeFragmentsKeepCurrent` | iOS/Pods/BoringSSL-GRPC/ssl/d1_both.cc:297-406 | A message that is ready to be handed out stays ready whatever handshake record arrives |
| `DtlsReaderRuns.AcceptedIsInWindow` | iOS/Pods/BoringSSL-GRPC/ssl/dtls_record.cc:155-175 | Along every run nothing of a later epoch has been accepted, and all that was accepted in the current epoch is in its window |
| `DtlsReaderRuns.AcceptedAtMostOnce` | iOS/Pods/BoringSSL-GRPC/ssl/dtls_record.cc:140-175 | Until the 16-bit read epoch wraps, no (epoch, sequence number) is accepted twice on a connection, for any packets and any interleaving with the handshake driver (RFC 6347, section 4.1.2.6) |
| `DtlsReplay.AcceptedOnce` | iOS/Pods/BoringSSL-GRPC/ssl/dtls_record.cc:140-175 | Within an epoch no number is accepted twice, and the window has seen exactly the accepted numbers |
| `DtlsReplay.ReplayWindow.ShouldDiscard` | iOS/Pods/BoringSSL-GRPC/ssl/dtls_record.cc:140-150 | The bitmap check discards s iff s is at least 64 below the maximum or was recorded before |
| `DtlsReplay.ReplayWindow.SlideTo` | iOS/Pods/BoringSSL-GRPC/ssl/dtls_record.cc:158-164 | Sliding the 64-bit word forward, by less than its width or more, forgets nothing that is still inside the window |
| `DtlsReplay.ReplayWindow.Record` | iOS/Pods/BoringSSL-GRPC/ssl/dtls_record.cc:155-175 | Recording adds the number to the set of those seen and raises the maximum if needed, for any distance |
| `DtlsReplay.ReplayWindow.Reset` | iOS/Pods/BoringSSL-GRPC/ssl/dtls_method.cc:81-95 | A new read epoch starts with an empty window |
| `DtlsRecordFormat.ParseSerializedRecord` | iOS/Pods/BoringSSL-GRPC/ssl/dtls_record.cc:190-204 | A serialised record parses back, whatever follows it in the datagram |
| `DtlsRecordFormat.SerializeParsedRecord` | iOS/Pods/BoringSSL-GRPC/ssl/dtls_record.cc:190-204 | Whatever parses as a record is the serialisation of the result followed by the rest |
| `DtlsRecordFormat.ToU64Be` | iOS/Pods/BoringSSL-GRPC/ssl/dtls_record.cc:128-136 | The byte loop computes the big-endian value of the eight sequence bytes |
| `DtlsRecordFormat.ToU64Parts` | iOS/Pods/BoringSSL-GRPC/ssl/dtls_record.cc:128-136 | The 64-bit number holds the epoch in its top 16 bits and the sequence number below |
| `DtlsRecordFormat.ToU64Injective` | iOS/Pods/BoringSSL-GRPC/ssl/dtls_record.cc:128-136 | Different sequence bytes give different 64-bit numbers, so the window cannot confuse two records |
| `DtlsRecordFormat.SequenceInjective` | iOS/Pods/BoringSSL-GRPC/ssl/dtls_record.cc:304-335 | Different (epoch, number) pairs have different wire bytes |
| `DtlsReader.IncomingRing.GetIncomingMessage` | iOS/Pods/BoringSSL-GRPC/ssl/d1_both.cc:265-295 | Finds or makes the message of a fragment in its slot, refuses numbers outside the ring and conflicting headers, and changes no other slot |
| `DtlsReader.IncomingRing.TakeFragment` | iOS/Pods/BoringSSL-GRPC/ssl/d1_both.cc:348-402 | One round of the loop: screening, lookup, copy and mark; ring and alert are those of the specification, and an alert leaves the ring as it was |
| `DtlsReader.IncomingRing.TakeFragments` | iOS/Pods/BoringSSL-GRPC/ssl/d1_both.cc:348-405 | The loop over the fragments of a record, up to the first error |
| `DtlsReader.IncomingRing.CurrentMessage` | iOS/Pods/BoringSSL-GRPC/ssl/d1_both.cc:408-424 | A message is returned iff the current slot is complete, with its type, body and whole serialised bytes |
| `DtlsReader.IncomingRing.NextMessage` | iOS/Pods/BoringSSL-GRPC/ssl/d1_both.cc:426-438 | The current slot is emptied and the counter moves on, wrapping at 2^16; the other slots stay |
| `DtlsReader.IncomingRing.AnyBuffered` | iOS/Pods/BoringSSL-GRPC/ssl/d1_both.cc:440-457 | True iff some slot, other than that of the message being read, is occupied |
| `DtlsReader.DtlsReader.OpenRecord` | iOS/Pods/BoringSSL-GRPC/ssl/dtls_record.cc:177-272 | Verdict, bytes consumed and new window of one record, on every branch: malformed, wrong version, wrong epoch, replay, failed authentication, overlong, alert, success |
| `DtlsReader.DtlsReader.OpenHandshake` | iOS/Pods/BoringSSL-GRPC/ssl/d1_both.cc:297-406 | New state, result and bytes consumed for every record type and error, including those of the record layer, as in the specification; KindsExactly and FlagMeansCcs say from the packets what that is |
| `DtlsReader.DtlsReader.GetMessage` | iOS/Pods/BoringSSL-GRPC/ssl/d1_both.cc:408-424 | As CurrentMessage, and the message is remembered as held; nothing else changes |
| `DtlsReader.DtlsReader.NextMessage` | iOS/Pods/BoringSSL-GRPC/ssl/d1_both.cc:426-438 | Drops the held message and nothing else |
| `DtlsReader.DtlsReader.HasUnprocessed` | iOS/Pods/BoringSSL-GRPC/ssl/d1_both.cc:440-457 | True iff a ChangeCipherSpec is flagged or a message other than the held one is buffered |
| `DtlsReader.DtlsReader.SetReadState` | iOS/Pods/BoringSSL-GRPC/ssl/dtls_method.cc:81-95 | Refused, with nothing changed, iff handshake data is left over; otherwise epoch+1 mod 2^16, empty window, new cipher |
| `DtlsReader.DtlsReader.OpenChangeCipherSpec` | iOS/Pods/BoringSSL-GRPC/ssl/d1_both.cc:475-490 | Takes the flag if it is set and otherwise reads a record first; another record's success counts as discarded |
| `DtlsWriterSpec.SealRecordFacts` | iOS/Pods/BoringSSL-GRPC/ssl/dtls_record.cc:294-351 | A sealed record has the type and plaintext given, the epoch of the keys used, and fits the output space |
| `DtlsWriterSpec.SealFragmentFacts` | iOS/Pods/BoringSSL-GRPC/ssl/d1_both.cc:685-734 | A piece of a message starts at the old offset, ends at the new one or the body's end, is not empty unless the body is, and fits |
| `DtlsWriterSpec.SealMessageCarries` | iOS/Pods/BoringSSL-GRPC/ssl/d1_both.cc:644-734 | Of every queued message the record carries exactly the stretch from the old to the new position, under the epoch in which the message was queued; without progress, or after an error, the position is unchanged |
| `DtlsWriterSpec.OverheadSuffices` | iOS/Pods/BoringSSL-GRPC/ssl/d1_both.cc:659-733 | The space set aside for overhead suffices: sealing a fragment fails only if the cipher does, the sequence number runs out, or the ciphertext is too long for a record |
| `DtlsWriterSpec.SealMessagesCarry` | iOS/Pods/BoringSSL-GRPC/ssl/d1_both.cc:739-780 | The records of a packet carry the flight from the old position to the new without gap or overlap, fit the packet, and move the position strictly forward if there are any |
| `DtlsWriterSpec.SendFlightCarries` | iOS/Pods/BoringSSL-GRPC/ssl/d1_both.cc:782-827 | All packets written fit the MTU and carry the flight without gap or overlap; on success it is out completely; after a failed write the position is where the written packets end, so that a retry covers exactly the packet lost |
| `DtlsWriterSpec.SendFlightAll` | iOS/Pods/BoringSSL-GRPC/ssl/d1_both.cc:782-827 | Also records of packets never written carry only pieces of the flight's messages |
| `DtlsWriterSpec.SealRecordUnique` | iOS/Pods/BoringSSL-GRPC/ssl/dtls_record.cc:304-335 | Sealing under the current or the previous epoch never repeats an (epoch, number), until a counter wraps |
| `DtlsWriterSpec.SendFlightKeeps` | iOS/Pods/BoringSSL-GRPC/ssl/d1_both.cc:797-815 | What sealing one record keeps of keys and log, sending any flight keeps, whatever the writes return |
| `DtlsWriterSpec.NewWriteStateUnique` | iOS/Pods/BoringSSL-GRPC/ssl/dtls_method.cc:97-107 | A key change repeats no (epoch, number): the old counter is kept for the previous epoch |
| `DtlsWriterRuns.NumbersAreUnique` | iOS/Pods/BoringSSL-GRPC/ssl/dtls_record.cc:304-335 | Over any interleaving of flights, retransmissions, application data and key changes no two sealed records share epoch and sequence number, until one of the counters wraps |
| `DtlsWriterRuns.FinishedMessage` | iOS/Pods/BoringSSL-GRPC/ssl/d1_both.cc:511-537 | Initialising and finishing a message gives the serialisation of one fragment that spans the whole body |
| `DtlsWriterRuns.QueuedMessage` | iOS/Pods/BoringSSL-GRPC/ssl/d1_both.cc:664-683 | What was queued parses as that fragment when it is sent |
| `DtlsWriter.WriteKeys.SetWriteState` | iOS/Pods/BoringSSL-GRPC/ssl/dtls_method.cc:97-107 | Epoch, counters and ciphers move to the previous epoch; nothing is sealed |
| `DtlsWriter.WriteKeys.SealRecord` | iOS/Pods/BoringSSL-GRPC/ssl/dtls_record.cc:294-351 | The record's bytes are in the buffer from the given place on, the bytes before it are untouched, and the counter of the epoch in use has moved on; on failure nothing is added to the log |
| `DtlsWriter.Flight.AddOutgoing` | iOS/Pods/BoringSSL-GRPC/ssl/d1_both.cc:555-594 | Queue, numbering and refusal are those of the specification: a completed flight is dropped first and more than seven are refused; that each message goes out under the epoch of its queueing is in RecordsUnderTheirEpoch |
| `DtlsWriter.Flight.SealNextMessage` | iOS/Pods/BoringSSL-GRPC/ssl/d1_both.cc:644-734 | Result, offset, keys, log and bytes in the buffer for every branch: epoch gone, ChangeCipherSpec, malformed message, no room, partial, complete |
| `DtlsWriter.Flight.SealPiece` | iOS/Pods/BoringSSL-GRPC/ssl/d1_both.cc:685-734 | As much of the body as fits, written to the buffer |
| `DtlsWriter.Flight.SealNextPacket` | iOS/Pods/BoringSSL-GRPC/ssl/d1_both.cc:739-780 | The packet buffer holds exactly the records of the specification one after the other, and no progress at all is an error |
| `DtlsWriter.Flight.SendPacket` | iOS/Pods/BoringSSL-GRPC/ssl/d1_both.cc:797-815 | One packet is written, or the position is put back to where the packet starts |
| `DtlsWriter.Flight.SendFlight` | iOS/Pods/BoringSSL-GRPC/ssl/d1_both.cc:782-827 | The datagrams written, the position and the keys are those of the specification, for any results of the writes; it ends because each packet moves the position forward |
| `DtlsTimer.TimerBacksOff` | iOS/Pods/BoringSSL-GRPC/ssl/d1_lib.cc:120-187 | Along every run of starts, stops, timeouts and repeated Finished messages: a running timer's duration is min(60000, initial*2^k) after k expiries, the deadline is normalised, and at most 12 retransmissions lie between two stops (RFC 6347, section 4.2.4.1) |
| `DtlsTimer.RetransmitTimer.Start` | iOS/Pods/BoringSSL-GRPC/ssl/d1_lib.cc:120-136 | The deadline is exactly the duration after now, normalised; the duration is reset only if no timer ran |
| `DtlsTimer.RetransmitTimer.Stop` | iOS/Pods/BoringSSL-GRPC/ssl/d1_lib.cc:162-166 | No timer, initial duration, no timeouts counted |
| `DtlsTimer.RetransmitTimer.IsExpired` | iOS/Pods/BoringSSL-GRPC/ssl/d1_lib.cc:138-153 | True iff the timer runs and less than 15 ms are left |
| `PbRoundTrip.CastBack` | iOS/Pods/nanopb/pb_decode.c:1289-1372 | An integer field of any size and sign fits and comes back through the casts of encoder and decoder |
| `PbRoundTrip.NumRoundTrip` | iOS/Pods/nanopb/pb_encode.c:734-806 | One integer or fixed-width item comes back, with any bytes behind it |
| `PbRoundTrip.TextRoundTrip` | iOS/Pods/nanopb/pb_encode.c:810-868 | Bytes, strings and fixed-length bytes come back up to what can be observed, whatever the destination held |
| `PbRoundTrip.PackedRoundTrip` | iOS/Pods/nanopb/pb_decode.c:420-449 | A packed array comes back item for item, starting at any index |
| `PbRoundTrip.ItemsRoundTrip` | iOS/Pods/nanopb/pb_decode.c:450-460 | An array with one key an item comes back, submessages included |
| `PbObservable.DefaultsAreFresh` | iOS/Pods/nanopb/pb_decode.c:812-895 | Setting to defaults clears every flag, count and union at every depth and keeps the message well typed |
| `PbObservable.DefaultObs` | iOS/Pods/nanopb/pb_encode.c:215-303 | What the encoder leaves out as a default looks the same as what decoding has in its place, nested singular submessages included |
| `PbMerge.ConcatenationMerges` | iOS/Pods/nanopb/pb_decode.c:901-1049 | Decoding `a + b` at once gives the message and the unread bytes of decoding `a` and then `b`, unless `a` ends on a zero key |
| `PbMerge.ZeroKeyHides` | iOS/Pods/nanopb/pb_decode.c:293-314 | If `a` ends on a zero key, everything behind it is left unread |
| `PbMerge.LoopAppend` | iOS/Pods/nanopb/pb_decode.c:919-997 | The loop over a concatenation goes on with the second part from the state the first left, or stops at the zero key; bytes behind a field never change how it is read |
| `PbMerge.LoopForgets` | iOS/Pods/nanopb/pb_decode.c:988-993 | What required fields were seen before does not influence how the rest is decoded |
| `PbMerge.UnknownFieldSkipped` | iOS/Pods/nanopb/pb_decode.c:933-962 | A complete unknown field in front of the input leaves the state as it is |
| `PbRequired.SucceedsIffRequiredOccur` | iOS/Pods/nanopb/pb_decode.c:988-1046 | Where the loop succeeds, decoding does iff the last fixed-count array is full and every one of the first 64 required fields occurred in the input |
| `PbRequired.LoopSees` | iOS/Pods/nanopb/pb_decode.c:988-993 | The bit set holds exactly the ordinals of the tracked required fields that occurred |
| `PbRequired.AllTracked` | iOS/Pods/nanopb/pb_decode.c:1010-1046 | With at most 64 required fields none escapes the check |
| `PbVarint.ReadVarintOfVarint` | iOS/Pods/nanopb/pb_decode.c:250-270 | Every uint64 takes at most ten bytes and comes back, whatever follows |
| `PbVarint.VarintMeans` | iOS/Pods/nanopb/pb_encode.c:574-594 | A written varint ends where it should and its 7-bit groups add up to the value |
| `PbVarint.VarintLength` | iOS/Pods/nanopb/pb_encode.c:574-594 | It takes at most n+1 bytes iff the value is below 2^(7(n+1)) |
| `PbVarint.ReadVarint32OfVarint` | iOS/Pods/nanopb/pb_decode.c:182-242 | `pb_decode_varint32` on the varint of every uint64: the value below 2^32; above, the low 32 bits or an error, by an exact condition on the upper bit groups |
| `PbVarint.NegativeInt32Accepted` | iOS/Pods/nanopb/pb_decode.c:216-225 | Every sign-extended negative int32 meets that condition, and its low 32 bits are the value |
| `PbVarint.MiddleRejected` | iOS/Pods/nanopb/pb_decode.c:216-225 | No value from 2^32 up to 2^63 meets it |
| `PbVarint.AcceptedButNotExtended` | iOS/Pods/nanopb/pb_decode.c:216-225 | Some values that are no sign extension meet it too, because bits 32 to 34 are not looked at |
| `PbVarint.ZigZagMeans` | iOS/Pods/nanopb/pb_encode.c:596-605 | ZigZag maps n to 2n or -2n-1 and `pb_decode_svarint` undoes it, for every int64 |
| `PbVarint.ReadLeOfLe` | iOS/Pods/nanopb/pb_encode.c:607-632 | Little-endian numbers of any width come back |
| `PbIterator.FieldIter.constructor` | iOS/Pods/nanopb/pb_common.c:8-18 | The iterator starts on the first field, with position and offsets those of the prefix sums |
| `PbIterator.FieldIter.Next` | iOS/Pods/nanopb/pb_common.c:20-76 | One step around the cycle; data offset, size offset and required index stay equal to the prefix sums over the list, unions included |
| `PbIterator.FieldIter.Find` | iOS/Pods/nanopb/pb_common.c:78-95 | From any position the search ends and succeeds iff a field has the tag, on the nearest one ahead; a failed search ends where it began; an empty list stands on its terminator |
| `PbIterator.FieldIter.CountRequired` | iOS/Pods/nanopb/pb_decode.c:1010-1022 | Running the iterator to its end counts the required fields, the last one included |
| `PbEncoder.OStream.Write` | iOS/Pods/nanopb/pb_encode.c:101-119 | A sizing stream counts; a buffer takes all the bytes or, if they do not fit, none, with "stream full" |
| `PbEncoder.FillVarint` | iOS/Pods/nanopb/pb_encode.c:574-594 | The loop over 7-bit groups and the final byte give the varint |
| `PbEncoder.EncodeVarint` | iOS/Pods/nanopb/pb_encode.c:574-594 | Emits the varint of any uint64, or stream full |
| `PbEncoder.EncodeString` | iOS/Pods/nanopb/pb_encode.c:674-680 | Emits the length and then the bytes |
| `PbEncoder.EncodeVal` | iOS/Pods/nanopb/pb_encode.c:734-868 | The encoder of every type emits what the specification says or its error |
| `PbEncoder.EncodeInteger` | iOS/Pods/nanopb/pb_encode.c:734-806 | Integers of any size and sign; an impossible size is an error |
| `PbEncoder.EncodeFixed64` | iOS/Pods/nanopb/pb_encode.c:619-632 | Eight bytes, lowest first |
| `PbEncoder.EncodeMessage` | iOS/Pods/nanopb/pb_encode.c:494-516 | All fields in order, up to the first error, at any depth, on a sizing or a writing stream |
| `PbEncoder.EncodeField` | iOS/Pods/nanopb/pb_encode.c:307-392 | Which fields are written: required, flagged, non-default, chosen in their union, or arrays |
| `PbEncoder.EncodeArray` | iOS/Pods/nanopb/pb_encode.c:126-211 | Nothing for an empty array, an error for too many items, packed where the type allows it, otherwise one key an item |
| `PbEncoder.EncodePacked` | iOS/Pods/nanopb/pb_encode.c:137-181 | A packed array: tag, size, data |
| `PbEncoder.PackedSize` | iOS/Pods/nanopb/pb_encode.c:140-165 | The size of packed data, computed or counted, is the size of what is then written |
| `PbEncoder.EncodeItems` | iOS/Pods/nanopb/pb_encode.c:170-208 | The items in order, each behind its key unless packed |
| `PbEncoder.GetEncodedSize` | iOS/Pods/nanopb/pb_encode.c:533-542 | The counted size is the length of the encoding, and counting fails iff encoding does |
| `PbEncoder.EncodeToBuffer` | iOS/Pods/nanopb/pb_encode.c:84-119 | Encoding into a buffer gives exactly the encoding's bytes if they fit and "stream full" if not, or the message's own error |
| `PbEncoder.CountDecides` | iOS/Pods/nanopb/pb_encode.c:101-119 | A count decides a write: a buffer of the counted size suffices, a smaller one gives "stream full", and as many bytes are written as were counted |
| `PbDecoder.IStream.ReadByte` | iOS/Pods/nanopb/pb_decode.c:136-152 | The next byte, or nothing at the end |
| `PbDecoder.IStream.Read` | iOS/Pods/nanopb/pb_decode.c:100-132 | The next n bytes, or nothing read |
| `PbDecoder.DecodeVarint` | iOS/Pods/nanopb/pb_decode.c:250-270 | The loop with shifts and ors on 64 bits reads the varint the groups stand for, and fails on more than ten bytes |
| `PbDecoder.DecodeVarint32` | iOS/Pods/nanopb/pb_decode.c:182-242 | The 32-bit loop with its checks for sign extension and overflow |
| `PbDecoder.SkipOverVarint` | iOS/Pods/nanopb/pb_decode.c:273-282 | Skips a varint of any length |
| `PbDecoder.SkipField` | iOS/Pods/nanopb/pb_decode.c:316-326 | Skips one payload by wire type; unknown wire types fail |
| `PbDecoder.MakeSubstream` | iOS/Pods/nanopb/pb_decode.c:367-380 | A substream holds exactly the delimited bytes, and the parent has exactly what is behind them |
| `PbDecoder.CloseSubstream` | iOS/Pods/nanopb/pb_decode.c:382-395 | The parent goes on behind the substream, however much of it was read |
| `PbDecoder.DecodeNum` | iOS/Pods/nanopb/pb_decode.c:1289-1384 | One integer or fixed-width item, with the range checks of its size |
| `PbDecoder.DecodeText` | iOS/Pods/nanopb/pb_decode.c:1391-1508 | Bytes, strings with their terminator and fixed-length bytes, with their size checks; the rest of the buffer is kept |
| `PbDecoder.DecodePacked` | iOS/Pods/nanopb/pb_decode.c:420-449 | The items of a packed array in order, and an error for too many |
| `PbDecoder.MarkSeen` | iOS/Pods/nanopb/pb_decode.c:988-993 | Sets one bit of the bit set: the set it stands for grows by one ordinal |
| `PbDecoder.AllSeen` | iOS/Pods/nanopb/pb_decode.c:1024-1046 | Comparing whole words and then the rest holds iff all of the first 64 required ordinals are set |
| `PbDecoder.Decoding.Prepare` | iOS/Pods/nanopb/pb_decode.c:964-993 | The bookkeeping for fixed-count arrays and required fields |
| `PbDecoder.Decoding.Store` | iOS/Pods/nanopb/pb_decode.c:401-475 | Item, count, flag or union tag go to the field's slot; no other slot changes |
| `PbDecoder.Decoding.Finish` | iOS/Pods/nanopb/pb_decode.c:1000-1046 | The final checks hold iff the last fixed-count array is full and all tracked required fields were seen |
| `PbDecoder.DecodeVal` | iOS/Pods/nanopb/pb_decode.c:1463-1485 | The decoder of one item of any type, submessages included |
| `PbDecoder.DecodeSlot` | iOS/Pods/nanopb/pb_decode.c:401-475 | One field by its rule, as in the specification: packed and plain arrays, flags, unions, single values; what that means for arrays is in PbArrays, for repeated singular fields in PbRepeats |
| `PbDecoder.DecodeMessage` | iOS/Pods/nanopb/pb_decode.c:901-1049 | The loop: message, unread bytes and failure are those of the specification, at any depth |
| `PbDecoder.DecodeField` | iOS/Pods/nanopb/pb_decode.c:921-997 | One round of the loop: find the field and decode it, or skip it |
| `PbDecoder.DecodeBuffer` | iOS/Pods/nanopb/pb_decode.c:1051-1063 | Defaults first, then the loop; also how much of the buffer was not read |
| `TlsHandshakeRuns.NeverUnexpected` | iOS/Pods/BoringSSL-GRPC/ssl/handshake.cc:491-628 | For every agreed setting (full or resumed, certificates, status, key exchange, request, ticket, NPN, Channel ID) and every interleaving with pauses, partial flushes and retries, neither side fails on an unexpected message |
| `TlsHandshakeRuns.InvAlways` | iOS/Pods/BoringSSL-GRPC/ssl/handshake.cc:491-628 | In every reachable state what is under way and still to be sent to one side is what it will still read |
| `TlsHandshakeRuns.OneFinished` | iOS/Pods/BoringSSL-GRPC/ssl/handshake.cc:380-476 | Either script has exactly one Finished, at its end, and one ChangeCipherSpec, which therefore comes before it |
| `TlsHandshakeRuns.StuckMeansDone` | iOS/Pods/BoringSSL-GRPC/ssl/handshake.cc:491-628 | No deadlock: if all is flushed and neither side can go on, both are done |
| `TlsDuality.ClientPlays` | iOS/Pods/BoringSSL-GRPC/ssl/handshake_client.cc:1707-1789 | What the client's states send and read, along its path with the back-jump of resumption, are the scripts of section 7.3 of RFC 5246 |
| `TlsDuality.ServerPlays` | iOS/Pods/BoringSSL-GRPC/ssl/handshake_server.cc:1539-1620 | The same for the server |
| `TlsDuality.ClientDoMoves` | iOS/Pods/BoringSSL-GRPC/ssl/handshake_client.cc:385-1705 | Given the message that the script says, a client step never fails, waits only for what is missing, and goes to the next state or stays |
| `TlsDuality.ServerDoMoves` | iOS/Pods/BoringSSL-GRPC/ssl/handshake_server.cc:426-1537 | The same for the server's steps |
| `TlsHandshakeSpec.ClientRankDecreases` | iOS/Pods/BoringSSL-GRPC/ssl/handshake_client.cc:1707-1789 | Whatever arrives, a client state is left only for one of lower rank, and a step that is ready to go on has left its state |
| `TlsHandshakeSpec.ServerRankDecreases` | iOS/Pods/BoringSSL-GRPC/ssl/handshake_server.cc:1539-1620 | The same for the server |
| `TlsHandshake.Connection.ResolveWait` | iOS/Pods/BoringSSL-GRPC/ssl/handshake.cc:491-610 | What becomes of each wait: flush, message, ChangeCipherSpec, callback |
| `TlsHandshake.ClientDriveKeeps` | iOS/Pods/BoringSSL-GRPC/ssl/handshake_client.cc:1707-1789 | A whole run of the client's driver keeps the joint invariant, so that it never fails on a message |
| `TlsHandshake.ServerDriveKeeps` | iOS/Pods/BoringSSL-GRPC/ssl/handshake_server.cc:1539-1620 | The same for the server's driver |
| `TlsCipherChoice.ChooseCipher` | iOS/Pods/BoringSSL-GRPC/ssl/handshake_server.cc:357-424 | With server preference, from the first equal-preference group with a usable shared cipher the one earliest in the client's list; without it, the client's first usable cipher that the server has; nothing iff no usable cipher is shared |
| `TlsCipherChoice.Choose` | iOS/Pods/BoringSSL-GRPC/ssl/handshake_server.cc:357-424 | The loop over either list, with and without group flags |
| `TlsBuffer.SslBuffer.Clear` | iOS/Pods/BoringSSL-GRPC/ssl/ssl_buffer.cc:39-45 | Empty and without allocation |
| `TlsBuffer.SslBuffer.EnsureCap` | iOS/Pods/BoringSSL-GRPC/ssl/ssl_buffer.cc:47-81 | Keeps the contents, reaches the capacity iff it fits 16 bits, aligns what follows the header, and keeps the 16-bit offset from wrapping if capacity plus slack stays below 2^16 |
| `TlsBuffer.SslBuffer.Append` | iOS/Pods/BoringSSL-GRPC/ssl/ssl_buffer.cc:83-88 | Appends to the contents |
| `DtlsDelivery.FlightDelivered` | iOS/Pods/BoringSSL-GRPC/ssl/d1_both.cc:297-406 | In the world: if sealed records carry a flight from start to end and the network delivers each of its handshake records at least once when the receiver accepts it, in any order and among any others, then every message of the flight in the receiver's window is complete |
| `DtlsDelivery.DeliverTakes` | iOS/Pods/BoringSSL-GRPC/ssl/d1_both.cc:297-406 | A delivery takes at most one fragment, a genuine one, and does take it if the record is accepted |
| `DtlsDelivery.FlightArrives` | iOS/Pods/BoringSSL-GRPC/ssl/d1_both.cc:797-815 | The same on fragments: if all those of a flight arrive in one ring, in any order and number, every message of the flight is complete |
| `DtlsWriter.WriteKeys.CountRecord` | iOS/Pods/BoringSSL-GRPC/ssl/internal.h:746-748 | The documented contract of the sequence update, on the current or the previous epoch's counter: one more modulo 2^48, and failure at the wrap |
| `DtlsWriter.Flight.Flush` | iOS/Pods/BoringSSL-GRPC/ssl/d1_both.cc:829-834 | Marks the flight complete and sends it from where it stands: new state, datagrams written and result |
| `DtlsWriter.Flight.Retransmit` | iOS/Pods/BoringSSL-GRPC/ssl/d1_both.cc:836-845 | Sends the flight again from its start: new state, datagrams written and result |
| `DtlsTimer.RetransmitTimer.TimeLeft` | iOS/Pods/BoringSSL-GRPC/ssl/d1_lib.cc:197-245 | What is left of a running timer, to the microsecond and with the seconds clamped to an int, and zero once less than 15 ms are left; nothing iff none runs |
| `DtlsTimer.RetransmitTimer.CountTimeout` | iOS/Pods/BoringSSL-GRPC/ssl/d1_lib.cc:168-187 | Counts and fails iff more than 12 have been counted; the packet size is in Transport |
| `DtlsTimer.RetransmitTimer.HandleTimeout` | iOS/Pods/BoringSSL-GRPC/ssl/d1_lib.cc:247-267 | The timer's part: nothing before expiry; afterwards the duration doubles up to 60 s and the timer restarts, unless the count is exceeded |
| `DtlsTimeout.Transport.HandleTimeout` | iOS/Pods/BoringSSL-GRPC/ssl/d1_lib.cc:247-267 | The whole of it: nothing before expiry; then the packet size may fall back after two timeouts, and unless there were too many the flight is sent again from its start, with state, datagrams and result of that |
| `DtlsTimeout.Transport.FlushFlight` | iOS/Pods/BoringSSL-GRPC/ssl/d1_both.cc:829-834 | Starts the timer, settles the packet size and sends the flight from where it stands |
| `DtlsTimeout.Transport.UpdateMtu` | iOS/Pods/BoringSSL-GRPC/ssl/d1_both.cc:615-632 | The packet size stays if large enough; otherwise it is what the BIO says, if that is in range, or the default |
| `PbRoundTrip.RoundTripExactly` | iOS/Pods/nanopb/pb_decode.c:901-1063 | For every descriptor tree with distinct tags and every well-formed message that can be encoded in less than 2^32 bytes, `pb_decode` of the output into any structure succeeds and reads it all, and the result looks the same if and only if at every depth each singular value that is taken for a default looks like the default in its place |
| `PbRoundTrip.DecodeOfEncode` | iOS/Pods/nanopb/pb_decode.c:901-1063 | With no explicit default on a singular field and no fixed-count array inside a singular submessage, every such message comes back |
| `PbRoundTrip.PlainSurvives` | iOS/Pods/nanopb/pb_encode.c:215-303 | Under those two restrictions nothing taken for a default differs from what decoding puts there |
| `PbRoundTrip.MsgRoundTrip` | iOS/Pods/nanopb/pb_encode.c:494-516 | The exact round trip at every nesting depth, over any freshly defaulted structure |
| `PbRoundTrip.FixedArrayLost` | iOS/Pods/nanopb/pb_encode.c:215-303 | A concrete loss: a singular submessage with the fixed-count array {0, 5} is not written at all, and decoding gives {0, b} with b what the destination had, which looks the same iff b is 5 |
| `PbMerge.MergesExactly` | iOS/Pods/nanopb/pb_decode.h:74-76 | Decoding `a + b` at once gives the message of decoding `a` and then `b` into the result if and only if `a` does not end on a zero key or `b` would change nothing; likewise for what is left unread (descriptors without fixed-count arrays) |
| `PbMerge.ZeroKeyLoses` | iOS/Pods/nanopb/pb_decode.c:293-314 | A concrete loss: behind `08 07 00` the field `08 05` is not read, and the number stays 7 instead of becoming 5 |
| `PbMerge.SkipTakesPayload` | iOS/Pods/nanopb/pb_decode.c:316-326 | `pb_skip_field` takes exactly the payload of a field of wire type 0, 1, 2 or 5, the length in any varint form that reads as one |
| `PbMerge.UnknownFieldsAreTransparent` | iOS/Pods/nanopb/pb_decode.c:933-962 | Inserting a complete field with a number the descriptor lacks, its key in any varint form that reads as one, at any field boundary changes nothing of the result |
| `PbEncoder.EncodeSubmessage` | iOS/Pods/nanopb/pb_encode.c:682-730 | The length counted by a sizing run and then exactly that many bytes; never the error "submsg size changed" |
| `PbEncoder.EncodeInside` | iOS/Pods/nanopb/pb_encode.c:707-729 | The second pass writes exactly the bytes counted, so that the source's comparison of sizes never finds a difference |
| `TlsHandshakeRuns.DoneMeansAll` | iOS/Pods/BoringSSL-GRPC/ssl/handshake_client.cc:1707-1789 | A side that is done has processed the peer's whole script in order and sent all of its own, also while the other still runs; with both done nothing is left on the connection |
| `TlsHandshakeRuns.DoneMeansFinished` | iOS/Pods/BoringSSL-GRPC/ssl/handshake.cc:380-476 | A side that is done has processed exactly one Finished, as the last message, and sent exactly one, as the last message |
| `TlsHandshake.Converse` | iOS/Pods/BoringSSL-GRPC/ssl/handshake.cc:491-628 | Two mutable drivers run against each other in any order, with any pauses and partial flushes: neither ever fails, a side that is done has processed and sent its whole script, and when neither can go on both are done |
| `TlsHandshake.Handshakes` | iOS/Pods/BoringSSL-GRPC/ssl/handshake.cc:491-628 | The same from two new handshakes |
| `TlsHandshake.ClientHandshake.Continue` | iOS/Pods/BoringSSL-GRPC/ssl/handshake.cc:491-628 | One round of the run loop: what was waited for is resolved and the driver goes on; from an agreeing state it ends in one and never fails |
| `TlsHandshake.ServerHandshake.Continue` | iOS/Pods/BoringSSL-GRPC/ssl/handshake.cc:491-628 | The same for the server |
| `TlsHandshake.ClientHandshake.Drive` | iOS/Pods/BoringSSL-GRPC/ssl/handshake_client.cc:1707-1789 | The driver, with the bodies of its `do_` functions as assignments, makes the steps of the step relation until it has to wait or is done, ends, and keeps the joint invariant; that the steps lead on is in ClientLeadsOn |
| `TlsHandshake.ServerHandshake.Drive` | iOS/Pods/BoringSSL-GRPC/ssl/handshake_server.cc:1539-1620 | The same for the server |
| `TlsHandshake.ClientContinueKeeps` | iOS/Pods/BoringSSL-GRPC/ssl/handshake.cc:491-628 | A round of the client's run loop keeps the joint invariant |
| `TlsHandshake.ServerContinueKeeps` | iOS/Pods/BoringSSL-GRPC/ssl/handshake.cc:491-628 | The same for the server |
| `TlsBuffer.SslBuffer.Consume` | iOS/Pods/BoringSSL-GRPC/ssl/ssl_buffer.cc:90-97 | Takes from the front of the contents; the 16-bit offset is where the rest of the data is iff it does not wrap |
| `TlsBuffer.WrapLosesData` | iOS/Pods/BoringSSL-GRPC/ssl/ssl_buffer.cc:90-97 | A wrap reached: of 65535 ones all but four are consumed, and what is left to write are four bytes that were in the allocation before |
| `TlsBuffer.Flush` | iOS/Pods/BoringSSL-GRPC/ssl/ssl_buffer.cc:239-252 | Bytes sent and bytes kept together stay the same whatever the stream takes; how much is left and the result are those of writing until nothing is left or a write fails |
| `TlsWriterSpec.ExactlyOnce` | iOS/Pods/BoringSSL-GRPC/ssl/s3_pkt.cc:129-200 | Over every run of calls, each failed one retried with the bytes sealed so far and anything behind them, and whatever the stream does: sent or in the buffer are the handshake data, once picked up, and the ciphertexts that the cipher made of the records, in order and once each; and their plaintexts are the bytes reported followed only by the sealed part of an unfinished call |
| `TlsWriterSpec.WriteAppHonest` | iOS/Pods/BoringSSL-GRPC/ssl/s3_pkt.cc:221-289 | One call, of whatever data, puts nothing but the handshake data and then ciphertexts of records into the buffer |
| `TlsWriterSpec.WriteAppSeals` | iOS/Pods/BoringSSL-GRPC/ssl/s3_pkt.cc:129-200 | One call of a caller that retries properly, on every outcome: what is sealed is what has been reported and the front of the unfinished call, and success reports all unless partial writes are allowed |
| `TlsWriterSpec.ConsistentExactly` | iOS/Pods/BoringSSL-GRPC/ssl/s3_pkt.cc:144-160 | That law holds after a call if and only if the data is not shorter than what is known to be written; shorter data is refused and the position forgotten |
| `TlsWriterSpec.PositionForgotten` | iOS/Pods/BoringSSL-GRPC/ssl/s3_pkt.cc:144-160 | A concrete run: after a call cut short, a too-short one and a proper retry, two bytes are reported and three sealed and sent, the last one twice |
| `TlsWriter.AppDataWriter.WriteAppData` | iOS/Pods/BoringSSL-GRPC/ssl/s3_pkt.cc:129-200 | The mutable writer computes one call of the specification, and what that calls sent and queued is what the stream has taken and what the buffer holds; that calls succeed is in WriteSucceeds |
| `TlsWriter.AppDataWriter.WriteLoop` | iOS/Pods/BoringSSL-GRPC/ssl/s3_pkt.cc:161-199 | The loop over records, from any position: state, result and position where it stopped |
| `TlsWriter.AppDataWriter.DoWrite` | iOS/Pods/BoringSSL-GRPC/ssl/s3_pkt.cc:221-289 | A pending record is finished and nothing sealed; otherwise at most one record is made and written |
| `TlsWriter.AppDataWriter.MakeRecord` | iOS/Pods/BoringSSL-GRPC/ssl/s3_pkt.cc:237-285 | Room is made, unsent handshake data put in front and the ciphertext of the data behind it; the call is remembered |
| `TlsWriter.AppDataWriter.SealRecord` | iOS/Pods/BoringSSL-GRPC/ssl/s3_pkt.cc:273-285 | The ciphertext that the cipher makes of the data as the next record goes behind what is in the buffer, or nothing does |
| `TlsWriter.AppDataWriter.WritePending` | iOS/Pods/BoringSSL-GRPC/ssl/s3_pkt.cc:202-218 | A changed buffer or a shorter length is refused; success reports the length that was sealed and clears the pending record |
| `TlsWriter.SendAll` | iOS/Pods/BoringSSL-GRPC/ssl/s3_pkt.cc:129-200 | A caller that retries until its data is reported: what has been sent and what is in the buffer are the handshake data and ciphertexts of records whose plaintexts are what has been reported and the sealed part of the rest |
| `PbArrays.PackedAndKeyedAgree` | iOS/Pods/nanopb/pb_decode.c:401-475 | For every array of numbers and every list of items, one key an item decodes exactly as one packed field of them, from any state and whatever follows: the same items, the same count, the same error if they are too many |
| `PbArrays.KeyedFormAppends` | iOS/Pods/nanopb/pb_decode.c:450-460 | One key an item: the items go behind those that are there, and only for lack of room does decoding fail |
| `PbArrays.PackedFormAppends` | iOS/Pods/nanopb/pb_decode.c:420-449 | The same for one packed field |
| `PbArrays.PartsAppend` | iOS/Pods/nanopb/pb_decode.c:401-475 | However an array is spread over packed and unpacked parts, its items come out in order, and it overflows iff they are too many in all |
| `PbArrays.AppendedTwice` | iOS/Pods/nanopb/pb_decode.c:401-475 | Appending in two steps is appending once, also at the limit and for arrays of fixed count |
| `PbArrays.FixedCountExactly` | iOS/Pods/nanopb/pb_decode.c:964-1008 | An array of fixed count, in any parts, is accepted iff exactly as many items come as it holds |
| `PbSafety.DecodeKeepsType` | iOS/Pods/nanopb/pb_decode.c:901-1049 | Memory safety: whatever the input, what has been decoded into stays what the descriptor describes, at any depth: numbers in range, texts within their buffers with a terminator, arrays with no more items than they hold |
| `PbSafety.VarintsExactly` | iOS/Pods/nanopb/pb_decode.c:250-282 | A varint of any form is what its groups stand for modulo 2^64 if it has at most ten bytes, and refused if it has more or does not end; skipping takes any length |
| `PbSafety.NumsExactly` | iOS/Pods/nanopb/pb_decode.c:1289-1372 | For every uint64 and every integer field: the value meant, signed fields of up to four bytes looking at 32 bits only, or a refusal iff it is out of the field's range |
| `PbSafety.FixedExactly` | iOS/Pods/nanopb/pb_decode.c:1374-1389 | Four and eight bytes, lowest first, written out in numbers; fewer are refused |
| `PbSafety.TextsExactly` | iOS/Pods/nanopb/pb_decode.c:1391-1508 | Bytes, strings and fixed-length bytes are accepted iff they fit with length or terminator, and what lies behind them in the buffer is kept |
| `PbSafety.SkipsByNumber` | iOS/Pods/nanopb/pb_decode.c:316-326 | Payloads are skipped by the number of the wire type: 0 a varint, 1 eight bytes, 2 a length and that many bytes, 5 four bytes |
| `PbSafety.OtherTypesRefused` | iOS/Pods/nanopb/pb_decode.c:316-326 | Every other wire type is refused |
| `PbEncodable.EncodesExactly` | iOS/Pods/nanopb/pb_encode.c:494-516 | Encoding a message succeeds iff, at every depth and in what would be written, sizes are those of integer types, lengths within their buffers and counts within their arrays |
| `PbEncodable.ZeroWritesNothing` | iOS/Pods/nanopb/pb_encode.c:213-303 | A proto3 message that is all zeros is no bytes at all, at any depth |
| `PbEncodable.DefaultsExactly` | iOS/Pods/nanopb/pb_encode.c:232-303 | A singular value is taken for a default iff it is zero or empty |
| `PbEncodable.KeyNumbers` | iOS/Pods/nanopb/pb_encode.c:635-672 | In numbers: a value is written behind the varint of eight times its field's number plus 0, 1, 2 or 5 by type, a packed array behind that plus 2 |
| `PbEncodable.FixedExamples` | iOS/Pods/nanopb/pb.h:313-318 | Five in field 1 is `0D 05 00 00 00` as fixed32 and `09 05 00 00 00 00 00 00 00` as fixed64 |
| `PbEncodable.GuideNumber` | iOS/Pods/nanopb/pb_encode.c:734-780 | 150 in field 1 is `08 96 01`, as in the Protocol Buffers encoding guide |
| `PbEncodable.GuideText` | iOS/Pods/nanopb/pb_encode.c:824-856 | "testing" in field 2 is `12 07` and its seven characters |
| `PbEncodable.GuideSubmessage` | iOS/Pods/nanopb/pb_encode.c:682-730 | That number in a submessage in field 3 is `1A 03 08 96 01` |
| `PbEncodable.GuidePacked` | iOS/Pods/nanopb/pb_encode.c:137-181 | The packed array 3, 270, 86942 in field 4 is `22 06 03 8E 02 9E A7 05` |
| `PbEncodable.ZigZagExample` | iOS/Pods/nanopb/pb_encode.c:596-605 | Minus one as sint32 in field 1 is `08 01` |
| `PbRepeats.OccurrenceSets` | iOS/Pods/nanopb/pb_decode.c:401-418 | One more occurrence of a singular field sets its value, flag or union tag, starting from what is there, and nothing else of the state but that it was seen |
| `PbRepeats.LastNumberCounts` | iOS/Pods/nanopb/pb_decode.c:401-418 | Of a number that occurs twice the last one counts |
| `PbRepeats.SubmessagesMerge` | iOS/Pods/nanopb/pb_decode.c:1463-1485 | Two occurrences of a singular submessage decode as one that holds the bytes of both |
| `PbRepeats.LastOfUnionCounts` | iOS/Pods/nanopb/pb_decode.c:462-474 | Of a submessage in a union that occurs twice only the last counts: it starts from defaults |
| `PbIterator.FieldsApart` | iOS/Pods/nanopb/pb_common.c:20-76 | Two fields never overlap, whole arrays included, unless they are members of one union |
| `PbIterator.UnionShared` | iOS/Pods/nanopb/pb_common.c:48-62 | Members of one union lie in the same place and share their tag |
| `DtlsFlights.QueueIsWhatWasAdded` | iOS/Pods/BoringSSL-GRPC/ssl/d1_both.cc:539-602 | Along every run the queue is told from the operations alone: what was added since the last flight was closed, in order, numbered, each with the number of key changes before it, seven at most |
| `DtlsFlights.RecordsUnderTheirEpoch` | iOS/Pods/BoringSSL-GRPC/ssl/d1_both.cc:555-594 | Every record of a run but those of application data carries a ChangeCipherSpec or a piece of a message that some operation added, under the epoch whose number is how often the write keys had changed before that operation |
| `DtlsFlights.DataUnderItsEpoch` | iOS/Pods/BoringSSL-GRPC/ssl/dtls_record.cc:294-351 | Application data is sealed as it is, under the epoch whose number is how often the keys had changed before it was written |
| `DtlsProgress.MessageGoes` | iOS/Pods/BoringSSL-GRPC/ssl/d1_both.cc:644-734 | With ciphers that do not fail and counters that do not run out, sealing a message never fails, and makes progress whenever there is room for the overhead, the header and one byte |
| `DtlsProgress.PacketGoes` | iOS/Pods/BoringSSL-GRPC/ssl/d1_both.cc:739-780 | A packet never fails either, and with the whole MTU to itself holds at least one record |
| `DtlsProgress.FlightGoes` | iOS/Pods/BoringSSL-GRPC/ssl/d1_both.cc:797-827 | Sending a flight succeeds and leaves nothing to be sent, and every record made is written |
| `DtlsProgress.FlushSends` | iOS/Pods/BoringSSL-GRPC/ssl/d1_both.cc:829-834 | A flush sends what is left of the flight and closes it |
| `DtlsProgress.RetransmitSendsAll` | iOS/Pods/BoringSSL-GRPC/ssl/d1_both.cc:836-845 | A retransmission sends all of the flight once more, however much was out before |
| `DtlsReceives.AcceptedExactly` | iOS/Pods/BoringSSL-GRPC/ssl/dtls_record.cc:177-272 | From the packet's bytes: a record is accepted, and recorded in the window, iff it is whole, of the current epoch and version, neither 64 behind nor seen before, and opens to at most 16384 bytes; it then opens as the cipher says |
| `DtlsReceives.RefusedExactly` | iOS/Pods/BoringSSL-GRPC/ssl/dtls_record.cc:177-272 | What becomes of all others, and how much of the packet is left: nothing of one without a whole record or of another version, all behind the record of the rest |
| `DtlsReceives.EachFragmentCounts` | iOS/Pods/BoringSSL-GRPC/ssl/d1_both.cc:350-405 | A record of several fragments does what they do one by one, up to the first that is refused |
| `DtlsReceives.RestMustParse` | iOS/Pods/BoringSSL-GRPC/ssl/d1_both.cc:356-360 | Bytes that are no fragment are an error, after any number of fragments |
| `DtlsReceives.FragmentRefusedExactly` | iOS/Pods/BoringSSL-GRPC/ssl/d1_both.cc:265-391 | The three alerts of a fragment, each with its exact condition, and the fragments that are ignored |
| `DtlsReceives.KindsExactly` | iOS/Pods/BoringSSL-GRPC/ssl/d1_both.cc:297-348 | What is made of an accepted record by the number of its type: 20 only plain and [1], 21 an alert, 22 fragments, 23 not while plain, all others refused; the flag is set by the first kind and by no other |
| `DtlsReceives.FlagMeansCcs` | iOS/Pods/BoringSSL-GRPC/ssl/d1_both.cc:317-338 | Over every run of packets and calls: the flag is set iff, since it was last taken, a record of type 20 with plaintext [1] was accepted under the null cipher |
| `DtlsReceives.CcsIsGiven` | iOS/Pods/BoringSSL-GRPC/ssl/d1_both.cc:475-490 | A ChangeCipherSpec that came in is what the next call for one returns, with success and no bytes consumed |
| `DtlsReceives.KeysChangeExactly` | iOS/Pods/BoringSSL-GRPC/ssl/dtls_method.cc:81-95 | The read keys change iff no ChangeCipherSpec is waiting and nothing but the message being read is in the ring; the new epoch starts with an empty window |
| `DtlsWorld.WorldRecordsUnderTheirEpoch` | iOS/Pods/BoringSSL-GRPC/ssl/d1_both.cc:555-594 | The same epochs in the world of both ends, from the sender's operations in any run |
| `DtlsWorld.DeliveredExactly` | iOS/Pods/BoringSSL-GRPC/ssl/dtls_record.cc:177-272 | What the network delivers is accepted iff it is fresh (epoch, version, window, size), whatever is behind it, and opens to what was sealed |
| `DtlsWorld.FreshIsAccepted` | iOS/Pods/BoringSSL-GRPC/ssl/dtls_record.cc:140-175 | So the deliveries that complete a flight need no more than to be fresh |
| `DtlsWorld.CcsGetsThrough` | iOS/Pods/BoringSSL-GRPC/ssl/d1_both.cc:317-338 | The sender's ChangeCipherSpec, delivered fresh to a receiver without keys, is what its handshake is given when it next asks |
| `DtlsWorld.CompleteIsHanded` | iOS/Pods/BoringSSL-GRPC/ssl/d1_both.cc:408-438 | A complete message with the next number is handed out when the handshake asks, and is the one sent under that number |
| `DtlsWire.HeaderInNumbers` | iOS/Pods/BoringSSL-GRPC/ssl/d1_both.cc:459-473 | The twelve bytes of a fragment's header, in numbers and highest first |
| `DtlsRecordFormat.SequenceInNumbers` | iOS/Pods/BoringSSL-GRPC/ssl/dtls_record.cc:128-136 | The eight sequence bytes in numbers: two of epoch, six of sequence number, highest first |
| `DtlsTimer.HandledExactly` | iOS/Pods/BoringSSL-GRPC/ssl/d1_lib.cc:247-267 | In numbers: expired with less than 15 ms left; given up after twelve timeouts; otherwise twice the duration, 60 s at most, from the second reading of the clock |
| `DtlsTimer.ResentEachTime` | iOS/Pods/BoringSSL-GRPC/ssl/d1_lib.cc:247-267 | As often as the timer expires the flight is resent, twelve times at most |
| `DtlsTimeout.PacketSizesExactly` | iOS/Pods/BoringSSL-GRPC/ssl/d1_both.cc:613-632 | In numbers: from 228 bytes up to 2^30 as the BIO says, 1472 otherwise, and the fallback after more than two timeouts |
| `DtlsTimeout.Transport.AddOutgoing` | iOS/Pods/BoringSSL-GRPC/ssl/d1_both.cc:555-594 | The first message of a new flight stops the timer and drops the flight before; no other does |
| `TlsWriterProgress.WriteSucceeds` | iOS/Pods/BoringSSL-GRPC/ssl/s3_pkt.cc:129-200 | For a cipher that does not fail and keeps to its overhead, records that fit 16 bits with the handshake data, and a stream that takes at least a byte each time: a call of nonempty data with nothing pending returns its length, and handshake data and one record for each fragment, full ones and the rest, are on the wire in order |
| `TlsWriterProgress.RetrySucceeds` | iOS/Pods/BoringSSL-GRPC/ssl/s3_pkt.cc:129-218 | A proper retry after a call cut short writes what is pending, does not seal it again, and writes the rest behind it |
| `TlsWriterProgress.PartialSucceeds` | iOS/Pods/BoringSSL-GRPC/ssl/s3_pkt.cc:186-193 | With partial writes allowed a call reports exactly its first record |
| `TlsWriterProgress.BadRetryRefused` | iOS/Pods/BoringSSL-GRPC/ssl/s3_pkt.cc:202-209 | A retry from another place, where that is not allowed, or of less than what is pending is refused and changes nothing |
| `TlsWriterProgress.RecordWritten` | iOS/Pods/BoringSSL-GRPC/ssl/s3_pkt.cc:221-289 | One record: handshake data first and then the ciphertext go out whole |
| `TlsWriterProgress.PendingWritten` | iOS/Pods/BoringSSL-GRPC/ssl/s3_pkt.cc:202-218 | A pending record goes out and its length is reported |
| `TlsHandshakeProgress.HandshakeCompletes` | iOS/Pods/BoringSSL-GRPC/ssl/handshake.cc:491-628 | Every handshake completes: for every setting, after any run with pauses, retries and partial flushes, 82 rounds of calls without pauses and with full flushes bring both sides to their ends with all messages processed |
| `TlsHandshakeProgress.RoundsComplete` | iOS/Pods/BoringSSL-GRPC/ssl/handshake.cc:491-628 | From every agreeing state as many rounds as twice the ranks of both sides, and one more for each that can go on at once, reach both ends, which are kept |
| `TlsHandshakeProgress.RoundHelps` | iOS/Pods/BoringSSL-GRPC/ssl/handshake.cc:491-628 | A round leaves strictly less to do unless both sides are done |
| `TlsHandshakeProgress.ClientCallHelps` | iOS/Pods/BoringSSL-GRPC/ssl/handshake.cc:491-628 | A call without pauses leaves strictly less to do, unless the side is stuck for want of input, and never more |
| `TlsHandshakeProgress.ServerCallHelps` | iOS/Pods/BoringSSL-GRPC/ssl/handshake.cc:491-628 | The same for the server |
| `TlsHandshakeProgress.ClientLeadsOn` | iOS/Pods/BoringSSL-GRPC/ssl/handshake_client.cc:385-1705 | Without a pause, and with the message of the script at hand where one is read, every state but the last is left for the one that follows |
| `TlsHandshakeProgress.ServerLeadsOn` | iOS/Pods/BoringSSL-GRPC/ssl/handshake_server.cc:426-1537 | The same for the server |
| `TlsHandshakeProgress.WaitsOnlyWhenFlushed` | iOS/Pods/BoringSSL-GRPC/ssl/handshake_server.cc:945-946 | In every run a side that waits for a message or a ChangeCipherSpec has nothing of its own that is not flushed |
| `TlsHandshakeProgress.FlushedFirstAlways` | iOS/Pods/BoringSSL-GRPC/ssl/handshake.cc:491-628 | The invariant behind it: but in the states that add messages, and while a flush is waited for, all is out |
| `TlsHandshakeProgress.Complete` | iOS/Pods/BoringSSL-GRPC/ssl/handshake.cc:491-628 | The two mutable drivers, from new, come to their ends with all messages processed |
| `TlsHandshakeAlone.ClientAcceptsOnly` | iOS/Pods/BoringSSL-GRPC/ssl/handshake_client.cc:1707-1789 | Against a peer that sends anything in any order: a client that comes to its end has processed exactly the messages of a server of the agreed setting, up to the four choices left to the server, with one ChangeCipherSpec and Finished last |
| `TlsHandshakeAlone.ServerAcceptsOnly` | iOS/Pods/BoringSSL-GRPC/ssl/handshake_server.cc:1539-1620 | Against a peer that sends anything: a server that comes to its end has processed exactly a client's messages, with or without a certificate where it asked for one |
| `TlsHandshakeChoices.ClientTakesEvery` | iOS/Pods/BoringSSL-GRPC/ssl/handshake_client.cc:1707-1789 | Every choice allowed to a server (HelloVerifyRequest, CertificateStatus left out though negotiated, ServerKeyExchange, CertificateRequest) is taken: given its messages a client comes to its end in 41 moves without pauses and with all flushed, having processed them all |
| `TlsHandshakeChoices.ClientSaysExactly` | iOS/Pods/BoringSSL-GRPC/ssl/handshake_client.cc:385-1705 | Against a peer that sends anything: a client that comes to its end has sent a second hello iff it was sent a HelloVerifyRequest, a certificate (be it empty) iff it was asked for one, a CertificateVerify iff that was not empty, and the rest of its script |
| `TlsHandshakeChoices.ClientSpeaksAlways` | iOS/Pods/BoringSSL-GRPC/ssl/handshake_client.cc:385-1705 | The invariant behind it: what a client has sent is told by its state and by what it was asked for |
| `TlsHandshakeChoices.ServerSaysExactly` | iOS/Pods/BoringSSL-GRPC/ssl/handshake_server.cc:1539-1620 | Against a peer that sends anything: a server that comes to its end has sent its script, which nothing a client says changes |

## Left out

DTLS:

- Sealing in place: records and plaintexts are values, and the wire bytes are stored to the packet array, so the aliasing checks of `dtls_seal_record` are not modelled.
- `ssl_record_sequence_update`: its body is not part of this model; its documented contract (`internal.h:746-748`) is used.
- `ssl_process_alert`: an authentic alert is handed up with its plaintext, what becomes of it is not modelled.
- Write shutdown, message callbacks, failing allocations, `flight_has_reply` and the clearing done by `dtls1_on_handshake_complete`.
- The transcript hash itself: both sides' inputs to it are compared as byte sequences. The reset after a HelloVerifyRequest is not modelled.
- DtlsEndToEnd.ReceivedIsPrefixOfSent: for fewer than 2^16 messages on a connection, because message numbers repeat after that.
- DtlsEndToEnd.MoveKeeps: the network delivers records that were sealed, with any bytes behind them; it does not make up records of its own in front, since in the unprotected epoch those could carry anything.
- DtlsWriterRuns.NumbersAreUnique: until a 48-bit sequence number or the 16-bit epoch wraps; the source refuses only the former.
- DtlsDelivery.FlightArrives: for fragments that arrive in one read epoch; `FlightDelivered` is about records in the world, again with no key change between the deliveries.
- DtlsWriterSpec.SendFlightCarries: if no packet can be made (a cipher fails or the MTU is too small) the position is where sealing stopped, as in the source, which puts it back only after a failed write.
- DtlsProgress.FlightGoes: for ciphers that never fail, counters that do not run out, packets with room for a byte more than the overhead, and writes that succeed; elsewhere `SendFlightCarries` says what a failure leaves.
- DtlsTimer.RetransmitTimer.CountTimeout: the counter has no upper bound; the source's is an unsigned int. The packet size after timeouts is in `Transport.HandleTimeout`.

nanopb:

- Pointer fields, callbacks, extensions, `PB_WITHOUT_64BIT`, streams with their own read and write functions and their errors: not part of the default static path.
- Descriptors that refer to themselves: a descriptor is a finite tree.
- The delimited and null-terminated entry points, and `pb_release`: they only wrap the functions modelled.
- The reason of a decoding failure, and what the destination holds after one.
- The destination of a decoder is passed and returned as a value, and the members of a union have storage of their own, so aliasing of destinations is not modelled.
- `size_t` is unbounded; padding bytes of structures are not modelled.
- The bytes of a submessage inside a fixed-count array: their layout is not known here, so that its first word counts as zero in the check for defaults and is not cleared in defaults.
- PbRoundTrip.DecodeOfEncode: not for explicit defaults on singular fields and fixed-count arrays in singular submessages, where it is false; `RoundTripExactly` gives the exact condition.
- PbMerge.MergesExactly: not for descriptors with fixed-count arrays, whose progress is forgotten between two calls.
- PbMerge.UnknownFieldsAreTransparent: at a field boundary of the outermost message.
- PbVarint.ReadVarint32OfVarint: for varints that the encoder writes; nothing is claimed about longer forms of the same value.

TLS:

- TLS 1.3, early data, SSL 3.0, renegotiation and V2ClientHello.
- Contents of messages, certificates, key exchange, signatures and Finished values: a message is its type, and the settings both sides have agreed on are given. That hello contents lead to the same settings is not modelled.
- Which ciphers are usable (version and key exchange masks): a set given to the choice.
- The handshake over records: the two sides are joined by an ordered reliable connection whose flushes may be partial. HelloVerifyRequest is never sent by this server.
- What the server does about a client without a certificate where it demands one.
- TlsWriterSpec.ExactlyOnce: for callers that repeat what an unfinished call has sealed, as the API demands; the source cannot tell if they do not.
- TlsWriter.AppDataWriter.WriteAppData: that the real bytes agree with the specification is stated while capacity and alignment slack stay below 2^16. Alerts that share `do_ssl3_write`, early data and the splitting of records inside `tls_seal_record` are not modelled.
- TlsWriterProgress.WriteSucceeds: for records that fit 16 bits together with unsent handshake data; larger ones are refused by the buffer.
- TlsHandshakeProgress.HandshakeCompletes: the 82 rounds flush everything and have every callback ready; a callback that is never ready holds up the handshake, as in the source.
- TlsHandshakeAlone.ClientAcceptsOnly: of the types of messages; what they contain is given.
- The read side of the connection and `ssl_open_app_data`.

The rest of the repository:

- The Swift user interface, the Firebase listener, the delegate and image helpers and the sensor script: input and output over libraries that are not here.
- `crypto/`, `err_data.c`, `ssl_file.cc`, `d1_srtp.cc`, `custom_extensions.cc`: platform code, tables or easy members.
- `ssl_asn1.cc` and `handoff.cc`: they rest on ASN.1 code that is not here.
