# Protocol cores of the vendored C and C++ libraries

SEWA Connect's iOS app carries two libraries whose correctness everything above them rests on: the
TLS library BoringSSL (`ios/SEWA Connect/Pods/BoringSSL-GRPC`) and the Protocol Buffers library nanopb
(`ios/SEWA Connect/Pods/nanopb`). This project models their protocol cores in Dafny and proves what
those cores are for. `dafny verify dfyconfig.toml` checks all of it.

The source changes state in place, so the model does too: each object of the source is a class with
the same fields and each operation a method with the same loops, branches and error returns. Every
method is proved to do to its object what a function does to a value (`View`, `Contents`, `Rest`,
`State`), and the theorems are proved about those functions, over all runs.

**DTLS handshake transport** (files `Dtls*.dfy`; sections 4.1, 4.1.2.6 and 4.2.2 to 4.2.4 of RFC 6347).
`DtlsFragment` is the fragment header, `DtlsReassembly` the bit mask of received bytes, `DtlsReceive` and
`DtlsReceiver` the seven-slot ring as a value and on the heap, `DtlsRing` its invariant. `DtlsRecordLayer`
and `DtlsReader` are the reading record layer with its alerts and the law that records the cipher rejects
change nothing, `DtlsReplay` the sliding window. `DtlsRecords` numbers the records written and says how long
the numbers stay unique, `DtlsFlight` and `DtlsSender` cut flights into fragments and datagrams and resume
after refused writes, `DtlsCoverage` says what following a flight carries, `DtlsReady` what one call
carries, `DtlsCutOff` exactly when a packet loses records, and `DtlsResumed` what any number of calls carry
together. `DtlsDelivery` joins a sender and a receiver by a network that loses, repeats, delays and
reorders, and proves delivery in order; `DtlsPace` proves it for any number of messages, `DtlsLimit` shows
the bounds of both and of replay protection to be exact. `DtlsProgress` says what a fragment adds, which
alert answers one that is refused, and that nothing is processed twice, `DtlsAssembly` which arrivals are
admitted, when reading ends and exactly when a message is complete, and `DtlsAnyOrder` which records may
arrive in any order.

**nanopb** (files `Pb*.dfy`; the Protocol Buffers encoding). `PbWire` holds varints, zig-zag and fixed
widths, `PbSchema` descriptors and message values, `PbEncode` and `PbDecode` the meaning of the wire format
field by field. `PbOstream` and `PbIstream` are the streams over arrays with the encoder and the decoder,
`PbIter` the field iterator with its offsets, `PbSeen` the bitset of required fields. `PbFormat` tells the
bytes themselves without encoder or decoder: digits, keys, lengths, order, omissions. `PbRoundTrip`,
`PbMerge`, `PbRequired` and `PbReencode` prove the laws of the format, `PbNested` those of fields that occur
again or not at all, and `PbSkew` those of readers older than the writer.

**TLS 1.0 to 1.2 handshake** (files `Tls*.dfy` but for the writer; sections 7.3 and 7.4.9 of RFC 5246).
`TlsHandshake` has every step of both machines as a function, `TlsState`, `TlsClientMachine` and
`TlsServerMachine` the objects and the two loops, `TlsConnection` two objects joined by channels.
`TlsScript` is the order of messages as the protocol defines it; `TlsSides` and `TlsServerSide` prove that
each machine keeps to it, `TlsAgreement` that two of them agree and never get stuck, `TlsSafety` what each
step keeps against any peer at all, and `TlsRuns` what therefore holds of whole runs and of the two loops.
`TlsReady` tells exactly when a step goes on, waits, suspends or fails. `TlsPassage` and `TlsServerPassage`
are tables of what has to be taken in, said and checked in each state, and `TlsPassed` proves of every run
against any peer that the states passed are those of the handshake, each with its checks. `CipherChoice` and
`Premaster` are two algorithms of the server.

**TLS write path** (`TlsBuffer`, `TlsWriter`): the byte queue, the pending flight, partial writes and
retries, with a log of what was sealed that the wire is compared with.

**Reference counts** (`Refcount`): the compare-and-swap loops as steps of any number of threads, the locked
version, and the refinement between them.

What comes from outside is a parameter: the answers of the transport, the outcome of callbacks and
cryptographic checks, the contents of messages, the addresses of allocated buffers. A cipher is a box
that yields at most its maximal overhead more than it was given. Where the code and its comments
differ, the model follows the code; these differences are results of their own:

- A fragment numbered exactly seven past the read number passes the filter for messages too far in the
  future but is then a fatal error (`DtlsProgress.GenuineRefusals`), and like every fatal record that is
  admitted it ends reading for good (`DtlsAssembly.StopsAtFirstFatal`).
- Fragments may arrive in any order only within 64 records of each other: a flight of 65 records that
  arrives backwards is not assembled (`DtlsAnyOrder.AnyOrderExactly`, `DtlsAnyOrder.OneTooMany`).
- A packet that fails after some of its records were sealed drops those records although the position
  has moved past them. When that happens can be read off the counters, the keys and the lengths in the
  flight's layout (`DtlsCutOff.DropsExactlyWhenCutOff`): the last record number falls inside a packet
  (`DtlsCutOff.FirstMessageLost`), or a message outgrows its record there
  (`DtlsCutOff.LongMessageLosesShort`). Either way a flight is reported as sent whose first message never
  was.
- Sealing at the last 48-bit number is refused but winds the counter back to zero, and the 16-bit epoch
  wraps: record numbers are unique exactly within 2^48 seals to an epoch and 2^16 epochs
  (`DtlsRecords.UniqueExactlyWithinBounds`).
- Message numbers have 16 bits, and only the replay window tells a wrapped one from an old one. It does so
  exactly as long as the sender keeps within 2^16 messages of the receiver and neither side's epoch wraps
  (`DtlsLimit.PacedSafeExactly`); a wrapped read epoch ends replay protection as well
  (`DtlsLimit.ReplaylessExactlyBelowWrap`).
- A string that fills its array without a terminator encodes, but what it encodes to does not decode
  (`PbRoundTrip.MessageRoundTrip`).
- A zero tag ends a message early, so concatenation merges only without one
  (`PbMerge.DecodingConcatenationMerges`).
- A cipher group that is never closed is lost (`CipherChoice.OpenGroupIsLost`).
- The 16-bit buffer offset wraps when capacity and alignment slack together exceed 2^16
  (`TlsBuffer.KeepsTheRestExactly`, `TlsBuffer.LosesBytes`).
- Flushing without a pending flight reports success even while the write buffer is not empty
  (`TlsWriter.Writer.FlushFlight`, `TlsWriter.FlushOverlooksBuffer`).
- A retry with less data than was already written forgets how far the write had come
  (`TlsWriter.ShortRetrySealsTwice`, `TlsWriter.SecondByteTwice`).

## Model

| member | source | states |
|---|---|---|
| `DtlsDelivery.DeliverySafety` | ios/SEWA Connect/Pods/BoringSSL-GRPC/ssl/d1_both.cc:297-438 | For every history of at most 2^16 - 1 messages, every MTU, every loss, reordering, duplication and retransmission, and any number of key changes on either side: what the receiver has handed out is a prefix of what the sender was given, in order and byte for byte |
| `DtlsDelivery.StepKeepsInv` | ios/SEWA Connect/Pods/BoringSSL-GRPC/ssl/d1_both.cc:297-438 | Each kind of event keeps the two-party invariant: everything on the wire, in the flight and in the ring is a true piece of a message of the history, and the receiver is exactly as far as what it handed out |
| `DtlsDelivery.RunKeepsInv` | ios/SEWA Connect/Pods/BoringSSL-GRPC/ssl/d1_both.cc:297-438 | Every run of allowed events keeps the two-party invariant |
| `DtlsDelivery.ReleasedIsNext` | ios/SEWA Connect/Pods/BoringSSL-GRPC/ssl/d1_both.cc:408-438 | The complete message in the current slot is the message of the history with the read number, byte for byte |
| `DtlsDelivery.SendKeepsInv` | ios/SEWA Connect/Pods/BoringSSL-GRPC/ssl/d1_both.cc:739-827 | A packet sealed and either taken or refused by the network puts only true pieces of the history on the wire |
| `DtlsDelivery.ArrivalKeepsInv` | ios/SEWA Connect/Pods/BoringSSL-GRPC/ssl/dtls_record.cc:177-262 | A record that arrives, old or new, in any epoch, leaves only true bytes in the ring |
| `DtlsAssembly.AssembledExactly` | ios/SEWA Connect/Pods/BoringSSL-GRPC/ssl/d1_both.cc:297-406 | Whatever records of the peer arrive, in whatever order and however often, through the epoch filter and the replay window: reading survives if and only if no fatal one is admitted, and then a wanted message is complete if and only if each of its bytes was held or is carried by an admitted record; which arrivals are admitted is told from epochs and numbers alone |
| `DtlsAssembly.FlightAssembles` | ios/SEWA Connect/Pods/BoringSSL-GRPC/ssl/d1_both.cc:297-406 | If every record of one of a flight's messages, which the receiver wants, is admitted among whatever else of the peer arrives, the message is complete, unless a fatal record is admitted, which alone ends reading |
| `DtlsAssembly.ReadingSurvives` | ios/SEWA Connect/Pods/BoringSSL-GRPC/ssl/ssl_lib.cc:209-241 | Reading goes on after any arrivals if and only if none that is fatal at the position and epoch is admitted; a record of another epoch or a replayed one is never fatal |
| `DtlsAssembly.AdmittedTail` | ios/SEWA Connect/Pods/BoringSSL-GRPC/ssl/dtls_record.cc:221-255 | Admission as told from the numbers alone, of the read epoch, let through by the window at the start, no earlier arrival of the same number and none 64 or more ahead, is what the window decides record by record |
| `DtlsAssembly.RunsReceive` | ios/SEWA Connect/Pods/BoringSSL-GRPC/ssl/d1_both.cc:297-438 | After every run of a connection the receiver is in the state these results start from |
| `DtlsAnyOrder.AnyOrderExactly` | ios/SEWA Connect/Pods/BoringSSL-GRPC/ssl/dtls_record.cc:140-175 | Records are all admitted in every order of arrival if and only if none is 64 or more ahead of another |
| `DtlsAnyOrder.ShortFlightAssembles` | ios/SEWA Connect/Pods/BoringSSL-GRPC/ssl/d1_both.cc:297-406 | A flight that one call sent with at most 64 numbers of the epoch is assembled in whatever order and however often its records arrive |
| `DtlsAnyOrder.OneTooMany` | ios/SEWA Connect/Pods/BoringSSL-GRPC/ssl/dtls_record.cc:140-175 | A flight of 65 records, sent in full, that arrives backwards is not assembled: the first record has fallen out of the window |
| `DtlsAssembly.StopsAtFirstFatal` | ios/SEWA Connect/Pods/BoringSSL-GRPC/ssl/ssl_lib.cc:209-241 | Reading ends for good exactly at the first fatal record that is admitted, and what was assembled before it stays |
| `DtlsProgress.GenuineRefusals` | ios/SEWA Connect/Pods/BoringSSL-GRPC/ssl/d1_both.cc:362-390 | A fragment the peer really sent is refused if and only if its message is too long for the receiver, or it is not the one message the encrypted epoch waits for, or its number is exactly seven past the read number |
| `DtlsProgress.RunProcessesOnce` | ios/SEWA Connect/Pods/BoringSSL-GRPC/ssl/dtls_record.cc:204-255 | In every run whose changes of the read keys do not wrap the 16-bit epoch, no record, told by epoch and number, is processed twice |
| `DtlsProgress.NothingProcessed` | ios/SEWA Connect/Pods/BoringSSL-GRPC/ssl/dtls_record.cc:204-255 | A fresh connection meets the invariant on which replay protection rests |
| `DtlsLimit.ReplaylessExactlyBelowWrap` | ios/SEWA Connect/Pods/BoringSSL-GRPC/ssl/dtls_method.cc:81-95 | No run with at most a given number of changes of the read keys processes a record twice, if and only if that number is below 2^16 |
| `DtlsLimit.ProcessesAgain` | ios/SEWA Connect/Pods/BoringSSL-GRPC/ssl/dtls_method.cc:81-95 | With 2^16 changes of the read keys there is a run, from the start of a connection, in which the first record is processed a second time |
| `DtlsLimit.SafeExactlyBelowWrap` | ios/SEWA Connect/Pods/BoringSSL-GRPC/ssl/d1_both.cc:297-438 | Whatever the key changes and however far the sender runs ahead, every run with at most a given number of messages hands out a prefix of what was sent if and only if that number is below 2^16 |
| `DtlsPace.PacedDelivery` | ios/SEWA Connect/Pods/BoringSSL-GRPC/ssl/d1_both.cc:297-438 | For any number of messages, although their numbers wrap: what is handed out is a prefix of what was sent, as long as the sender is never more than 2^16 messages ahead, neither epoch wraps and there are record numbers for all packets |
| `DtlsLimit.PacedSafeExactly` | ios/SEWA Connect/Pods/BoringSSL-GRPC/ssl/d1_both.cc:297-438 | Every run at a given pace and within given numbers of write and read key changes hands out a prefix of what was sent, if and only if there are fewer than 2^16 messages, or none may be sent, or the sender keeps within 2^16 messages of the receiver and neither side changes keys 2^16 times |
| `DtlsPace.StepKeepsInv` | ios/SEWA Connect/Pods/BoringSSL-GRPC/ssl/d1_both.cc:297-438 | Every step keeps this account of all messages by their place in the history: each record on the wire is cut from the message the ledger says, later messages have larger record numbers, and of each message handed out a record is in the window unless its epoch is over |
| `DtlsPace.TooOld` | ios/SEWA Connect/Pods/BoringSSL-GRPC/ssl/dtls_record.cc:140-153 | A record of a message 2^16 behind what the receiver takes is always outside the replay window |
| `DtlsLimit.RunsAhead` | ios/SEWA Connect/Pods/BoringSSL-GRPC/ssl/d1_both.cc:359-375 | A sender 2^16 + 1 messages ahead: the last message alone arrives and is handed out as the first |
| `DtlsLimit.TurnsAround` | ios/SEWA Connect/Pods/BoringSSL-GRPC/ssl/dtls_method.cc:81-95 | With 2^16 changes of the read keys the window has forgotten the first record, and after 2^16 messages it is handed out again |
| `DtlsLimit.WrapsAround` | ios/SEWA Connect/Pods/BoringSSL-GRPC/ssl/d1_both.cc:426-431 | With 2^16 messages there is a run that hands out one message more than was sent: the read number has wrapped, the write epoch has gone once around, and a record of the first message that was kept back is taken for a new one |
| `DtlsAssembly.HeldExactly` | ios/SEWA Connect/Pods/BoringSSL-GRPC/ssl/d1_both.cc:352-403 | While reading survives, the bytes held of a wanted message are exactly those held before and those some admitted record carries |
| `DtlsAssembly.CcsKeptExactly` | ios/SEWA Connect/Pods/BoringSSL-GRPC/ssl/d1_both.cc:315-341 | While reading survives, a ChangeCipherSpec is kept if and only if one was kept or an admitted record of the peer is one |
| `DtlsAssembly.ForgeriesAside` | ios/SEWA Connect/Pods/BoringSSL-GRPC/ssl/dtls_record.cc:232-249 | Whatever records the peer did not seal come between its own, the peer's are received as if they had come alone, so that all results on assembly hold among forgeries |
| `DtlsProgress.AddFragmentHolds` | ios/SEWA Connect/Pods/BoringSSL-GRPC/ssl/d1_both.cc:377-403 | Of every message exactly the bytes held before and those of a wanted fragment of the peer are held afterwards |
| `DtlsProgress.WhyRefused` | ios/SEWA Connect/Pods/BoringSSL-GRPC/ssl/d1_both.cc:362-390 | Of a peer that may send anything: which fragment is answered with which alert, and which is silently ignored, each if and only if |
| `DtlsProgress.LaterBytesWin` | ios/SEWA Connect/Pods/BoringSSL-GRPC/ssl/d1_both.cc:274-295 | Of any peer: the bytes of a fragment that is taken replace those held at their places, all others stay, and a complete message and the other slots are not touched |
| `DtlsProgress.PackingAside` | ios/SEWA Connect/Pods/BoringSSL-GRPC/ssl/d1_both.cc:350-406 | One record with two parts does what two records do; where the first part is refused the second is not looked at |
| `DtlsProgress.OtherRecords` | ios/SEWA Connect/Pods/BoringSSL-GRPC/ssl/d1_both.cc:307-345 | Application data is fatal under the null cipher and dropped later; a ChangeCipherSpec is kept exactly under the null cipher and with the one byte 1; a record that cannot be cut into fragments is a decoding error |
| `DtlsProgress.KeysChangeExactly` | ios/SEWA Connect/Pods/BoringSSL-GRPC/ssl/dtls_method.cc:81-95 | The read keys may change if and only if no ChangeCipherSpec is kept and nothing is held but the message handed out; the epoch then goes up by one on 16 bits |
| `DtlsFragment.ParseSerialize` | ios/SEWA Connect/Pods/BoringSSL-GRPC/ssl/d1_both.cc:459-473 | A serialized fragment followed by anything parses back to that fragment and exactly what followed |
| `DtlsFragment.ParsedFits` | ios/SEWA Connect/Pods/BoringSSL-GRPC/ssl/d1_both.cc:459-473 | Every fragment that parses has header fields of 8, 24, 16, 24 and 24 bits |
| `DtlsFragment.HeaderLayout` | ios/SEWA Connect/Pods/BoringSSL-GRPC/ssl/d1_both.cc:459-473 | Where the header has type, length, number, offset and fragment length, each number most significant byte first |
| `DtlsReassembly.BitRangeBits` | ios/SEWA Connect/Pods/BoringSSL-GRPC/ssl/d1_both.cc:201-206 | bit_range sets exactly the bits from its start up to its end, also when the end is 8 |
| `DtlsReassembly.MarkByteBits` | ios/SEWA Connect/Pods/BoringSSL-GRPC/ssl/d1_both.cc:226-234 | Every byte of the mask, first, middle, last or only one of the range, gains exactly the bits of the range that lie in it |
| `DtlsReassembly.FullMask` | ios/SEWA Connect/Pods/BoringSSL-GRPC/ssl/d1_both.cc:236-246 | The comparison with full bytes and one partial byte holds exactly when every byte of the message has arrived |
| `DtlsReassembly.PaddingStays` | ios/SEWA Connect/Pods/BoringSSL-GRPC/ssl/d1_both.cc:211-234 | The padding bits past the message stay zero |
| `DtlsReassembly.HmFragment.constructor` | ios/SEWA Connect/Pods/BoringSSL-GRPC/ssl/d1_both.cc:152-198 | A new message has no byte received, the header of a whole message in its data, and no mask exactly when it is empty |
| `DtlsReassembly.HmFragment.SetBits` | ios/SEWA Connect/Pods/BoringSSL-GRPC/ssl/d1_both.cc:226-234 | In place, exactly the bits of the range are added, every access being in bounds, and the padding stays zero |
| `DtlsReassembly.HmFragment.IsFull` | ios/SEWA Connect/Pods/BoringSSL-GRPC/ssl/d1_both.cc:236-246 | True exactly when every byte of the message has arrived |
| `DtlsReassembly.HmFragment.Mark` | ios/SEWA Connect/Pods/BoringSSL-GRPC/ssl/d1_both.cc:211-251 | The received positions grow by exactly the range, and the mask becomes null exactly when all of the message has arrived |
| `DtlsReassembly.HmFragment.Fill` | ios/SEWA Connect/Pods/BoringSSL-GRPC/ssl/d1_both.cc:399-402 | Copying the body in and marking it is the merge of the fragment into the map of received bytes |
| `DtlsRing.InitialRing` | ios/SEWA Connect/Pods/BoringSSL-GRPC/ssl/d1_both.cc:265-295 | The ring of a new connection meets the ring invariant |
| `DtlsRing.AddFragmentKeepsRing` | ios/SEWA Connect/Pods/BoringSSL-GRPC/ssl/d1_both.cc:359-403 | Every fragment keeps the ring invariant: slot i holds a message numbered i modulo 7 and less than seven past the read number, whose bytes came from one epoch |
| `DtlsRing.SlotMatches` | ios/SEWA Connect/Pods/BoringSSL-GRPC/ssl/d1_both.cc:274-277 | The assertion that the slot holds the message of the fragment cannot fail |
| `DtlsRing.CompleteStays` | ios/SEWA Connect/Pods/BoringSSL-GRPC/ssl/d1_both.cc:393-396 | No fragment changes a message once it is complete |
| `DtlsRing.NextMessageKeepsRing` | ios/SEWA Connect/Pods/BoringSSL-GRPC/ssl/d1_both.cc:426-438 | Releasing a message keeps the ring invariant, and when the read number wraps to zero the ring is empty |
| `DtlsRing.SetReadStateKeepsRing` | ios/SEWA Connect/Pods/BoringSSL-GRPC/ssl/dtls_method.cc:81-95 | Changing the read epoch keeps the ring invariant, so no message is assembled from two epochs |
| `DtlsRing.EveryRunKeepsRing` | ios/SEWA Connect/Pods/BoringSSL-GRPC/ssl/d1_both.cc:265-457 | The ring invariant holds after every run of the receiving operations, whatever the peer sends |
| `DtlsReceiver.HandshakeReceiver.IsCurrentMessageComplete` | ios/SEWA Connect/Pods/BoringSSL-GRPC/ssl/d1_both.cc:255-259 | True exactly when every byte of the message with the read number has been received |
| `DtlsReceiver.HandshakeReceiver.GetIncomingMessage` | ios/SEWA Connect/Pods/BoringSSL-GRPC/ssl/d1_both.cc:265-295 | Refuses a number outside the ring or a type or length at odds with the message begun; otherwise the slot holds the message of the fragment, a new one if there was none, and no other slot changes |
| `DtlsReceiver.HandshakeReceiver.TakeFragment` | ios/SEWA Connect/Pods/BoringSSL-GRPC/ssl/d1_both.cc:359-403 | One fragment leaves the heap ring, and the alert, as the fragment step on values does |
| `DtlsReceiver.HandshakeReceiver.TakeRecord` | ios/SEWA Connect/Pods/BoringSSL-GRPC/ssl/d1_both.cc:350-406 | The loop over the fragments of a record is the record step on values: what came before an error stays, the error is reported |
| `DtlsReceiver.HandshakeReceiver.Open` | ios/SEWA Connect/Pods/BoringSSL-GRPC/ssl/d1_both.cc:297-406 | After dtls_open_record, which has dealt with alerts: application data, ChangeCipherSpec and handshake records leave the heap ring as the step on values does, with its outcome |
| `DtlsReceiver.HandshakeReceiver.Get` | ios/SEWA Connect/Pods/BoringSSL-GRPC/ssl/d1_both.cc:408-424 | A message is handed out exactly when the current one is complete; its body is that of the assembled bytes and its raw form is the message serialized as a single fragment |
| `DtlsReceiver.HandshakeReceiver.Next` | ios/SEWA Connect/Pods/BoringSSL-GRPC/ssl/d1_both.cc:426-438 | Frees the current slot, advances the 16-bit read number and changes no other slot |
| `DtlsReceiver.HandshakeReceiver.HasUnprocessedData` | ios/SEWA Connect/Pods/BoringSSL-GRPC/ssl/d1_both.cc:440-457 | True exactly when a ChangeCipherSpec is kept or a slot other than the handed out message is occupied |
| `DtlsReceiver.HandshakeReceiver.ChangeReadState` | ios/SEWA Connect/Pods/BoringSSL-GRPC/ssl/dtls_method.cc:81-95 | Refused exactly while there is unprocessed data; otherwise the epoch goes up by one on 16 bits and nothing else changes |
| `DtlsReceiver.HandshakeReceiver.OpenChangeCipherSpec` | ios/SEWA Connect/Pods/BoringSSL-GRPC/ssl/d1_both.cc:475-493 | A kept ChangeCipherSpec is used up; without one the record is opened first, and anything but a ChangeCipherSpec is dropped |
| `DtlsReader.RecordReader.ReceiveRecord` | ios/SEWA Connect/Pods/BoringSSL-GRPC/ssl/dtls_record.cc:177-262 | Epoch filter, replay window, cipher, length check, alerts and handshake, on the heap: window, ring and reading state change as the step on values says, about which the laws of the record layer are: the window notes no number before the cipher has accepted the record, and after an error or a close no record gets through |
| `DtlsRecordLayer.RejectedChangesNothing` | ios/SEWA Connect/Pods/BoringSSL-GRPC/ssl/dtls_record.cc:221-249 | A record of another epoch, one replayed or too old, or one the cipher rejects leaves window, handshake, shutdown and the count of warnings as they were, and is discarded while reading goes on |
| `DtlsRecordLayer.RejectedAnywhere` | ios/SEWA Connect/Pods/BoringSSL-GRPC/ssl/dtls_record.cc:221-249 | Such a record at any place among the arrivals changes nothing that those after it do |
| `DtlsRecordLayer.ForgeriesChangeNothing` | ios/SEWA Connect/Pods/BoringSSL-GRPC/ssl/dtls_record.cc:232-249 | Any number of records the cipher rejects, whatever their numbers, leave what is received as if they had not come |
| `DtlsRecordLayer.ShutForGood` | ios/SEWA Connect/Pods/BoringSSL-GRPC/ssl/ssl_lib.cc:209-241 | After an error or a close nothing that arrives changes anything, and every record gets the same answer |
| `DtlsRecordLayer.AlertsDecide` | ios/SEWA Connect/Pods/BoringSSL-GRPC/ssl/tls_record.cc:551-602 | A row of alerts never touches the handshake. Warnings are counted, and the first alert that is not one of at most four in a row decides: close_notify closes reading in order, a fatal alert ends it for good with no answer, one warning too many, an unknown level and a malformed alert with the alert each calls for |
| `DtlsReader.RecordReader.ChangeReadState` | ios/SEWA Connect/Pods/BoringSSL-GRPC/ssl/dtls_method.cc:81-95 | A successful change of epoch clears the replay window, a refused one changes nothing |
| `DtlsReplay.ToU64Be` | ios/SEWA Connect/Pods/BoringSSL-GRPC/ssl/dtls_record.cc:128-138 | The unrolled shifts read the eight bytes as one big-endian number |
| `DtlsReplay.Bitmap.ShouldDiscard` | ios/SEWA Connect/Pods/BoringSSL-GRPC/ssl/dtls_record.cc:140-153 | True exactly when the number was recorded before or lies 64 or more behind the largest recorded one |
| `DtlsReplay.Bitmap.Record` | ios/SEWA Connect/Pods/BoringSSL-GRPC/ssl/dtls_record.cc:155-175 | The bitmap then stands for the recorded set with this number added: the window has slid or a bit was set |
| `DtlsReplay.SlideTracks` | ios/SEWA Connect/Pods/BoringSSL-GRPC/ssl/dtls_record.cc:160-169 | Shifting the 64-bit map by the advance, or clearing it when the advance is 64 or more, keeps bit i the record of the i-th number below the new maximum |
| `DtlsReplay.SetTracks` | ios/SEWA Connect/Pods/BoringSSL-GRPC/ssl/dtls_record.cc:171-174 | Setting the bit of an older number adds exactly that number, and nothing when it is out of the window |
| `DtlsRecords.RecordNumbersUnique` | ios/SEWA Connect/Pods/BoringSSL-GRPC/ssl/dtls_record.cc:294-351 | In every run of seals under the current or previous epoch and of key changes, from any state whose counters suffice for it, no two records have the same epoch and number |
| `DtlsRecords.OldKeysGoOn` | ios/SEWA Connect/Pods/BoringSSL-GRPC/ssl/dtls_method.cc:97-107 | After a key change the old keys make the records they would have made before, and the new ones begin at number zero of the next epoch |
| `DtlsRecords.UniqueExactlyWithinBounds` | ios/SEWA Connect/Pods/BoringSSL-GRPC/ssl/dtls_record.cc:294-351 | From a fresh connection, all runs with at most n seals to an epoch and m key changes number their records apart, if and only if n is zero, or n is at most 2^48 and m below 2^16 |
| `DtlsRecords.RunAvoidsGone` | ios/SEWA Connect/Pods/BoringSSL-GRPC/ssl/dtls_method.cc:97-107 | No such run ever uses an epoch and number that its starting state has already passed |
| `DtlsRecords.CounterRepeats` | ios/SEWA Connect/Pods/BoringSSL-GRPC/ssl/dtls_record.cc:331-336 | From a fresh connection: after 2^48 - 1 records the next seal is refused but leaves the counter at zero, and one more repeats the first record |
| `DtlsRecords.EpochRepeats` | ios/SEWA Connect/Pods/BoringSSL-GRPC/ssl/dtls_method.cc:97-107 | From a fresh connection: after 2^16 key changes the epoch is zero again, and the next record has the number of the first |
| `DtlsFlight.SealFollows` | ios/SEWA Connect/Pods/BoringSSL-GRPC/ssl/d1_both.cc:644-734 | Sealing a message, if it makes a record, makes exactly the next piece of the flight and moves the position past it; if it makes none the position stays |
| `DtlsFlight.PacketFollows` | ios/SEWA Connect/Pods/BoringSSL-GRPC/ssl/d1_both.cc:739-780 | The records of a packet are the next pieces of the flight, contiguous and without overlap, and the position ends right after them |
| `DtlsFlight.PacketFits` | ios/SEWA Connect/Pods/BoringSSL-GRPC/ssl/d1_both.cc:739-780 | The records of a packet together are never longer than the space given |
| `DtlsFlight.FragmentsFill` | ios/SEWA Connect/Pods/BoringSSL-GRPC/ssl/d1_both.cc:692-733 | A fragment takes all that is left of its message if that fits the space with the overhead the cipher may add, and otherwise all that the space then allows |
| `DtlsFlight.PacketGoesOn` | ios/SEWA Connect/Pods/BoringSSL-GRPC/ssl/d1_both.cc:739-780 | A packet ends with the flight, with an error, or full: with a message cut, or before one of which not even a byte fits |
| `DtlsFlight.SendLoopFollows` | ios/SEWA Connect/Pods/BoringSSL-GRPC/ssl/d1_both.cc:782-827 | Whatever the transport answers, every datagram is non-empty and within the MTU, success means that the flight is over, and the datagrams taken carry the flight on from the old to the new position if and only if no packet failed after sealing something |
| `DtlsCutOff.DropsExactlyWhenCutOff` | ios/SEWA Connect/Pods/BoringSSL-GRPC/ssl/d1_both.cc:739-827 | For every flight, MTU and answers: a packet fails after sealing something if and only if, in the layout of the flight as lengths and keys alone determine it, the first record to take the last number of its epoch, or the first message that is unfit, is not the first of its packet |
| `DtlsCutOff.PacketFailsExactly` | ios/SEWA Connect/Pods/BoringSSL-GRPC/ssl/d1_both.cc:644-780 | A packet of the layout fails if and only if the message it comes to has no keys, is not stored whole, or in the room left makes a record that outgrows its 16-bit length |
| `DtlsCutOff.LongMessageLosesShort` | ios/SEWA Connect/Pods/BoringSSL-GRPC/ssl/d1_both.cc:739-827 | With fresh counters: at an MTU of 100000 a message of 70000 bytes takes the short message before it down with it, and the next call, at an MTU of 1400, reports success without the short one ever having been sent |
| `DtlsCutOff.FirstMessageLost` | ios/SEWA Connect/Pods/BoringSSL-GRPC/ssl/d1_both.cc:739-827 | Two messages of one byte with the counter one short of its last number: the first call fails and sends nothing but has moved past the first message, and the next call reports success having sent the second one alone |
| `DtlsReady.ReadyNeverDrops` | ios/SEWA Connect/Pods/BoringSSL-GRPC/ssl/d1_both.cc:782-827 | With everything sealable and as many record numbers left as there are bytes and messages to send, no packet fails half-sealed, whatever the transport answers, and one call uses up no more numbers than that |
| `DtlsReady.ReadyNeverFails` | ios/SEWA Connect/Pods/BoringSSL-GRPC/ssl/d1_both.cc:739-780 | Under the same guard no packet fails at all, and the numbers to spare are still there after it |
| `DtlsReady.FlightCarriedOnce` | ios/SEWA Connect/Pods/BoringSSL-GRPC/ssl/d1_both.cc:782-827 | A flight sent in full by one call, whatever the MTU, the keys and the counters, carries every byte of every one of its messages exactly once |
| `DtlsReady.SuccessDropsNothing` | ios/SEWA Connect/Pods/BoringSSL-GRPC/ssl/d1_both.cc:782-827 | A call that succeeds has dropped nothing |
| `DtlsResumed.RoundsFollow` | ios/SEWA Connect/Pods/BoringSSL-GRPC/ssl/d1_both.cc:797-827 | However often sending stopped and was called again: the calls carry the flight on from where it stood to where it stands, if and only if before none of them the layout has a packet that is cut off |
| `DtlsResumed.ResumedFlightCarriedOnce` | ios/SEWA Connect/Pods/BoringSSL-GRPC/ssl/d1_both.cc:797-827 | Any number of calls, each with its own MTU and refused writes, that together send the flight without one being cut off, carry every byte of every one of its messages exactly once |
| `DtlsResumed.ReadyRoundsNotCutOff` | ios/SEWA Connect/Pods/BoringSSL-GRPC/ssl/d1_both.cc:797-827 | If everything can be sealed and numbers for the whole flight are left for each call, none is cut off |
| `DtlsCoverage.RestCarriedOnce` | ios/SEWA Connect/Pods/BoringSSL-GRPC/ssl/d1_both.cc:797-827 | Following a flight from any position to its end carries each byte still to be sent once and no other byte of its messages |
| `DtlsReady.FlightCompletes` | ios/SEWA Connect/Pods/BoringSSL-GRPC/ssl/d1_both.cc:782-827 | Given keys for every message, numbers for what is left and an MTU with room for one byte, a transport that accepts as many datagrams as there are bytes and messages left sees the flight through |
| `DtlsReady.CloserHasLessLeft` | ios/SEWA Connect/Pods/BoringSSL-GRPC/ssl/d1_both.cc:644-734 | A position further along has strictly fewer bytes and messages left, so sending ends |
| `DtlsReady.RoomMeansProgress` | ios/SEWA Connect/Pods/BoringSSL-GRPC/ssl/d1_both.cc:741-777 | With room for a one-byte fragment every packet carries at least one record, so MTU_TOO_SMALL is not reported |
| `DtlsSender.HandshakeSender.Add` | ios/SEWA Connect/Pods/BoringSSL-GRPC/ssl/d1_both.cc:555-602 | A message or ChangeCipherSpec starts a new flight after a complete one, is refused, with everything left as it was, when seven are queued, and is otherwise appended with the current epoch, a message using up a 16-bit number |
| `DtlsSender.HandshakeSender.ChangeWriteState` | ios/SEWA Connect/Pods/BoringSSL-GRPC/ssl/dtls_method.cc:97-107 | The current counter and keys become the previous ones, the counter restarts at zero and the epoch goes up |
| `DtlsSender.HandshakeSender.Seal` | ios/SEWA Connect/Pods/BoringSSL-GRPC/ssl/dtls_record.cc:294-351 | Seals under the chosen epoch: a cipher that does not fit leaves the counter, wraparound and oversize are reported after it moved |
| `DtlsSender.HandshakeSender.SealNext` | ios/SEWA Connect/Pods/BoringSSL-GRPC/ssl/d1_both.cc:644-734 | The heap sender seals the next message or fragment as the step on values does, in status, record and new state |
| `DtlsSender.HandshakeSender.SealPacket` | ios/SEWA Connect/Pods/BoringSSL-GRPC/ssl/d1_both.cc:739-780 | The packing loop produces the packet defined on values and leaves the sender where it says; nothing sealed or an error yields no packet |
| `DtlsSender.HandshakeSender.SendFlight` | ios/SEWA Connect/Pods/BoringSSL-GRPC/ssl/d1_both.cc:782-827 | The sending loop hands the transport exactly the datagrams defined on values; a refused datagram puts the position, but not the counters, back |
| `DtlsSender.HandshakeSender.FlushFlight` | ios/SEWA Connect/Pods/BoringSSL-GRPC/ssl/d1_both.cc:829-834 | Marks the flight complete and sends what is left of it |
| `DtlsSender.HandshakeSender.Retransmit` | ios/SEWA Connect/Pods/BoringSSL-GRPC/ssl/d1_both.cc:836-845 | Sends the flight again from its first message |
| `PbRoundTrip.MessageRoundTrip` | ios/SEWA Connect/Pods/nanopb/pb_decode.c:1051-1063 | For every well-formed descriptor and every message of its shape that encodes to fewer than 2^32 bytes: decoding those bytes consumes them all and yields the message with defaults normalised, if and only if no string in it lacks room for its terminator; otherwise decoding fails |
| `PbRoundTrip.FieldsRoundTrip` | ios/SEWA Connect/Pods/nanopb/pb_decode.c:901-1049 | The same from any field on, with the struct partly filled: the rest of the encoding completes it and marks every required field |
| `PbRoundTrip.ValRoundTrip` | ios/SEWA Connect/Pods/nanopb/pb_decode.c:1289-1508 | Each scalar, string, bytes, fixed-length or submessage value followed by anything is read back with exactly what followed |
| `PbRoundTrip.ItemsRoundTrip` | ios/SEWA Connect/Pods/nanopb/pb_decode.c:449-459 | An unpacked array is read back entry by entry behind the entries before it |
| `PbRoundTrip.PackedRoundTrip` | ios/SEWA Connect/Pods/nanopb/pb_decode.c:420-448 | The data of a packed array fills the array with the encoded entries and ends exactly with them |
| `PbRoundTrip.AbsentField` | ios/SEWA Connect/Pods/nanopb/pb_encode.c:316-385 | A field that is not encoded is one whose normal form is its default |
| `PbWire.VarintRoundTrip` | ios/SEWA Connect/Pods/nanopb/pb_decode.c:250-270 | The bytes of a varint of up to 64 bits, followed by anything, are read back as it |
| `PbWire.Varint32RoundTrip` | ios/SEWA Connect/Pods/nanopb/pb_decode.c:182-242 | The 32-bit reader, with its checks of the fifth byte, reads back the varint of every 32-bit value |
| `PbWire.VarintReadersAgree` | ios/SEWA Connect/Pods/nanopb/pb_decode.c:182-242 | The 32-bit and the 64-bit reader agree, the first on the low 32 bits, on every varint of a 32-bit value and on the ten-byte varint of every negative 32-bit value extended by its sign |
| `PbFormat.VarintIs` | ios/SEWA Connect/Pods/nanopb/pb_encode.c:574-594 | A varint is the base-128 digits of the number, least first, each byte but the last with its top bit set, and no digit too many |
| `PbFormat.ReadVarintIs` | ios/SEWA Connect/Pods/nanopb/pb_decode.c:250-270 | The 64-bit reader on any bytes: it fails unless a byte without a top bit comes within ten bytes, and otherwise yields the digits on 64 bits and what follows |
| `PbFormat.TooLargeFor32` | ios/SEWA Connect/Pods/nanopb/pb_decode.c:182-242 | The 32-bit reader refuses every varint of 33 to 63 bits |
| `PbFormat.LongestFor32` | ios/SEWA Connect/Pods/nanopb/pb_decode.c:182-242 | The 32-bit reader takes a varint of 64 bits if and only if bit 31 is set and each of the groups from bit 35 to bit 62 is all zeros or all ones, and then yields its low 32 bits |
| `PbWire.ZigZagRoundTrip` | ios/SEWA Connect/Pods/nanopb/pb_encode.c:596-605 | Zig-zag and its inverse undo each other on all 64-bit values, and zig-zag is 2v or -2v - 1 |
| `PbWire.LittleEndianRoundTrip` | ios/SEWA Connect/Pods/nanopb/pb_decode.c:1254-1286 | Fixed-width little-endian bytes read back as the value |
| `PbFormat.LittleEndianDigit` | ios/SEWA Connect/Pods/nanopb/pb_encode.c:607-632 | Byte i of a fixed-width number is its i-th base-256 digit |
| `PbSchema.ProtoDefaultIsDefault` | ios/SEWA Connect/Pods/nanopb/pb_encode.c:215-303 | A proto3 value the encoder leaves out is, recursively, the default the decoder would set |
| `PbEncode.EncodesExactlyWhenFits` | ios/SEWA Connect/Pods/nanopb/pb_encode.c:494-516 | The message has an encoding if and only if every array and every bytes value that is present, at every depth, fits the room its descriptor gives it; strings never prevent it |
| `PbFormat.KeysOnTheWire` | ios/SEWA Connect/Pods/nanopb/pb_encode.c:635-672 | Every field is written under the key 8 * tag plus 0 for varints, 1 for eight bytes, 5 for four bytes and 2 for what has a length |
| `PbFormat.NumbersOnTheWire` | ios/SEWA Connect/Pods/nanopb/pb_encode.c:734-806 | A negative number is written as 64 bits in two's complement, a zig-zag one as 2v or -2v - 1, and fixed-width ones by their base-256 digits |
| `PbFormat.LengthsOnTheWire` | ios/SEWA Connect/Pods/nanopb/pb_encode.c:674-730 | Bytes, strings and submessages are written as their length and then themselves |
| `PbFormat.ArraysOnTheWire` | ios/SEWA Connect/Pods/nanopb/pb_encode.c:126-211 | Arrays of numbers are written under one key and one length with the entries one after the other, other arrays entry by entry, each under its key |
| `PbFormat.EncodesInOrder` | ios/SEWA Connect/Pods/nanopb/pb_encode.c:494-516 | A message is its fields' own bytes, in the order of the descriptor and nothing else |
| `PbFormat.LeftOutExactly` | ios/SEWA Connect/Pods/nanopb/pb_encode.c:215-303 | A proto3 field is left out if and only if it is zero, empty, or a submessage of which nothing would be written |
| `PbOstream.CollectVarint` | ios/SEWA Connect/Pods/nanopb/pb_encode.c:574-594 | The loop over seven-bit groups leaves exactly the varint of the value in the ten-byte buffer |
| `PbOstream.Ostream.BufWrite` | ios/SEWA Connect/Pods/nanopb/pb_encode.c:72-82 | Copies the bytes behind the position and touches nothing else |
| `PbOstream.Ostream.Write` | ios/SEWA Connect/Pods/nanopb/pb_encode.c:101-119 | Succeeds exactly when the bytes fit and counts them; a sizing stream only counts |
| `PbOstream.Ostream.EncodeVarint` | ios/SEWA Connect/Pods/nanopb/pb_encode.c:574-594 | Writes exactly the varint of the value |
| `PbOstream.Ostream.EncodeSvarint` | ios/SEWA Connect/Pods/nanopb/pb_encode.c:596-605 | Writes exactly the varint of the zig-zag of the value |
| `PbOstream.Ostream.EncodeFixed32` | ios/SEWA Connect/Pods/nanopb/pb_encode.c:607-616 | Writes exactly the four little-endian bytes |
| `PbOstream.Ostream.EncodeFixed64` | ios/SEWA Connect/Pods/nanopb/pb_encode.c:619-632 | Writes exactly the eight little-endian bytes |
| `PbOstream.Ostream.EncodeTag` | ios/SEWA Connect/Pods/nanopb/pb_encode.c:635-639 | Writes exactly the varint of the tag shifted by three with the wire type |
| `PbOstream.Ostream.EncodeString` | ios/SEWA Connect/Pods/nanopb/pb_encode.c:674-680 | Writes exactly the length and the bytes, or fails without passing the space there is |
| `PbOstream.Ostream.EncodeSubmessage` | ios/SEWA Connect/Pods/nanopb/pb_encode.c:682-730 | The sizing pass counts exactly what the second pass writes: the outcome is that of writing the length and the message once, so the error that the size changed is unreachable |
| `PbOstream.Ostream.EncodeVal` | ios/SEWA Connect/Pods/nanopb/pb_encode.c:734-868 | Each field type writes exactly the encoding of the value, or fails exactly when there is none or it does not fit |
| `PbOstream.Ostream.EncodeTagged` | ios/SEWA Connect/Pods/nanopb/pb_encode.c:344-385 | Writes the key of the field and then the value; which key that is, for every type, is PbFormat.KeysOnTheWire |
| `PbOstream.Ostream.EncodeItems` | ios/SEWA Connect/Pods/nanopb/pb_encode.c:173-208 | The loop over an array writes exactly its entries in order, with or without tags |
| `PbOstream.Ostream.EncodeArray` | ios/SEWA Connect/Pods/nanopb/pb_encode.c:126-211 | Nothing for an empty array, failure for one that is too long, and otherwise the packed or the unpacked form |
| `PbOstream.Ostream.EncodePacked` | ios/SEWA Connect/Pods/nanopb/pb_encode.c:139-181 | The computed or measured size of a packed array is the length of the data written after it |
| `PbOstream.PackedSize` | ios/SEWA Connect/Pods/nanopb/pb_encode.c:145-153 | The size computed by multiplication for fixed-width entries is the length of their encoding |
| `PbOstream.Ostream.EncodeField` | ios/SEWA Connect/Pods/nanopb/pb_encode.c:307-392 | Required, optional, oneof, repeated and singular fields write exactly what the presence rules call for |
| `PbOstream.Ostream.Encode` | ios/SEWA Connect/Pods/nanopb/pb_encode.c:494-516 | Against any stream, sizing or real, the result is that of writing the encoding of the message: success exactly when it exists and fits, the same bytes counted as written, nothing past them touched |
| `PbOstream.GetEncodedSize` | ios/SEWA Connect/Pods/nanopb/pb_encode.c:533-542 | The size reported is the length of the encoding, and failure means that there is none |
| `PbOstream.EncodeToBuffer` | ios/SEWA Connect/Pods/nanopb/pb_encode.c:84-99 | Encoding into a buffer succeeds if and only if the buffer is at least as long as the encoding; the buffer then begins with it, and nothing past the counted bytes has changed either way |
| `PbMerge.DecodingConcatenationMerges` | ios/SEWA Connect/Pods/nanopb/pb_decode.c:901-1049 | If decoding a and then b into the same struct succeeds, decoding a followed by b succeeds with the same result, unless a ends at a zero tag, in which case b is left over; what a repeated occurrence of a submessage does is PbNested.SubmessagesMerge |
| `PbMerge.ScanAppend` | ios/SEWA Connect/Pods/nanopb/pb_decode.c:919-997 | Reading fields from a followed by b is reading those of a and then those of b, or stopping at the zero tag in a |
| `PbMerge.UnknownFieldsChangeNothing` | ios/SEWA Connect/Pods/nanopb/pb_decode.c:933-962 | A well-formed field with an unknown tag, at any field boundary, changes nothing |
| `PbMerge.UnknownFieldSkipped` | ios/SEWA Connect/Pods/nanopb/pb_decode.c:316-326 | A well-formed field with an unknown tag is skipped whole and leaves struct and marks as they were |
| `PbMerge.LastOneWins` | ios/SEWA Connect/Pods/nanopb/pb_decode.c:401-475 | Of two occurrences of a singular scalar or of a member of a oneof the last one alone counts |
| `PbNested.SubmessagesMerge` | ios/SEWA Connect/Pods/nanopb/pb_decode.c:1463-1485 | A required or optional submessage that occurs with one payload and then with another holds what one occurrence with both payloads one after the other would leave there |
| `PbNested.FlagAside` | ios/SEWA Connect/Pods/nanopb/pb_decode.c:406-413 | What an optional submessage is merged into is what the struct holds, whatever its presence flag says |
| `PbNested.EntriesJoin` | ios/SEWA Connect/Pods/nanopb/pb_decode.c:449-459 | Each occurrence of a repeated submessage is decoded by itself from the defaults and joins the array at its end, or fails when the array is full |
| `PbNested.EntryJoins` | ios/SEWA Connect/Pods/nanopb/pb_decode.c:449-459 | An entry of any type under a key of its own joins the entries held, packed or not before |
| `PbNested.PackedJoins` | ios/SEWA Connect/Pods/nanopb/pb_decode.c:420-448 | The entries of a packed occurrence join those held before, all of them or, if there is one too many, with an error |
| `PbNested.UntouchedStays` | ios/SEWA Connect/Pods/nanopb/pb_decode.c:901-997 | A field stays as it was if the input names neither it nor another member of its oneof |
| `PbNested.AbsentTakesDefault` | ios/SEWA Connect/Pods/nanopb/pb_decode.c:812-899 | A field the input never names decodes to its declared default, or to zero, no bytes, no entries, no member, or a submessage at its defaults |
| `PbNested.ZeroTagEnds` | ios/SEWA Connect/Pods/nanopb/pb_decode.c:293-314 | A zero tag ends a message, and what follows is left unread |
| `PbNested.OddWireTypes` | ios/SEWA Connect/Pods/nanopb/pb_decode.c:316-326 | An unknown field of a wire type that is not in use fails |
| `PbNested.AnyWireType` | ios/SEWA Connect/Pods/nanopb/pb_decode.c:401-475 | Of a field that is known the wire type does not matter, except that 2 makes an array of numbers packed |
| `PbNested.ShortNegatives` | ios/SEWA Connect/Pods/nanopb/pb_decode.c:1289-1324 | A negative number of at most 32 bits reads back from its five-byte varint as from its ten-byte one |
| `PbNested.OutOfRange` | ios/SEWA Connect/Pods/nanopb/pb_decode.c:1289-1372 | Exactly which varints an integer field of each width refuses, and that a signed one keeps the low 32 bits |
| `PbNested.FixedBytesWhole` | ios/SEWA Connect/Pods/nanopb/pb_decode.c:1487-1508 | Fixed-length bytes are taken whole, set to zero by an empty string, and otherwise refused |
| `PbNested.StringsEndAtZero` | ios/SEWA Connect/Pods/nanopb/pb_decode.c:1428-1461 | A string ends at its first zero byte, although what follows has to fit as well |
| `PbSkew.ValSkipped` | ios/SEWA Connect/Pods/nanopb/pb_decode.c:316-326 | Every value is skipped whole by the wire type it is written with |
| `PbSkew.FieldSkipped` | ios/SEWA Connect/Pods/nanopb/pb_decode.c:933-962 | What any field is written as, packed, unpacked, nested or absent, a descriptor without its tag skips whole, with struct and marks as they were |
| `PbSkew.OlderReaderDecodes` | ios/SEWA Connect/Pods/nanopb/pb_decode.c:901-1049 | A reader that knows only the first fields of a descriptor decodes what a writer that knows all encodes to those fields, as if the others had not been there |
| `PbRequired.DecodesExactlyWhenRequiredOccur` | ios/SEWA Connect/Pods/nanopb/pb_decode.c:988-1046 | Decoding succeeds if and only if the fields can all be read and each of the first 64 required fields occurs somewhere, in any order |
| `PbRequired.FirstSixtyFour` | ios/SEWA Connect/Pods/nanopb/pb_decode.c:1006-1046 | The fields checked for are the required ones that fewer than 64 required fields precede |
| `PbRequired.SeenOccurs` | ios/SEWA Connect/Pods/nanopb/pb_decode.c:988-993 | A mark is only ever made for a field that occurs, and the place is named |
| `PbRequired.OccursSeen` | ios/SEWA Connect/Pods/nanopb/pb_decode.c:988-993 | A required field that occurs at any place is marked |
| `PbReencode.DecodingKeepsBounds` | ios/SEWA Connect/Pods/nanopb/pb_decode.c:401-475 | Decoding any bytes into a struct within its bounds leaves it within its bounds: array counts, sizes, integer widths and oneof members |
| `PbReencode.DecodedReencodes` | ios/SEWA Connect/Pods/nanopb/pb_decode.c:1051-1063 | Whatever decodes from arbitrary bytes encodes again, and decodes from that to its normal form |
| `PbIstream.Istream.Read` | ios/SEWA Connect/Pods/nanopb/pb_decode.c:100-132 | Yields the next bytes, or fails exactly when there are not that many |
| `PbIstream.Istream.DecodeVarint32Eof` | ios/SEWA Connect/Pods/nanopb/pb_decode.c:182-242 | The loop with its overflow checks is the 32-bit reader on values, and end of stream is reported exactly when nothing was left |
| `PbIstream.Istream.DecodeVarint` | ios/SEWA Connect/Pods/nanopb/pb_decode.c:250-270 | The loop with its position is the 64-bit reader on values |
| `PbIstream.Istream.SkipVarint` | ios/SEWA Connect/Pods/nanopb/pb_decode.c:273-282 | Skips to just after the first byte without a continuation bit |
| `PbIstream.Istream.DecodeTag` | ios/SEWA Connect/Pods/nanopb/pb_decode.c:293-314 | Splits the tag, and reports end of stream exactly at the end or at a zero byte |
| `PbIstream.Istream.SkipField` | ios/SEWA Connect/Pods/nanopb/pb_decode.c:316-326 | Skips exactly one value of the wire type, and fails for an unknown wire type or too few bytes |
| `PbIstream.Istream.MakeSubstream` | ios/SEWA Connect/Pods/nanopb/pb_decode.c:367-380 | The substream holds exactly the string and the stream what comes after it |
| `PbIstream.Istream.CloseSubstream` | ios/SEWA Connect/Pods/nanopb/pb_decode.c:382-395 | Continues right after the substream, whatever of it was left unread |
| `PbIstream.Istream.DecodeInt` | ios/SEWA Connect/Pods/nanopb/pb_decode.c:1289-1372 | Signed, unsigned and zig-zag integers are accepted exactly when they fit the width of the field |
| `PbIstream.Istream.DecodeBlob` | ios/SEWA Connect/Pods/nanopb/pb_decode.c:1391-1461 | Bytes, strings and fixed-length bytes are accepted exactly when they fit the storage of the field; strings end at the first zero byte |
| `PbIstream.Istream.DecodeSubmessage` | ios/SEWA Connect/Pods/nanopb/pb_decode.c:1463-1485 | Decodes the substream into the struct at hand, entries of arrays into a fresh one, and ends after it; that repeated occurrences therefore merge is PbNested.SubmessagesMerge |
| `PbIstream.Istream.DecodePacked` | ios/SEWA Connect/Pods/nanopb/pb_decode.c:424-443 | The packed loop appends entries until the data is used up or the array is full |
| `PbIstream.Istream.DecodeSlot` | ios/SEWA Connect/Pods/nanopb/pb_decode.c:401-475 | Required, optional, repeated, packed and oneof fields change the struct as the rules on values say |
| `PbIstream.Istream.DecodeRecord` | ios/SEWA Connect/Pods/nanopb/pb_decode.c:921-997 | One turn of the field loop: end, unknown field, or known field stored and marked |
| `PbIstream.Istream.DecodeNoInit` | ios/SEWA Connect/Pods/nanopb/pb_decode.c:901-1049 | The whole loop, with its iterator and bitset, has the result and leaves the bytes that decoding on values says |
| `PbIstream.Istream.Decode` | ios/SEWA Connect/Pods/nanopb/pb_decode.c:1051-1063 | The same from defaults |
| `PbIstream.CountRequired` | ios/SEWA Connect/Pods/nanopb/pb_decode.c:1007-1025 | Stepping the iterator around once counts the required fields, up to 64 |
| `PbIstream.RequiredPresent` | ios/SEWA Connect/Pods/nanopb/pb_decode.c:1006-1046 | The word-wise check of the bitset is true exactly when every required field among the first 64 is marked |
| `PbIter.FieldIter.Begin` | ios/SEWA Connect/Pods/nanopb/pb_common.c:8-18 | The iterator is at the first field, with its address and no required field before it |
| `PbIter.FieldIter.Next` | ios/SEWA Connect/Pods/nanopb/pb_common.c:20-76 | Moves to the next field or wraps to the first; address and count of required fields stay those of the field it is at |
| `PbIter.FieldIter.Find` | ios/SEWA Connect/Pods/nanopb/pb_common.c:78-95 | Ends from any position, and succeeds exactly when a field that is not an extension has the tag, at which it then stands |
| `PbSeen.FieldsSeen.Mark` | ios/SEWA Connect/Pods/nanopb/pb_decode.c:988-993 | Adds exactly the one number to the set the words stand for |
| `PbSeen.FieldsSeen.AllSet` | ios/SEWA Connect/Pods/nanopb/pb_decode.c:1027-1045 | The full words and the shifted last word tell exactly whether the first n numbers are all in the set |
| `PbSeen.AllMarked` | ios/SEWA Connect/Pods/nanopb/pb_decode.c:1006-1046 | All of the first n numbers are marked exactly when all checked required fields have been seen |
| `TlsAgreement.HandshakeAgrees` | ios/SEWA Connect/Pods/BoringSSL-GRPC/ssl/handshake.cc:491-628 | For all negotiated flags that go together and every interleaving of the two sides, with suspensions anywhere: one direction is empty, the transcripts agree up to what is in transit, neither side fails, and when neither can move both are done with the same transcript |
| `TlsAgreement.RunKeepsInv` | ios/SEWA Connect/Pods/BoringSSL-GRPC/ssl/handshake.cc:491-628 | Every run keeps the agreement invariant of the two state machines and what is between them |
| `TlsAgreement.ClientMoveKeepsInv` | ios/SEWA Connect/Pods/BoringSSL-GRPC/ssl/handshake_client.cc:1707-1789 | Every move of the client keeps the agreement |
| `TlsAgreement.ServerMoveKeepsInv` | ios/SEWA Connect/Pods/BoringSSL-GRPC/ssl/handshake_server.cc:1539-1621 | Every move of the server keeps the agreement |
| `TlsAgreement.AgreementMeans` | ios/SEWA Connect/Pods/BoringSSL-GRPC/ssl/handshake.cc:380-476 | The invariant gives: client transcript with what the server has sent it equals server transcript with what the client has sent it, and one of the two is empty |
| `TlsAgreement.NeverStuck` | ios/SEWA Connect/Pods/BoringSSL-GRPC/ssl/handshake.cc:491-628 | If neither side can move, both are done, nothing is in transit and the transcripts are equal |
| `TlsAgreement.EveryMoveProgresses` | ios/SEWA Connect/Pods/BoringSSL-GRPC/ssl/handshake.cc:491-628 | Every move that is not asked to suspend strictly decreases the work left, so the handshake ends |
| `TlsSides.ClientKeepsToScript` | ios/SEWA Connect/Pods/BoringSSL-GRPC/ssl/handshake_client.cc:1707-1789 | In every state each step of the client sends exactly the messages of its flights in order, or takes in exactly the message due, under the keys due |
| `TlsServerSide.ServerKeepsToScript` | ios/SEWA Connect/Pods/BoringSSL-GRPC/ssl/handshake_server.cc:1539-1621 | The same for the server |
| `TlsSafety.ClientStepsSafely` | ios/SEWA Connect/Pods/BoringSSL-GRPC/ssl/handshake_client.cc:385-1705 | Against any peer, a step of the client keeps states, keys and Finished messages together, accepts a Finished only if it is the MAC over the transcript before it, and hashes each message it sends or releases exactly once |
| `TlsSafety.ServerStepsSafely` | ios/SEWA Connect/Pods/BoringSSL-GRPC/ssl/handshake_server.cc:426-1537 | The same for the server |
| `TlsRuns.ClientRunIsSafe` | ios/SEWA Connect/Pods/BoringSSL-GRPC/ssl/handshake_client.cc:1658-1789 | In every run against any peer, with items arriving and turns taken in any order: a client that is done has sent one Finished under new keys and accepted one under new keys, and unless it has failed its transcript is the messages it received and released interleaved with those it said, each once and in order |
| `TlsRuns.FreshRunsAreSafe` | ios/SEWA Connect/Pods/BoringSSL-GRPC/ssl/handshake.cc:127-163 | The same holds of every run of either side from the start of a connection |
| `TlsRuns.StepKeepsHashed` | ios/SEWA Connect/Pods/BoringSSL-GRPC/ssl/handshake.cc:176-222 | A step that hashes what it says or takes keeps the transcript of the whole run right |
| `TlsRuns.ResolvingKeepsHashed` | ios/SEWA Connect/Pods/BoringSSL-GRPC/ssl/handshake.cc:491-628 | Flushing the flight or opening a record keeps the transcript of the whole run right |
| `TlsRuns.InterleavingCounts` | ios/SEWA Connect/Pods/BoringSSL-GRPC/ssl/handshake.cc:215-222 | Every message occurs in the transcript exactly as often as it was released and said |
| `TlsRuns.ServerRunIsSafe` | ios/SEWA Connect/Pods/BoringSSL-GRPC/ssl/handshake_server.cc:1439-1621 | The same for the server: in every run against any peer, done means one Finished each way under new keys, and every message is hashed once |
| `TlsRuns.ClientLoopIsSafe` | ios/SEWA Connect/Pods/BoringSSL-GRPC/ssl/handshake_client.cc:1707-1789 | The client's loop keeps the side safe; it ends with success only when done, with one Finished each way under new keys; where it waits for a message or for the caller, running the step again there waits again; and no message is hashed twice or missed |
| `TlsRuns.ServerLoopIsSafe` | ios/SEWA Connect/Pods/BoringSSL-GRPC/ssl/handshake_server.cc:1539-1621 | The same for the server's loop |
| `TlsPassed.FailedCheckStops` | ios/SEWA Connect/Pods/BoringSSL-GRPC/ssl/handshake_client.cc:871-889 | The check of the server's certificate, and of the client's if one was shown, decides: failed, it ends the handshake in that state; without an answer yet it leaves everything; and only if it succeeds does the side go on |
| `TlsReady.ClientGoesOnExactly` | ios/SEWA Connect/Pods/BoringSSL-GRPC/ssl/handshake_client.cc:385-1705 | With every check going well a client goes on if and only if it has at hand what its state and the negotiation call for, waits if and only if it looks for a message and has none, and otherwise, given a message of the wrong kind say, fails |
| `TlsReady.ClientSuspendsExactly` | ios/SEWA Connect/Pods/BoringSSL-GRPC/ssl/handshake_client.cc:385-1705 | An answer that is not there yet suspends the client exactly where a decision is asked for and makes no difference elsewhere |
| `TlsReady.ClientFailsExactly` | ios/SEWA Connect/Pods/BoringSSL-GRPC/ssl/handshake_client.cc:385-1705 | A check or callback that fails ends the handshake with the client as it was, in every state that takes in, says or checks anything |
| `TlsReady.ServerGoesOnExactly` | ios/SEWA Connect/Pods/BoringSSL-GRPC/ssl/handshake_server.cc:426-1537 | The same of a server with every check going well |
| `TlsReady.ServerSuspendsExactly` | ios/SEWA Connect/Pods/BoringSSL-GRPC/ssl/handshake_server.cc:426-1537 | The same of a server that has to wait for an answer |
| `TlsReady.ServerFailsExactly` | ios/SEWA Connect/Pods/BoringSSL-GRPC/ssl/handshake_server.cc:426-1537 | The same of a server and a check that fails |
| `TlsPassed.ClientStepPassed` | ios/SEWA Connect/Pods/BoringSSL-GRPC/ssl/handshake_client.cc:385-1705 | Against any peer, a step of the client goes on only with the messages it has to take in taken and those it has to say said, no failed check and no open decision, to the next state of section 7.3 of RFC 5246; otherwise state, queue, flight and keys stay |
| `TlsPassed.ServerStepPassed` | ios/SEWA Connect/Pods/BoringSSL-GRPC/ssl/handshake_server.cc:426-1537 | The same of a step of the server |
| `TlsPassed.ClientHistoryHas` | ios/SEWA Connect/Pods/BoringSSL-GRPC/ssl/handshake_client.cc:1707-1789 | In every run against any peer: the states a client has passed are those of the handshake from the first on, in order and each once, each with its messages and checks as it should be; every message was read under the keys in force, and a ChangeCipherSpec where it was awaited and before the keys changed |
| `TlsPassed.ServerHistoryHas` | ios/SEWA Connect/Pods/BoringSSL-GRPC/ssl/handshake_server.cc:1539-1621 | The same of every run of a server |
| `TlsPassed.SameRun` | ios/SEWA Connect/Pods/BoringSSL-GRPC/ssl/handshake.cc:491-628 | The history is of the very run of which the other results speak |
| `TlsPassed.CertificateChecked` | ios/SEWA Connect/Pods/BoringSSL-GRPC/ssl/handshake_client.cc:771-889 | In every run of a full handshake with a certificate, a client beyond the check of the certificate has received one that is not empty, and the check has succeeded |
| `TlsPassed.ClientCertificateChecked` | ios/SEWA Connect/Pods/BoringSSL-GRPC/ssl/handshake_server.cc:949-1363 | In every run of a full handshake that asks for a certificate, a server beyond the CertificateVerify has received a Certificate, and if that was not empty the check has succeeded and the CertificateVerify has come |
| `TlsSafety.FreshSidesAreSafe` | ios/SEWA Connect/Pods/BoringSSL-GRPC/ssl/handshake.cc:127-163 | Both sides start in the safe states |
| `TlsSafety.ResolvingIsSafe` | ios/SEWA Connect/Pods/BoringSSL-GRPC/ssl/handshake.cc:491-628 | Resolving what a side waits for, whatever arrives, keeps it safe |
| `TlsHandshake.ClientStep` | ios/SEWA Connect/Pods/BoringSSL-GRPC/ssl/handshake_client.cc:1707-1789 | A step that lacks its message, or asks to be run again, leaves state, transcript, queue and flight exactly as they were; every other step that does not fail moves nearer to the end and stays in the machine; exactly when it fails, waits or goes on is in TlsReady |
| `TlsHandshake.ServerStep` | ios/SEWA Connect/Pods/BoringSSL-GRPC/ssl/handshake_server.cc:1539-1621 | The same for the server |
| `TlsConnection.Connect` | ios/SEWA Connect/Pods/BoringSSL-GRPC/ssl/handshake.cc:491-628 | Two handshake objects over two channels reach exactly the system state of the run, and with both done their transcripts are equal |
| `TlsConnection.TakeClientTurn` | ios/SEWA Connect/Pods/BoringSSL-GRPC/ssl/handshake.cc:491-628 | A turn of the client object changes it and both channels as the turn on values does, or nothing if it cannot move |
| `TlsConnection.TakeServerTurn` | ios/SEWA Connect/Pods/BoringSSL-GRPC/ssl/handshake.cc:491-628 | A turn of the server object changes it and both channels as the turn on values does, or nothing if it cannot move |
| `TlsState.ResolveWait` | ios/SEWA Connect/Pods/BoringSSL-GRPC/ssl/handshake.cc:494-611 | Flushes the flight into the channel, or opens one record if it is the one waited for and under the right keys, or leaves everything alone |
| `TlsState.Handshake.GetMessage` | ios/SEWA Connect/Pods/BoringSSL-GRPC/ssl/s3_both.cc:427-439 | No message exactly when none is buffered; the one yielded is the next the transcript will take in, and it stays at hand until then |
| `TlsState.Handshake.HashAndRelease` | ios/SEWA Connect/Pods/BoringSSL-GRPC/ssl/handshake.cc:215-222 | The message at hand joins the transcript and leaves the queue, together |
| `TlsState.Handshake.AddMessage` | ios/SEWA Connect/Pods/BoringSSL-GRPC/ssl/handshake.cc:176-184 | The message joins the flight under the current write keys and the transcript, once each |
| `TlsState.Handshake.ChangeWriteKeys` | ios/SEWA Connect/Pods/BoringSSL-GRPC/ssl/s3_both.cc:207-218 | The ChangeCipherSpec joins the flight under the old keys and what follows is under the new ones |
| `TlsState.Handshake.SendFinished` | ios/SEWA Connect/Pods/BoringSSL-GRPC/ssl/handshake.cc:431-476 | The Finished with the MAC over the transcript so far joins the flight and the transcript |
| `TlsState.Handshake.GetFinished` | ios/SEWA Connect/Pods/BoringSSL-GRPC/ssl/handshake.cc:380-429 | Waits without a message, fails on a wrong type or a MAC other than the one over the transcript before it, and otherwise takes it in |
| `TlsClientMachine.PerformClientStep` | ios/SEWA Connect/Pods/BoringSSL-GRPC/ssl/handshake_client.cc:385-1789 | Run in place on the handshake's fields, every state's handler leaves the object, and answers, as the step on values does, whose outcome TlsReady tells exactly and the safety, script, history and agreement results are about |
| `TlsClientMachine.RunClient` | ios/SEWA Connect/Pods/BoringSSL-GRPC/ssl/handshake_client.cc:1707-1789 | From a safe state the loop ends in a safe one: success means done, with one Finished sent and one accepted, each under new keys; a wait leaves the state whose step waits; and unless it fails the transcript of the whole connection stays right |
| `TlsServerMachine.PerformServerStep` | ios/SEWA Connect/Pods/BoringSSL-GRPC/ssl/handshake_server.cc:426-1621 | The same for the server's handlers |
| `TlsServerMachine.RunServer` | ios/SEWA Connect/Pods/BoringSSL-GRPC/ssl/handshake_server.cc:1539-1621 | The same for the server's loop |
| `CipherChoice.Choose` | ios/SEWA Connect/Pods/BoringSSL-GRPC/ssl/handshake_server.cc:390-423 | No cipher exactly when none before the last closed group is usable; otherwise the one the client lists first among the usable ones of the first group that has any |
| `CipherChoice.ChooseCipher` | ios/SEWA Connect/Pods/BoringSSL-GRPC/ssl/handshake_server.cc:357-424 | For lists of any length whose last group is closed: nothing exactly when no cipher is in both lists and supported; with server preference the client's earliest usable cipher in the first server group that has one, otherwise the client's first usable cipher |
| `CipherChoice.SingletonGroups` | ios/SEWA Connect/Pods/BoringSSL-GRPC/ssl/handshake_server.cc:377-385 | Without groups the best cipher is the first usable one |
| `CipherChoice.OpenGroupIsLost` | ios/SEWA Connect/Pods/BoringSSL-GRPC/ssl/handshake_server.cc:402-423 | A last group that is not closed loses its only usable cipher |
| `Premaster.IsZeroIsMask` | ios/SEWA Connect/Pods/BoringSSL-GRPC/crypto/internal.h:302-322 | is_zero is all ones for zero and zero otherwise, for every 64-bit word |
| `Premaster.EqIsMask` | ios/SEWA Connect/Pods/BoringSSL-GRPC/crypto/internal.h:324-334 | eq is all ones exactly for equal words |
| `Premaster.SelectIsChoice` | ios/SEWA Connect/Pods/BoringSSL-GRPC/crypto/internal.h:348-362 | select with a mask is the choice of one of its arguments |
| `Premaster.CheckPadding` | ios/SEWA Connect/Pods/BoringSSL-GRPC/ssl/handshake_server.cc:1158-1171 | The branch-free test is all ones exactly when the block is 00 02, non-zero bytes, 00 and a premaster that begins with the client version |
| `Premaster.SelectPremaster` | ios/SEWA Connect/Pods/BoringSSL-GRPC/ssl/handshake_server.cc:1151-1178 | The block's tail exactly when the block is well padded and has the client version, otherwise exactly the random fallback; too short a block is refused and changes nothing |
| `Refcount.LockedCount.Increment` | ios/SEWA Connect/Pods/BoringSSL-GRPC/crypto/refcount_lock.c:29-35 | Adds one unless the count is saturated |
| `Refcount.LockedCount.DecrementAndTestZero` | ios/SEWA Connect/Pods/BoringSSL-GRPC/crypto/refcount_lock.c:37-51 | Aborts exactly on zero, keeps a saturated count, otherwise takes one off and reports whether it became zero |
| `Refcount.StepRefines` | ios/SEWA Connect/Pods/BoringSSL-GRPC/crypto/refcount_c11.c:37-65 | Every step of the lock-free version, spurious failures included, is one step of the locked version or none |
| `Refcount.RunRefines` | ios/SEWA Connect/Pods/BoringSSL-GRPC/crypto/refcount_c11.c:37-65 | Every interleaving of any number of threads has a run of the locked version with the same calls, returns and results |
| `Refcount.AbortsOnZeroOnly` | ios/SEWA Connect/Pods/BoringSSL-GRPC/crypto/refcount_c11.c:53-55 | A decrement aborts exactly when the value it has just loaded is zero |
| `Refcount.ClientsAreSafe` | ios/SEWA Connect/Pods/BoringSSL-GRPC/crypto/refcount_c11.c:37-65 | For threads that only use references they own: the count is the number of references until it saturates, nothing can abort, and zero is reported at most once, when no reference is left |
| `Refcount.StartsSafe` | ios/SEWA Connect/Pods/BoringSSL-GRPC/crypto/refcount_c11.c:37-65 | A count of one, held by one thread, meets the invariant of its users |
| `Refcount.LastReference` | ios/SEWA Connect/Pods/BoringSSL-GRPC/crypto/refcount_c11.c:49-65 | A decrement reports zero exactly when it gives up the last reference, and a saturated count never changes |
| `TlsBuffer.Buffer.EnsureCap` | ios/SEWA Connect/Pods/BoringSSL-GRPC/ssl/ssl_buffer.cc:47-81 | Grows without changing the contents, aligns the payload, and fails exactly for more than 0xffff bytes; the offset then stays within 16 bits however much is consumed if and only if alignment and capacity together stay within 2^16 |
| `TlsBuffer.Buffer.DidWrite` | ios/SEWA Connect/Pods/BoringSSL-GRPC/ssl/ssl_buffer.cc:83-88 | The bytes already behind the contents become part of them |
| `TlsBuffer.Buffer.Append` | ios/SEWA Connect/Pods/BoringSSL-GRPC/ssl/ssl_buffer.cc:83-88 | The contents grow by exactly the bytes |
| `TlsBuffer.Buffer.Consume` | ios/SEWA Connect/Pods/BoringSSL-GRPC/ssl/ssl_buffer.cc:90-97 | The offset moves on 16 bits; unless capacity and offset exceed 2^16, the contents lose exactly their first bytes |
| `TlsBuffer.Buffer.DiscardConsumed` | ios/SEWA Connect/Pods/BoringSSL-GRPC/ssl/ssl_buffer.cc:99-103 | An empty buffer is freed and the contents never change |
| `TlsBuffer.KeepsTheRestExactly` | ios/SEWA Connect/Pods/BoringSSL-GRPC/ssl/ssl_buffer.cc:90-97 | For every block and every length consumed the queue keeps exactly its rest, if and only if it ends within 2^16 of the start of the block |
| `TlsBuffer.LosesBytes` | ios/SEWA Connect/Pods/BoringSSL-GRPC/ssl/ssl_buffer.cc:47-97 | With a real header and address and the largest capacity, consuming all but six bytes leaves six bytes that were never written in place of the rest |
| `TlsWriter.Writer.FlushBuffer` | ios/SEWA Connect/Pods/BoringSSL-GRPC/ssl/ssl_buffer.cc:239-252 | Output, write buffer and flight remain the sealed records in order, whatever the transport takes, and success means an empty buffer; the result, what stays queued and the answers used are told by lengths and answers alone |
| `TlsWriter.EnoughFlushes` | ios/SEWA Connect/Pods/BoringSSL-GRPC/ssl/ssl_buffer.cc:239-252 | Positive answers that add up to what is queued empty the buffer, and no more than were needed are asked for |
| `TlsWriter.RefusalLeaves` | ios/SEWA Connect/Pods/BoringSSL-GRPC/ssl/ssl_buffer.cc:239-252 | A refusal before that is the result and leaves queued exactly what the answers before it did not take |
| `TlsWriter.Writer.AddRecordToFlight` | ios/SEWA Connect/Pods/BoringSSL-GRPC/ssl/s3_both.cc:135-165 | Succeeds if and only if the sealer does within the room; then the plaintext is sealed once behind the flight, and otherwise nothing is sealed |
| `TlsWriter.Writer.AddMessage` | ios/SEWA Connect/Pods/BoringSSL-GRPC/ssl/s3_both.cc:184-205 | The message is sealed once, in order, over as many records as it needs, behind the flight; whether it succeeds and how many seals it takes is told by length and seals |
| `TlsWriter.MessageSealsWhen` | ios/SEWA Connect/Pods/BoringSSL-GRPC/ssl/s3_both.cc:184-205 | With seals that fit, a message is sealed whole if and only if there is one for each of its records, and it takes exactly as many as it has records |
| `TlsWriter.Writer.DrainFlight` | ios/SEWA Connect/Pods/BoringSSL-GRPC/ssl/s3_both.cc:257-269 | Conservation holds after every partial write, and success means that all of the flight is on the wire; result, what stays unsent and the answers used are told by lengths and answers alone |
| `TlsWriter.Writer.FlushFlight` | ios/SEWA Connect/Pods/BoringSSL-GRPC/ssl/s3_both.cc:231-279 | Conservation holds however it ends; with a flight, writing not shut down and at most INT_MAX bytes, lengths and answers tell the result, what stays queued and unsent and the answers used, and the flight is released if and only if the result is success; success means that everything sealed is on the wire if and only if there was a flight or the write buffer was empty |
| `TlsWriter.FlightGoesOut` | ios/SEWA Connect/Pods/BoringSSL-GRPC/ssl/s3_both.cc:231-279 | Positive answers that cover the write buffer and then the flight get everything out, and the flush succeeds |
| `TlsWriter.FlightRefused` | ios/SEWA Connect/Pods/BoringSSL-GRPC/ssl/s3_both.cc:238-275 | A refusal leaves exactly what was not taken, of the buffer or of the flight behind it, and is the result; a flight that is written but not flushed is a failure |
| `TlsWriter.FlushOverlooksBuffer` | ios/SEWA Connect/Pods/BoringSSL-GRPC/ssl/s3_both.cc:231-236 | A write against a transport that would block takes the flight into the write buffer; the flush after it reports success with nothing on the wire |
| `TlsWriter.Writer.WritePending` | ios/SEWA Connect/Pods/BoringSSL-GRPC/ssl/s3_pkt.cc:202-218 | A retry seals nothing, is refused unless it repeats the pending write, and stays pending until all is on the wire |
| `TlsWriter.Writer.MoveFlight` | ios/SEWA Connect/Pods/BoringSSL-GRPC/ssl/s3_pkt.cc:254-266 | The unsent rest of the flight becomes the start of the write buffer |
| `TlsWriter.Writer.SealIntoBuffer` | ios/SEWA Connect/Pods/BoringSSL-GRPC/ssl/s3_pkt.cc:237-273 | The flight and then the new record are in the buffer in order, the plaintext being sealed exactly when this succeeds |
| `TlsWriter.Writer.DoWrite` | ios/SEWA Connect/Pods/BoringSSL-GRPC/ssl/s3_pkt.cc:221-289 | Either the pending record is retried and nothing is sealed, or the data is sealed as one record exactly when it is then written or pending |
| `TlsWriter.Writer.SealNew` | ios/SEWA Connect/Pods/BoringSSL-GRPC/ssl/s3_pkt.cc:237-286 | A new record is sealed behind the flight and noted as pending, or nothing is sealed |
| `TlsWriter.Writer.WriteChunk` | ios/SEWA Connect/Pods/BoringSSL-GRPC/ssl/s3_pkt.cc:163-191 | One record of at most the fragment size is sealed or retried, and what is sealed stays a prefix of the data |
| `TlsWriter.Writer.WriteAppData` | ios/SEWA Connect/Pods/BoringSSL-GRPC/ssl/s3_pkt.cc:129-200 | Bytes reported as written have been sealed once and in order; a failed call repeated with the same data goes on where it stopped; without partial writes success means all of the data; a retry with less than was already sealed fails and forgets how far the write had come |
| `TlsWriter.Writer.WriteRest` | ios/SEWA Connect/Pods/BoringSSL-GRPC/ssl/s3_pkt.cc:149-191 | The loop seals exactly the rest of the data, from where the unfinished write stopped to where it stops; where that is and what it returns is told by the lengths and the answers of transport and sealer |
| `TlsWriter.WritesAll` | ios/SEWA Connect/Pods/BoringSSL-GRPC/ssl/s3_pkt.cc:129-200 | With nothing in its way, seals for all records and a transport that takes each record whole, a write reports all of the data, or with partial writes the first record |
| `TlsWriter.ShortRetrySealsTwice` | ios/SEWA Connect/Pods/BoringSSL-GRPC/ssl/s3_pkt.cc:136-145 | After a retry with too little data, a correct retry that succeeds has sealed once more the bytes that the first attempt had sealed |
| `TlsWriter.SecondByteTwice` | ios/SEWA Connect/Pods/BoringSSL-GRPC/ssl/s3_pkt.cc:129-200 | A run from a new connection: a write of two bytes stops behind the first record, a retry with no data fails, the correct retry succeeds, and the second byte is on the wire twice |
| `TlsWriter.Writer.SendAlert` | ios/SEWA Connect/Pods/BoringSSL-GRPC/ssl/s3_pkt.cc:377-403 | Writing is shut down, at once and for good; the alert is dispatched if nothing was queued, with the result that lengths and answers tell, else it waits for a later dispatch; conservation and the account of application data hold |
| `TlsWriter.Writer.DispatchAlert` | ios/SEWA Connect/Pods/BoringSSL-GRPC/ssl/s3_pkt.cc:405-423 | The alert is sealed at most once; success means that it is sealed and the write buffer is empty, anything else leaves it to be dispatched again; which of the two is told by lengths and answers |
| `TlsWriter.AnyRun` | ios/SEWA Connect/Pods/BoringSSL-GRPC/ssl/s3_pkt.cc:129-423 | Over any mix of writes, messages, flushes, alerts and dispatches with any answers of the transport and any addresses of allocated blocks: while no record meets a buffer without room for its alignment, output, write buffer and unsent flight are the sealed records in order; and while retries repeat their data, application data sealed is what was reported as written and the beginning of an unfinished write |

## Left out

Contracts stated for less than all inputs, and why:

- DtlsDelivery.DeliverySafety: for at most 2^16 - 1 messages, the exact bound when nothing is said of pace and keys; `DtlsPace.PacedDelivery` has no such bound.
- DtlsPace.PacedDelivery: for a sender within 2^16 messages of the receiver and fewer than 2^16 key changes on each side, which `DtlsLimit.PacedSafeExactly` shows to be the exact bounds, and for at most 2^48 / 7 packets, so that no record counter wraps.
- DtlsLimit.PacedSafeExactly: for runs of at most 2^48 / 7 packets, so that no record counter wraps.
- DtlsProgress.RunProcessesOnce: for fewer than 2^16 changes of the read keys, which `DtlsLimit.ReplaylessExactlyBelowWrap` shows to be the exact bound.
- DtlsRecords.RecordNumbersUnique: for runs for which the 48-bit counters and the 16-bit epoch suffice, which `DtlsRecords.UniqueExactlyWithinBounds` shows to be the exact bound.
- DtlsReady.ReadyNeverDrops: a guard that is enough but not needed, since one record may carry many bytes; `DtlsCutOff.DropsExactlyWhenCutOff` is exact.
- DtlsResumed.ReadyRoundsNotCutOff: such a guard for several calls; `DtlsResumed.RoundsFollow` is exact.
- DtlsResumed.ResumedFlightCarriedOnce: up to the point at which the flight is over, since a retransmission repeats it on purpose, and unless a call is cut off, as `DtlsCutOff.FirstMessageLost` and `DtlsCutOff.LongMessageLosesShort` are.
- DtlsReady.FlightCompletes: an MTU above 2^16 + 12 only with messages whose whole record fits a 16-bit length, since the code refuses a longer record.
- DtlsAssembly.AssembledExactly: for handshake and ChangeCipherSpec records of the peer; what alerts do to reading is `DtlsRecordLayer.AlertsDecide`, and forgeries do nothing (`DtlsAssembly.ForgeriesAside`).
- DtlsAnyOrder.ShortFlightAssembles: for flights that use at most 64 numbers of an epoch, beyond which `DtlsAnyOrder.OneTooMany` is not assembled.
- PbRoundTrip.MessageRoundTrip: for encodings shorter than 2^32 bytes, since lengths are decoded on 32 bits.
- PbReencode.DecodedReencodes: the second decoding is stated for encodings shorter than 2^32 bytes, since lengths are decoded on 32 bits.
- PbOstream.EncodeToBuffer: for messages none of whose submessages encodes to 2^64 bytes or more, which no memory holds.
- PbOstream.Ostream.EncodeSubmessage: for submessages that encode to fewer than 2^64 bytes, which no memory exceeds.
- PbMerge.LastOneWins: not for submessages outside a oneof, which are merged instead of replaced.
- TlsWriter.Writer.WriteAppData: conservation is promised when no record meets a buffer whose alignment slack lacks room, where `TlsBuffer.LosesBytes` shows bytes to be lost; the account of application data has no such condition.
- TlsWriter.AnyRun: conservation under the same condition, which its result `roomy` tells.
- TlsWriter.Writer.AddRecordToFlight: while no part of the flight has been written, as the source asserts.
- TlsAgreement.HandshakeAgrees: for runs in which no callback or check fails outright; failures are covered by `TlsSafety`.
- TlsClientMachine.PerformClientStep: without False Start, and without the branches for early data and for DTLS.
- TlsServerMachine.PerformServerStep: without the branches for early data and for DTLS.
- TlsClientMachine.RunClient: from the states the loop and its waits can leave, the initial one among them; from others the code's own loop is not entered.
- TlsServerMachine.RunServer: from the corresponding states of the server.
- Refcount.RunRefines: for runs in which no decrement aborts; when one does is `Refcount.AbortsOnZeroOnly`.
- CipherChoice.ChooseCipher: for preference lists whose last group is closed, as the configuration builds them; `CipherChoice.Choose` has no such condition.

Parts of the source that are not modelled:

- The Swift app, the cloud function and the Android stubs: user interface and database calls without a core.
- nanopb pointer fields, callbacks, extensions, fixed-count arrays and streams of the user's own: off by default or made of user code.
- nanopb without 64-bit support and with 8- or 16-bit sizes: other configurations of the same code.
- nanopb struct memory is a tree of values; layout appears only as the iterator's addresses, and a struct's contents after a failed decode are not stated.
- nanopb strings are the bytes before the terminator, and OR of disjoint bits in varints is written as addition.
- TLS 1.3, SSL 3.0, renegotiation, early data, False Start, HelloVerifyRequest, handoff and version negotiation: they would multiply cases, or most of their code is elsewhere.
- Extensions, certificates, signatures, key derivation and hashes: what the hellos settle is a shared parameter, checks are outcomes, a Finished is a MAC over the transcript.
- Handshake messages split over TLS records or sharing one: between the two TLS machines each message is one item of the channel.
- The session and key material a handshake leaves behind, and the saved Finished values for renegotiation.
- `tls_seal_record` and `tls_open_record`: sealing is an arbitrary function that is logged; opening is not part of this model.
- `ssl_record_sequence_update` is the addition of one on 48 bits; its definition is not part of this model.
- Alerts a DTLS side sends, so that none travel between the two parties of `DtlsDelivery` (what an alert does on arrival is modelled); the path MTU query and the retransmission timer: an MTU is a parameter, a timeout is a retransmission at any time.
- Reading in DTLS starts from a record with a well-formed header of the right version; others are dropped by the code before any state changes.
- Failed allocations and error queues.
- Wall-clock threads: the lock-free count is modelled as interleaved atomic steps, the lock as one step.
- Session serialization, the CPU probes, thread wrappers, error tables and file loaders.
