# Verified model of hold-the-donut's data plane

This project models the parts of the proxy whose correctness depends on every way a byte stream can
be cut, every interleaving of two directions, every random choice or every crash, and proves what
those parts promise. All files are Dafny; `dafny verify dfyconfig.toml` checks them together.

What is modelled, in the system's own terms:

- **Vision codec** (`VisionCodec`): padded blocks, and the `Unpadder` that takes whole runs of content
  at a time. Its reference is a machine that takes one byte at a time. Chunking does not matter,
  padding round-trips, and the padded phase ends on exactly the well-formed streams.
- **TLS filter** (`VisionFilter`): every flag of `FilterState` as a function of the buffers inspected.
- **Splice** (`OuterTls`, `Splice`, `SpliceTheorems`): the outer TLS session fed one record at a time
  and the relay that switches each direction to the raw socket, for any scheduling of the two
  branches. Nothing is lost, added or reordered in either direction, each direction keeps pace with its
  turns, and only a client stream that breaks off ends a run early. DIRECT is backed by an opened
  ServerHello record and the TLS 1.3 marker within its length.
- **Mux relay** (`MuxFrame`, `MuxRelay`): the incremental frame parser, the response printer, the
  Vision-wrapped first response and the datagram framing of the cascade, joined end to end.
- **ClientHello fragmentation** (`Fragment`, `FragmentWriter`): legal re-fragmentation (section 5.1 of
  RFC 8446) and a write adapter that conserves bytes under any back-pressure.
- **donut's own Vision framing** (`DonutVision`), **TLS sequence numbers and the send path**
  (`RecordLayer`, `SendPath`; sections 5.3 and 5.5 of RFC 8446), the **user store** with crashes
  (`UserAuth`, `UserStore`), the **front-door reader** (`FrontDoor`), the **bounded cache**
  (`LimitedCache`) and **share links** (`Utf8`, `Percent`, `Link`; section 4 of RFC 3629, sections 2.1
  and 2.3 of RFC 3986).

How the outside world appears:

- A socket is a list of non-empty chunks; one read returns at most its buffer size from the first
  chunk (`Sockets.ReadSome`). Quantifying over the list is quantifying over segmentation.
- TLS decryption is an arbitrary function of record number and record. Encryption towards the client
  is the constructor `Sealed`; in `SendPath` it is an arbitrary function whose output has the length
  the cipher declares.
- Random draws are arbitrary numbers or functions; `gen_range(0..n)` is a remainder modulo n.
- Each completed branch of a `select!` is one step; a list of turns stands for the scheduler and ends
  where an idle timeout or a socket error cuts the run off.

## Where the code does less than its documentation says

Each of these is kept as the code has it, with the exact condition under which the promise holds.

- `FragmentWriter::poll_shutdown` does not flush the accumulator. Bytes are dropped exactly when they are
  an incomplete first handshake record that no flush has released (`FragmentWriter.Drive`,
  `FragmentWriter.ShutdownDropsHello`).
- `FragmentWriter` says the first ClientHello written through it is fragmented. It is, unless a flush
  comes before the record is complete or the very first write is empty (`FragmentWriter.Drive`,
  `FragmentWriter.EmptyWriteDisablesCut`).
- A fragment size range of 0 to 4294967295 makes the fragmenter panic on every ClientHello, and no other
  range does (`Fragment.FragmentClientHelloToVec`).
- The filter takes both directions for one stream. Its TLS 1.3 verdict, and with it DIRECT, means a
  ServerHello that holds the marker exactly when the buffer that opened the record and the one with the
  marker come from the same side (`Splice.OwnRecordExactly`, `Splice.MixedTrafficSplices`).
- `users.rs` says a crash can only lose a write that never became visible. The directory sync may fail
  silently, or be prevented by a kill after the rename; then a power loss can bring back an older set
  than readers have used, exactly as long as no later sync succeeded (`UserStore.PowerLossExactly`,
  `UserStore.UnsyncedAddCanVanish`).
- The front door's cap makes the decision depend on segmentation for records longer than 14337 bytes
  in a long enough stream, and only there (`FrontDoor.DecisionIndependentExactly`).
- donut's Vision framing truncates the padding length to 16 bits, so it is faithful exactly for
  `max_pad <= 65535` (`DonutVision.FaithfulExactly`). Its header comment puts the padding length after
  the data; the code puts it before, and the model follows the code.
- `pct_decode` panics exactly on the strings in which the two bytes after some `%` would cut a UTF-8
  character (`Percent.DecoderPanicsExactly`, `Percent.DecoderCutsCharacter`).
- A generated link does not escape the UUID; it comes back exactly when it is non-empty and free of
  `@`, `?` and `#` (`Link.UuidRecoveredExactly`).
- `docs/VISION_PROTOCOL.md` lets the writer send END early for traffic that is not TLS; the code keeps
  sending CONTINUE blocks, and so does the model.

## Model

| member | source | states |
|---|---|---|
| VisionCodec.XtlsPadding | crates/donut-io/src/vision_xray.rs:34-67 | the wire bytes are the UUID (first block only) and one encoded block with the drawn zero padding; content up to 8171 bytes fits the 8192-byte budget with its UUID |
| VisionCodec.PaddingLen | crates/donut-io/src/vision_xray.rs:41-54 | for every seed and draw the padding never pushes a block past the budget and is never negative |
| VisionCodec.PaddingRange | crates/donut-io/src/vision_xray.rs:43-54 | with the default seed short content under long padding ends between 900 and 1399 bytes, any other padding is under 256 |
| VisionCodec.RunConcat | crates/donut-io/src/vision_xray.rs:114-193 | from every state, feeding a then b gives the state and output of feeding a+b |
| VisionCodec.ChunkingIrrelevant | crates/donut-io/src/vision_xray.rs:69-71 | pushing any list of chunks gives the state and total output of the whole stream |
| VisionCodec.PaddingRoundTrip | crates/donut-io/src/vision_xray.rs:111-193 | UUID, CONTINUE blocks, one END or DIRECT block and any raw tail unpad to the contents and the tail, with the right direct flag, for every padding |
| VisionCodec.RunBlock | crates/donut-io/src/vision_xray.rs:144-193 | one block releases exactly its content and its command decides the next state |
| VisionCodec.FinishedExactly | crates/donut-io/src/vision_xray.rs:171-190 | the receiver leaves the padded phase if and only if the stream is UUID, CONTINUE blocks, a last block and a tail |
| VisionCodec.Decompose | crates/donut-io/src/vision_xray.rs:144-193 | any stream that finishes the padded phase splits into well-formed blocks and a tail |
| VisionCodec.Unpadder.constructor | crates/donut-io/src/vision_xray.rs:87-100 | a new unpadder is the reference machine waiting for its first 21 bytes |
| VisionCodec.Unpadder.Push | crates/donut-io/src/vision_xray.rs:114-142 | the run-at-a-time code has the state and output of the byte-at-a-time reference, in every state |
| VisionCodec.Unpadder.Process | crates/donut-io/src/vision_xray.rs:144-193 | the loop over a shrinking slice agrees with the reference and passes bytes after END or DIRECT through |
| VisionCodec.Unpadder.Pass | crates/donut-io/src/vision_xray.rs:147-169 | every pass of the loop consumes at least one byte |
| VisionCodec.Unpadder.Settle | crates/donut-io/src/vision_xray.rs:171-190 | a block with nothing left opens the next header or ends the phase |
| VisionCodec.Unpadder.HeaderByte | crates/donut-io/src/vision_xray.rs:148-159 | the five counters hold exactly the header bytes read so far |
| VisionFilter.FilterState.constructor | crates/donut-io/src/vision_xray.rs:207-218 | the initial flags are those of an empty history |
| VisionFilter.FilterState.Filter | crates/donut-io/src/vision_xray.rs:223-254 | all six fields are functions of the inspected buffers; at most 8 are inspected; the flags never reset and a positive verdict ends inspection |
| VisionFilter.FilterState.ReadHello | crates/donut-io/src/vision_xray.rs:225-241 | which hello a buffer opens, the bytes of the record still due and the cipher suite |
| VisionFilter.FilterState.XtlsOnlyForTls | crates/donut-io/src/vision_xray.rs:242-248 | XTLS is enabled only for what has shown itself to be TLS 1.2 or above |
| VisionFilter.MarkedShowsTls13 | crates/donut-io/src/vision_xray.rs:242-248 | a TLS 1.3 verdict holds if and only if some inspected buffer opened a ServerHello record and the marker lay within its declared length, counted over all buffers since |
| VisionFilter.DueHasOpener | crates/donut-io/src/vision_xray.rs:228-244 | bytes still due belong to the latest opened ServerHello and are its length less what followed |
| VisionFilter.IsCompleteRecord | crates/donut-io/src/vision_xray.rs:265-281 | true if and only if the buffer is a run of whole application-data records |
| OuterTls.RecordTlsServer.constructor | crates/donut-server/src/vision_xray_splice.rs:60-75 | the captured prefix is replayed in front of the socket |
| OuterTls.RecordTlsServer.Fill | crates/donut-server/src/vision_xray_splice.rs:83-92 | moving bytes to the buffer changes nothing of the stream and counts them |
| OuterTls.RecordTlsServer.EnsureOneRecord | crates/donut-server/src/vision_xray_splice.rs:96-115 | a whole record, a clean end or a torn record, decided by the stream alone |
| OuterTls.RecordTlsServer.ReadRecordOpt | crates/donut-server/src/vision_xray_splice.rs:119-198 | consumes exactly one record and nothing past it, for every segmentation |
| OuterTls.RecordTlsServer.ReadRaw | crates/donut-server/src/vision_xray_splice.rs:216-224 | raw reads continue the stream where records stopped; empty only at its end |
| OuterTls.RecordTlsServer.IntoRaw | crates/donut-server/src/vision_xray_splice.rs:239-241 | the buffered bytes and the socket together are the rest of the stream |
| Splice.Relay.constructor | crates/donut-server/src/vision_xray_splice.rs:446-458 | the invariants of both directions hold at the start |
| Splice.Relay.Replay | crates/donut-server/src/vision_xray_splice.rs:460-473 | plaintext decrypted along with the request goes through the uplink first |
| Splice.Relay.Unpadded | crates/donut-server/src/vision_xray_splice.rs:491-507 | one piece of plaintext is unpadded, inspected and written, and splices the uplink exactly on DIRECT |
| Splice.Relay.Inspect | crates/donut-server/src/vision_xray_splice.rs:497-499 | a buffer is inspected only while the filter still looks |
| Splice.Relay.UplinkTurn | crates/donut-server/src/vision_xray_splice.rs:402-420 | bytes written plus what the rest of the stream owes stays what the whole stream owes, and the uplink keeps pace; it fails only if the stream breaks off, and never once raw |
| Splice.Relay.UplinkRecordTurn | crates/donut-server/src/vision_xray_splice.rs:484-507 | the same for the padded phase, with empty records and end of stream; it fails exactly at a torn or rejected record |
| Splice.Relay.RecordIn | crates/donut-server/src/vision_xray_splice.rs:491-507 | one opened record moves the uplink from what the stream owed, promised and broke off before it to the same after it |
| Splice.Relay.FillTurn | crates/donut-server/src/vision_xray_splice.rs:83-105 | a read that another branch cut short loses nothing |
| Splice.Relay.DownlinkTurn | crates/donut-server/src/vision_xray_splice.rs:515-557 | after every read from the target the client has exactly what was read |
| Splice.Relay.ForwardClear | crates/donut-server/src/vision_xray_splice.rs:524-527 | after DIRECT only clear bytes go out and the client takes them as they are |
| Splice.Relay.ForwardSealed | crates/donut-server/src/vision_xray_splice.rs:531-557 | blocks while padding, bare plaintext after END; the downlink splices exactly when padding ends under a positive verdict |
| Splice.Relay.Decide | crates/donut-server/src/vision_xray_splice.rs:532-545 | the command is END or DIRECT exactly for whole application-data records of a TLS session |
| Splice.Relay.Padded | crates/donut-server/src/vision_xray_splice.rs:531-552 | one block extends the client's content by the chunk and leaves client and server in the same phase |
| Splice.Relay.Handoff | crates/donut-server/src/vision_xray_splice.rs:567-574 | the buffered raw bytes are forwarded before the copy, none twice |
| Splice.Relay.Take | crates/donut-server/src/vision_xray_splice.rs:482-560 | one turn of the select keeps every invariant; a turn of an enabled branch uses at least one byte or ends its direction; only an uplink turn on a stream that breaks off fails, and none once the uplink is raw |
| Splice.Relay.Framed | crates/donut-server/src/vision_xray_splice.rs:478-565 | the select loop keeps every invariant under any scheduling and stops only when both directions are raw, both are over, the turns run out, or at an uplink turn on a stream that breaks off; the downlink has made progress in each of its turns up to there |
| Splice.Relay.RawCopy | crates/donut-server/src/vision_xray_splice.rs:569-586 | the raw copy after the handoff keeps every invariant, makes progress in each turn and cannot fail |
| Splice.Relay.RunTurns | crates/donut-server/src/vision_xray_splice.rs:478-586 | both loops together: a direction that is not over has used a byte in each of its turns; all turns are used unless the client's stream breaks off |
| Splice.VisionServerSplice | crates/donut-server/src/vision_xray_splice.rs:429-588 | whole runs: the target has a prefix of what the client's stream owes, at least one record or raw byte for each uplink turn, and all of it once the uplink is over, which more turns than bytes guarantee; when it is over, the run has failed if and only if the stream is cut off in a record or holds a rejected one, and nothing else ends a run early; the client has exactly what was read from the target, at least one byte for each downlink turn until it has all; blocks are CONTINUE* then at most one END or DIRECT, bare plaintext only after END, clear bytes only after DIRECT; DIRECT implies that the inspected traffic had the filter's verdict |
| Splice.PromisedIsOwed | crates/donut-server/src/vision_xray_splice.rs:478-565 | what the turns so far guarantee is always the front of what the whole stream owes |
| Splice.OwnRecordExactly | crates/donut-server/src/vision_xray_splice.rs:497-528 | under a positive verdict the marker lay in the opened record itself, on its own side of the traffic, if and only if the opener and the last inspected buffer come from the same side |
| Splice.MixedTrafficSplices | crates/donut-server/src/vision_xray_splice.rs:497-528 | the filter enables XTLS when the target opens a ServerHello record and the client sends the marker, though no record holds it |
| SpliceTheorems.UplinkRecords | crates/donut-server/src/vision_xray_splice.rs:175-198 | whole records are consumed one by one; what follows them is left untouched and alone decides whether the stream breaks off |
| SpliceTheorems.PaddedUntilEnd | crates/donut-io/src/vision_xray.rs:171-190 | no proper prefix of a padded stream ends the padded phase |
| SpliceTheorems.UplinkSpliceLossless | crates/donut-server/src/vision_xray_splice.rs:11-15 | padded records whose DIRECT block ends in the last of them, then raw bytes: the target is owed content, the rest of that record and the raw bytes, exactly, and the stream does not break off |
| SpliceTheorems.UplinkFramedLossless | crates/donut-server/src/vision_xray_splice.rs:491-507 | a session that ends padding with END owes all its plaintext and does not break off |
| SpliceTheorems.DeliverSession | crates/donut-server/src/vision_xray_splice.rs:429-588 | end to end, for any segmentation, traffic from the target and scheduling: a sound session never fails; the target gets a prefix of its content, tail and raw bytes, all of it once the uplink is over or has had more turns than bytes; the client gets a prefix of what the target sends, all of it after more turns than bytes |
| MuxFrame.ParseFrame | crates/donut-server/src/mux.rs:232-307 | every parsed frame consumes at least 6 bytes and no more than are there; ids and payloads are 16-bit |
| MuxFrame.ParsePrefixStable | crates/donut-server/src/mux.rs:232-307 | a frame or an error is not changed by bytes that arrive later |
| MuxFrame.Drain | crates/donut-server/src/mux.rs:549-581 | draining stops at an undecided or malformed front and says which |
| MuxFrame.DrainAppend | crates/donut-server/src/mux.rs:549-606 | draining, appending and draining again is draining everything at once |
| MuxFrame.ParseParts | crates/donut-server/src/mux.rs:232-307 | a buffer whose two length fields count the metadata and the datagram parses to exactly those parts, whatever follows |
| MuxFrame.KeepTarget | crates/donut-server/src/mux.rs:170-220 | the printed response metadata yields the source address and port it was printed from |
| MuxFrame.DrainPrinted | crates/donut-server/src/mux.rs:206-326 | round trip: printed responses in front of any bytes drain to exactly those responses (session, source, datagram), then to what the bytes alone drain to |
| MuxFrame.TakeDatagram | crates/donut-server/src/vision_xray_splice.rs:307-317 | a datagram is taken if and only if all of it is there; it has the announced length and length field, datagram and rest are the buffer |
| MuxFrame.ParsedPayloadFitsCascade | crates/donut-server/src/mux.rs:392-400 | every parsed payload survives the cascade's length header |
| MuxFrame.TakeAppend | crates/donut-server/src/mux.rs:424-434 | datagrams do not depend on how their stream is cut |
| MuxFrame.TakeWritten | crates/donut-server/src/vision_xray_splice.rs:305-317 | written datagrams are taken back exactly |
| MuxRelay.Revision | crates/donut-server/src/mux.rs:121-152 | a frame of any length becomes CONTINUE blocks and one END block whose contents are the frame, led by the UUID |
| MuxRelay.MeaningStable | crates/donut-server/src/mux.rs:573-579 | a stream that made the relay give up means the same whatever follows |
| MuxRelay.MeaningAppend | crates/donut-server/src/mux.rs:547-606 | handling a stream in two pieces has the effects of handling it whole |
| MuxRelay.Relay.Devision | crates/donut-server/src/mux.rs:103-108 | un-padding chunk by chunk yields the un-padded whole, or the bytes themselves without Vision |
| MuxRelay.Relay.DrainFrames | crates/donut-server/src/mux.rs:549-581 | sessions, datagrams and failure are those of the drained frames in order |
| MuxRelay.Relay.Uplink | crates/donut-server/src/mux.rs:594-607 | after every chunk the effects are what the bytes so far mean |
| MuxRelay.Relay.Answer | crates/donut-server/src/mux.rs:608-617 | only the first answer is padded and the client can read all answers so far |
| MuxRelay.Serve | crates/donut-server/src/mux.rs:526-622 | whole runs: effects depend on the uplink bytes alone, not on cuts or interleaving; the run stops with the first event that makes it give up and no other; the client's stream drains to exactly the responses of the events handled |
| MuxRelay.CutsIrrelevant | crates/donut-server/src/mux.rs:603-606 | un-padding and draining chunk by chunk yields the frames of the whole |
| MuxRelay.ClientRecoversAnswers | crates/donut-server/src/mux.rs:110-120 | a client, Vision or not, that gets the downlink in any chunks recovers exactly the answered ids, sources and datagrams |
| MuxRelay.ServeClient | crates/donut-server/src/mux.rs:526-622 | end to end: for every cut of the uplink, interleaving and cut of the downlink, the client recovers the responses of the events handled |
| Fragment.Size | crates/donut-server/src/fragment.rs:28-35 | a fragment is at least 1 byte and at most the larger of 1 and the configured bound |
| Fragment.PiecesCut | crates/donut-server/src/fragment.rs:89-106 | for every random sequence the pieces are legal and concatenate to the payload |
| Fragment.RecordsRoundTrip | crates/donut-server/src/fragment.rs:95-105 | a receiver reads back the emitted records |
| Fragment.FragmentsReassemble | crates/donut-server/src/fragment.rs:73-76 | fragments are records of the same type and version, none empty, whose payloads are the original's |
| Fragment.FragmentClientHelloToVec | crates/donut-server/src/fragment.rs:120-136 | a ClientHello becomes its fragments for the given choices, anything else is returned verbatim; it panics if and only if a ClientHello meets a range whose width does not fit 32 bits |
| Fragment.WriteFragmented | crates/donut-server/src/fragment.rs:77-114 | the streaming version writes the same bytes for the same choices, flushes only between fragments, and panics on the same inputs before it has written anything |
| Fragment.ReadFirstRecord | crates/donut-server/src/fragment.rs:42-71 | the first record is split off exactly, or the whole short stream comes back; no byte is lost |
| FragmentWriter.FragmentWriter.constructor | crates/donut-server/src/fragment.rs:156-165 | a new adapter has taken and delivered nothing |
| FragmentWriter.FragmentWriter.Drain | crates/donut-server/src/fragment.rs:180-192 | delivered plus undrained bytes are unchanged by partial writes, pending and errors; it fails only on an error or an empty write of the inner stream, and leaves output only when that made no progress |
| FragmentWriter.FragmentWriter.PollWrite | crates/donut-server/src/fragment.rs:196-237 | exactly the acknowledged bytes are taken; bytes are turned away only when the inner stream made no progress; it fails only on an error of the inner stream, or on the panic for a ClientHello that is to be cut; an unsettled first record takes the whole write, is settled exactly when it can be classified or is empty, and cut exactly when it is a ClientHello |
| FragmentWriter.FragmentWriter.PassOn | crates/donut-server/src/fragment.rs:206-208 | past the first record writes go straight through |
| FragmentWriter.FragmentWriter.Accumulate | crates/donut-server/src/fragment.rs:209-229 | the first record is held until it can be classified |
| FragmentWriter.FragmentWriter.PollFlush | crates/donut-server/src/fragment.rs:239-254 | a flush settles the first record exactly when bytes are held; a completed flush leaves nothing behind; it fails only with the inner stream |
| FragmentWriter.FragmentWriter.PollShutdown | crates/donut-server/src/fragment.rs:256-265 | a completed shutdown has drained the output and delivered all but what the accumulator holds, which it leaves there; it fails only with the inner stream |
| FragmentWriter.Drive | crates/donut-server/src/fragment.rs:138-265 | whole runs, with the answer to every call: a run fails only with the inner stream, or on the panic for a ClientHello that is to be cut; delivered, waiting and held bytes are the accepted ones (with those of a failed last write, perhaps), the first record cut if and only if it is a ClientHello and no early flush or empty first write spoiled it, and held back if and only if it is incomplete and nothing spoiled it; so an inner stream that only makes partial writes or waits never loses a byte; bytes wait only for a stream that makes no progress; calls fall short no more often than it does |
| FragmentWriter.ShutdownDropsHello | crates/donut-server/src/fragment.rs:239-265 | a run that begins with a flush and in which a successful shutdown drops an accepted byte |
| FragmentWriter.EmptyWriteDisablesCut | crates/donut-server/src/fragment.rs:138-142 | after an empty first write any ClientHello goes through uncut |
| FragmentWriter.CutReassembles | crates/donut-server/src/fragment.rs:73-76 | a receiver of a cut stream reads records of the ClientHello's type and version, none empty or over the bound, with its payload, and then the rest of the stream |
| FragmentWriter.ClassifiedStays | crates/donut-server/src/fragment.rs:209-229 | once the first record is settled, more bytes do not change what it is |
| DonutVision.EncodeCopy | crates/donut-io/src/vision.rs:71-104 | the loop sends the framed stream of its reads, with the empty END frame on an early end |
| DonutVision.DecodeCopy | crates/donut-io/src/vision.rs:108-143 | the loop yields what the whole stream decodes to, with the same success or error |
| DonutVision.DecodeFrame | crates/donut-io/src/vision.rs:153-174 | a written frame decodes to its data whatever its padding and whatever follows |
| DonutVision.RoundTripFrom | crates/donut-io/src/vision.rs:71-143 | decoding the encoded stream returns the source for every split, frame count and padding below 65536 |
| DonutVision.FaithfulExactly | crates/donut-io/src/vision.rs:145-162 | all sources and paddings up to max_pad come back if and only if max_pad is at most 65535 |
| RecordLayer.RecordLayer.constructor | crates/donut-tls/src/record_layer.rs:40-52 | no nonce used, no key, limit and counter 0 |
| RecordLayer.RecordLayer.EncryptOutgoing | crates/donut-tls/src/record_layer.rs:107-118 | takes the next number of the current key; the counter stays at or below the hard limit |
| RecordLayer.RecordLayer.PrepareMessageEncrypter | crates/donut-tls/src/record_layer.rs:122-131 | a new key starts at 0 with the smaller of the soft limit and its own |
| RecordLayer.RecordLayer.DoingTrialDecryption | crates/donut-tls/src/record_layer.rs:230-241 | a message is swallowed exactly when it fits the remaining budget, which shrinks by its length |
| RecordLayer.NoNonceReuse | crates/donut-tls/src/record_layer.rs:107-131 | any two uses differ: an older key, or a smaller number under the same key |
| RecordLayer.NumbersAreDense | crates/donut-tls/src/record_layer.rs:113-114 | each key is used from 0 without gaps |
| RecordLayer.UsedBelow | crates/donut-tls/src/record_layer.rs:113-114 | every number below the next one has been used under the current key |
| RecordLayer.Use | crates/donut-tls/src/record_layer.rs:107-205 | whole runs up to the first call the layer rejects, and no further: each encryption takes its key and the number of earlier uses of that key; all nonces distinct and below the hard limit; refresh-or-close is reported before exactly those uses whose number is their key's limit, once for each key; an encryption is refused only at the hard limit, and then the report for that key has been made |
| SendPath.CommonState.constructor | crates/donut-tls/src/common_state.rs:67-98 | a sending state with an active key and empty queues |
| SendPath.CommonState.PerhapsWriteKeyUpdate | crates/donut-tls/src/common_state.rs:441-445 | the queued key update moves to the end of the queue, once |
| SendPath.CommonState.SendCloseNotify | crates/donut-tls/src/common_state.rs:581-589 | nothing after a fatal alert; otherwise one number, with the key update in front of the alert |
| SendPath.CommonState.LookAhead | crates/donut-tls/src/common_state.rs:253-276 | exhausted if and only if the number space would run out or, before TLS 1.3, the key's limit is among the numbers asked for; in that last case one close_notify is queued behind the key update under one number, otherwise nothing moves; TLS 1.3 asks for a refresh exactly when the limit is among the numbers |
| SendPath.CommonState.CheckRequiredSize | crates/donut-tls/src/common_state.rs:605-623 | the required size is the queue plus every fragment's encoded length |
| SendPath.CommonState.WriteFragments | crates/donut-tls/src/common_state.rs:625-652 | the buffer holds the queue in order and then the fragments' records under consecutive numbers; the rest is untouched |
| SendPath.CommonState.WritePlaintext | crates/donut-tls/src/common_state.rs:236-291 | success writes exactly the required bytes; an error leaves the buffer untouched; a too-small buffer uses no number and keeps the queue; exhaustion exactly as the look-ahead says, with the queue, number and alert state after it |
| UserAuth.Matched | crates/donut-core/src/id.rs:85-87 | the borrow trick maps zero to 0xFF and everything else to 0 |
| UserAuth.IsAuthorized | crates/donut-core/src/id.rs:76-90 | the branchless fold is membership in the snapshot |
| UserStore.StepKeepsInv | crates/donut-server/src/users.rs:106-177 | every system call, failure, kill, power loss and boot keeps disk, records and snapshot in step |
| UserStore.SnapshotNeverAhead | crates/donut-server/src/users.rs:8-12 | at every point of every run the snapshot is the file's set, or the one before it while one change is past its rename |
| UserStore.SyncedRunsAreDurable | crates/donut-server/src/users.rs:161-177 | while directory syncs succeed, everything a reader saw is on disk for good |
| UserStore.ReloadNeverOlder | crates/donut-server/src/users.rs:103-105 | then no power loss brings back less than any reader saw |
| UserStore.KillsKeepSeen | crates/donut-server/src/users.rs:65-91 | process kills and failed calls alone never lose anything a reader ever saw |
| UserStore.PowerLossExactly | crates/donut-server/src/users.rs:8-12 | from any state, in every phase of every run before the next power loss: that loss can bring back less than version v if and only if v was not on disk at the start and no directory sync succeeded at or after the rename that made it; so for what any reader saw and for what readers use |
| UserStore.FloorExactly | crates/donut-server/src/users.rs:161-177 | the version a power loss must leave, from the directory syncs of the run |
| UserStore.UnsyncedAddCanVanish | crates/donut-server/src/users.rs:171-175 | the run in which it happens, from any state |
| UserStore.RunKeepsDistinct | crates/donut-server/src/users.rs:111-115 | adding and removing keep every version free of duplicate UUIDs |
| UserStore.WithoutKeepsDistinct | crates/donut-server/src/users.rs:135-136 | removal keeps the list free of duplicates |
| FrontDoor.ReadClientHello | crates/donut-server/src/selfsteal.rs:100-129 | the loop's decision on one cut, and the saved prefix followed by the unread bytes is the original stream |
| FrontDoor.RelayToDest | crates/donut-server/src/selfsteal.rs:78-90 | the destination sees the original stream byte for byte |
| FrontDoor.TriageIsReference | crates/donut-server/src/selfsteal.rs:105-128 | the decision is that of the whole stream unless a long record can overshoot the cap |
| FrontDoor.OvershootingCut | crates/donut-server/src/selfsteal.rs:124-127 | a cut that changes the decision, for every such stream |
| FrontDoor.ExactCut | crates/donut-server/src/selfsteal.rs:115-121 | and a cut of the same stream that decides as the whole stream would |
| FrontDoor.DecisionIndependentExactly | crates/donut-server/src/selfsteal.rs:100-129 | any two cuts of the stream decide alike, and then as the whole stream would, if and only if the record is at most 14337 bytes, bogus, or the stream stays within the cap |
| LimitedCache.LimitedCache.constructor | crates/donut-tls/src/limited_cache.rs:63-68 | an empty cache with at least the requested storage, which may be none |
| LimitedCache.LimitedCache.Insert | crates/donut-tls/src/limited_cache.rs:70-92 | refines an association list in insertion order; a forgotten key is older than every other; length stays below the storage, which grows only from nothing |
| LimitedCache.LimitedCache.GetOrInsertDefaultAndEdit | crates/donut-tls/src/limited_cache.rs:27-47 | the same, writing the edited present or default value |
| LimitedCache.LimitedCache.Get | crates/donut-tls/src/limited_cache.rs:94-99 | the list's value, which is the last one written for that key |
| LimitedCache.LimitedCache.Remove | crates/donut-tls/src/limited_cache.rs:101-117 | returns and drops the entry, keeping the order of the others |
| Percent.Pct | crates/donut-config/src/subgen.rs:322-333 | the loop encodes byte by byte |
| Percent.PctDecode | crates/donut-client/src/link.rs:107-123 | the index loop computes the decoder, including its panic and the repair of what is not UTF-8 |
| Percent.PercentRoundTrip | crates/donut-client/src/link.rs:105-123 | decoding an encoded byte string gives its repair, and the string itself if and only if it is UTF-8 |
| Percent.EncodedIsPlain | crates/donut-config/src/subgen.rs:320-333 | only unreserved characters and `%` come out of the encoder |
| Percent.DecoderPanicsExactly | crates/donut-client/src/link.rs:111-121 | the decoder panics if and only if some `%` is followed three bytes later by a byte that continues a character |
| Percent.DecoderCutsCharacter | crates/donut-client/src/link.rs:112-113 | a UTF-8 text on which it panics |
| Utf8.RepairIsText | crates/donut-client/src/link.rs:122 | the repair of any byte string is UTF-8 |
| Utf8.RepairedExactly | crates/donut-client/src/link.rs:122 | the repair changes nothing if and only if the string is UTF-8 |
| Link.PlainHostRoundTrip | crates/donut-client/src/link.rs:98-102 | host and port are recovered from `host:port`, even when the host holds colons |
| Link.BracketHostRoundTrip | crates/donut-client/src/link.rs:91-97 | and from a bracketed IPv6 address |
| Link.Parse | crates/donut-client/src/link.rs:38-87 | the loop over query pairs computes the parse, with Unicode trimming, rejections and panics |
| Link.LinkRoundTrip | crates/donut-config/src/subgen.rs:59-83 | parsing a generated link recovers uuid, host, port, sni, fingerprint, security, network and label |
| Link.AddressRoundTrip | crates/donut-client/src/link.rs:90-103 | the same for plain and bracketed addresses |
| Link.ParsedUuidIsClean | crates/donut-client/src/link.rs:44-60 | a parsed UUID is never empty and holds no separator |
| Link.UuidRecoveredExactly | crates/donut-config/src/subgen.rs:76-82 | a generated link gives its UUID back if and only if it is non-empty and holds no separator |

## Left out

- Sockets, timers, DNS and the async runtime: a run can only be cut between branches, so a future dropped in the middle of a socket write is not modelled.
- Cryptography, certificates and the REALITY verdict: foreign code.
- What the TLS session itself writes while reading (post-handshake responses): only relay output is recorded in `sent`.
- The VLESS request and response codec, the carrier modules and the receiving half of the TLS connection.
- The TLS message fragmenter: `SendPath` takes the list of fragments as given.
- Routing of Mux datagrams to a local socket or a cascade session (`send_datagram`): only which datagram goes out for which session and target.
- Fragment.WriteFragmented: the delays between fragments, including the same 32-bit panic for a delay range of 0 to 4294967295.
- RecordLayer.Use: the key-state checks are debug assertions in the code; the model has them on.
- UserStore.StepKeepsInv: the store is a machine on values rather than an object, because a crash can fall between any two system calls; JSON itself is not modelled, a file is whole, absent or torn.
- Quality and distribution of random padding and fragment sizes: only ranges.
- Router rules, SOCKS parsing, short ids, metrics, admin endpoints, client dialers and configuration generators other than the share link: they would only add easy members.
