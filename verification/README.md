# Protocols of TeleNVDA, verified

TeleNVDA lets one computer be driven from another through a relay.  This project models the
parts of it that keep state over long runs or encode unbounded data, and proves that they do
what they are for.

- **Chunked file transfer.** `FileTransferProtocol` has the atomic steps of both ends,
  `FileTransferObjects` the transfer objects and the manager, proved to make exactly those steps,
  and `FileTransferThreads` the course of a thread as such steps.  `FileTransferSafety` is about any
  number of computers on a channel that loses, repeats and reorders messages, and `FileTransferAcks`
  about what they are told there; `FileTransferFifo` about a reliable first-in first-out link,
  `FileTransferDuplex` about two transfers in opposite directions over that link, and
  `FileTransferEndings` about transfers that the receiver declines or gives up.
- **WebSocket.** `XorMask` (masking by one big integer), `Utf8` (the table-driven checker),
  `WebSocketFrames` (printer, validity, one parse of a whole input), `FrameBuffer` (the
  resumable reader over a socket), `WebSocketMessages` (continuation state, pings, closes and
  the receive loop), `WebSocketReassembly` (what fragments become, over every run) and
  `WebSocketControl` (control frames over the wire, and which frames are valid).
- **Remote audio.** `AudioSequence` (sequence numbers modulo 2^32), `AudioShare` (numbering by
  the sender, concealment and resynchronisation by the listener), `AudioTimeline` (both ends
  together), `AudioSessions` (what a session lets out and in), `BitrateControl`, `PlaybackBuffer`
  and `PlaybackPlace` (the buffer as a place in the row of accepted blocks), `AudioCapture`,
  `AudioMixer` and `AudioCursor` (sources as places in the sound they captured).
- **Certificate.** `Der` (the encoder, and a reader of the basic encoding rules of ITU-T X.690)
  and `Certificate` (the nesting used for the private certificate, and the certificate of RFC 5280
  that a reader must find).
- **Keyboard.** `KeyForwarding` (which key events go to the controlled computer, and the release
  of modifiers when control comes back), `KeyRuns` (whole runs, with the link coming and going) and
  `KeyPlaces` (the one place each event goes to, told from the past).
- `ByteStrings`, `Numerals` and `Wrappers` hold what several modules share.

Objects that the program updates in place are classes whose methods are proved equal to a pure
step function; the theorems over runs are about those functions.  A method that holds a lock, or
waits for a condition, is one step.

`dafny verify dfyconfig.toml` checks everything.

## What the code does not do

Four things one would expect, from the documentation, a standard or the purpose of the code, that
it does not do.  The model follows the code.

- `protocol.md:523` says that an interrupted transfer is announced by either end.  A sender
  announces it exactly when it is cancelled and it is not over for it already; a wait that times
  out (`file_transfer.py:294-296`, `310-315`, `332-334`), a thread that dies of an exception
  (`275-283`) and a connection of its own that closes (`522-526`) say nothing.  On a reliable link
  the receiver is then left waiting, and refuses every other transfer, exactly when the sender
  stopped in one of these silent ways after its start arrived and before the end of the file did,
  when it was cancelled before its start went out, so that the abort arrives first, or when closing
  the received file raised (`436`) and no abort follows: `FileTransferFifo.ReceiverIsLeftBusyExactly`.
  A write that raises at the receiver (`417`) is announced at the next message of the sender, unless
  that is the end of the file and closing raises as well, which leaves the receiver busy:
  `FileTransferFifo.FailedWriteIsAnnouncedUnlessClosingRaises`.
- `validate_utf8` is documented to accept valid UTF-8 and nothing else.  It never looks at the
  final state, so it also accepts text whose last character is cut short, and is right exactly
  on all other input: `Utf8.VerdictIsRightExactlyUnlessCutShort`.
- `_oid` puts the first two arcs in one byte, so an identifier is read back exactly when that
  byte is below 128: `Der.OidReadsBackExactlyWhenFirstArcsAreSmall`.  The only identifier the
  program encodes, 2.5.4.3, is below.
- A released modifier may stay down on the controlled computer, in two ways.  While the link and
  the controlled computer stay up and the keyboard stays with it, one that is pressed and released
  stays down exactly when an earlier release of it was still awaited locally at the press, until it
  is pressed and released again or the keyboard is taken back:
  `KeyRuns.ReleasedStaysDownExactlyWhenAwaited`, with a run in `KeyRuns.HeldGestureModifierStaysDown`.
  And one that is held when the link or the controlled computer goes is forgotten here and stays
  down there, until that computer hears of it again; these are the only ones down besides those
  recorded: `KeyRuns.DownAreTheRecordedAndTheLost`, with a run in `KeyRuns.HeldModifierIsLost`.

## Model

| member | source | states |
|---|---|---|
| FileTransferSafety.WrittenIsTheChunksCounted | addon/globalPlugins/remoteClient/file_transfer.py:400-422 | On a channel that loses, repeats and reorders, the temporary file is always the concatenation of the chunks counted so far, with no hole or repetition, of a transfer its user chose to save under its destination |
| FileTransferSafety.DiskOnlyReceivesAcceptableFiles | addon/globalPlugins/remoteClient/file_transfer.py:433-457 | Even if files change while they are sent, a path only changes when its user chose to save a transfer there, and then to leading chunks of that transfer, of the announced size, which the checksum does not tell from all that was read |
| FileTransferSafety.DestinationsReceiveWholeFilesOnly | addon/globalPlugins/remoteClient/file_transfer.py:285-335 | In every run, a path is untouched or holds the whole content of a transfer its user chose to save there, whatever the checksum function, for files that do not change |
| FileTransferSafety.UntouchedFileIsUnchanging | addon/globalPlugins/remoteClient/file_transfer.py:303-324 | Reading an untouched file chunk by chunk gives non-empty pieces of at most 64 KiB that add up to it, empty files included |
| FileTransferSafety.TransfersEndSilently | addon/globalPlugins/remoteClient/file_transfer.py:253-363 | While connections stay open, whatever ends a transfer at its sender sends nothing: completion, refusal, a cancellation, which an abort of one end preceded, a timeout in a wait whose condition does not hold, or an exception; until then the same file is sent, whatever else is asked for |
| FileTransferAcks.AcknowledgementsAreTrue | addon/globalPlugins/remoteClient/file_transfer.py:236-263 | In every run over the lossy channel, a sender that was accepted was so by a receiver that opened the transfer where its user chose, one that was refused by a busy or declining one that changed nothing; the chunk it takes for acknowledged was written with all before it; at most eight are sent beyond it |
| FileTransferAcks.ReportsAreTrue | addon/globalPlugins/remoteClient/file_transfer.py:326-363 | In every run, a file reported as sent was saved by some computer where its user chose, one reported as received by this one, and one reported as refused was declined or met a busy computer |
| FileTransferAcks.ReceptionsEndExactly | addon/globalPlugins/remoteClient/file_transfer.py:400-489 | In every run, an action ends the transfer being received if and only if it has to: saved and acknowledged, announced by an abort for the reason reported, told by an abort of the other end, or closed; the disk changes in the first case only |
| FileTransferFifo.UnacknowledgedIsInFlight | addon/globalPlugins/remoteClient/file_transfer.py:303-325 | On a reliable link, sender index - 1 - last acknowledged equals chunks in flight plus acknowledgements in flight and is at most 8, with the receiver's expected index in between |
| FileTransferFifo.BlockedSenderHasMail | addon/globalPlugins/remoteClient/file_transfer.py:253-263 | Whenever the sending thread is blocked, a message is on its way: no deadlock |
| FileTransferFifo.EveryTransferCompletes | addon/globalPlugins/remoteClient/file_transfer.py:285-348 | Whatever the interleaving, a transfer of n chunks, the empty file included, is complete at both ends after exactly 3n + 7 moves, and before that some move is possible |
| FileTransferFifo.ReceiverIsLeftBusyExactly | addon/globalPlugins/remoteClient/file_transfer.py:228-363 | At every moment of every run, whether or not the file changes, for every way the sender may stop (timeout, exception, cancellation, its connection closing with some messages lost): an abort goes out if and only if it is cancelled and it is not over for it already; once what arrives is read, the receiver still waits, and refuses every other transfer, if and only if the sender stopped otherwise after its start arrived and before the end of the file did, or was cancelled before its start went out, or closing the file raised and no abort follows |
| FileTransferFifo.FullWindowMayTimeOut | addon/globalPlugins/remoteClient/file_transfer.py:303-325 | With more than eight chunks the window fills by twelve explicit moves, and a timeout there leaves the receiver busy |
| FileTransferFifo.NineChunksLeaveTheReceiverBusy | addon/globalPlugins/remoteClient/file_transfer.py:303-325 | The same for nine one-byte chunks |
| FileTransferFifo.FailedWriteIsAnnouncedUnlessClosingRaises | addon/globalPlugins/remoteClient/file_transfer.py:400-443 | After a write that raised, whatever part of the data it wrote, the next message, another chunk or the end of the file, ends the transfer with an abort and nothing is saved, if and only if it is not an end of the file whose closing raises too; then nothing is sent and the receiver stays busy |
| FileTransferDuplex.RunIsSeen | addon/globalPlugins/remoteClient/file_transfer.py:714-739 | A run of two transfers in opposite directions over the same queues is, for each of them, a run of it alone |
| FileTransferDuplex.BothConserve | addon/globalPlugins/remoteClient/file_transfer.py:236-325 | Conservation holds for each of the two transfers in every reachable state |
| FileTransferDuplex.BothTransfersComplete | addon/globalPlugins/remoteClient/file_transfer.py:285-457 | However they are interleaved, two transfers of n and m chunks in opposite directions are complete at all four ends after exactly 3n + 3m + 14 moves, and before that some move is possible |
| FileTransferEndings.DeclinedTransferEnds | addon/globalPlugins/remoteClient/file_transfer.py:649-684 | A start that meets a busy receiver, or a user who declines, is answered so that after exactly four moves the sender reports a refusal and is free; in every state before and after, nothing else is changed at either end |
| FileTransferEndings.AcceptedMeansOpened | addon/globalPlugins/remoteClient/file_transfer.py:236-302 | In every reachable state, whatever the answer, a sender that was accepted faces a receiver that opened the transfer under the path its user named, and has it still or saved it |
| FileTransferEndings.GivenUpTransferEnds | addon/globalPlugins/remoteClient/file_transfer.py:433-489 | Whenever the receiver gives up, cancelled by its user or unable to save what arrived, its disk is kept and its abort ends the transfer at both ends: only so many moves follow, and none can be made exactly when both are free and the sender has reported the interruption |
| FileTransferEndings.AskedFileArrives | addon/globalPlugins/remoteClient/file_transfer.py:566-609 | On a quiet link, once a user asks for a file to be sent and the other names a path, 3n + 7 moves in any order put the file of n chunks there, with both ends reporting it and quiet again |
| FileTransferObjects.OutgoingTransfer.HandleAck | addon/globalPlugins/remoteClient/file_transfer.py:236-245 | The acknowledged index is the largest so far; a start or completion acknowledgement sets its own field only |
| FileTransferObjects.OutgoingTransfer.Cancel | addon/globalPlugins/remoteClient/file_transfer.py:228-234 | Cancelling sends one abort, and does nothing once cancelled or completed |
| FileTransferObjects.OutgoingTransfer.Wait | addon/globalPlugins/remoteClient/file_transfer.py:253-263 | The wait loop takes the steps of the protocol: it goes on, gives up or proceeds exactly when the atomic thread does |
| FileTransferObjects.OutgoingTransfer.SendChunks | addon/globalPlugins/remoteClient/file_transfer.py:303-325 | The reading loop sends the chunks and accumulates the checksum of the atomic thread, turn by turn |
| FileTransferObjects.OutgoingTransfer.Transfer | addon/globalPlugins/remoteClient/file_transfer.py:285-335 | The whole body of the thread sends the messages and ends with the outcome of the atomic steps |
| FileTransferObjects.OutgoingTransfer.Run | addon/globalPlugins/remoteClient/file_transfer.py:275-283 | When the thread ends, by itself or by an exception, the manager forgets the transfer and reports its outcome, as the atomic steps do |
| FileTransferThreads.ThreadIsTheComputers | addon/globalPlugins/remoteClient/file_transfer.py:253-335 | Whatever reaches the sending thread between its turns, and whenever its waits time out, its whole course sends the messages and leaves the computer as handling each message and letting it run does; nothing that comes after its end does anything |
| FileTransferObjects.IncomingTransfer.Accept | addon/globalPlugins/remoteClient/file_transfer.py:381-394 | An accepted transfer starts with an empty temporary file and is acknowledged |
| FileTransferObjects.IncomingTransfer.Refuse | addon/globalPlugins/remoteClient/file_transfer.py:396-398 | Refusing a transfer does not touch another one being received |
| FileTransferObjects.IncomingTransfer.HandleChunk | addon/globalPlugins/remoteClient/file_transfer.py:400-422 | A chunk is written and acknowledged, or ends the transfer with an abort when its index or data is wrong |
| FileTransferObjects.IncomingTransfer.HandleComplete | addon/globalPlugins/remoteClient/file_transfer.py:433-457 | The destination is replaced just when size and checksum match and the move succeeds; otherwise an abort goes out and the destination is kept |
| FileTransferObjects.FileTransferManager.HandleStart | addon/globalPlugins/remoteClient/file_transfer.py:649-684 | A second transfer is refused; otherwise the answer decides, a refusal changing nothing but for what is sent |
| FileTransferObjects.FileTransferManager.HandleClosing | addon/globalPlugins/remoteClient/file_transfer.py:522-526 | Losing the connection cancels the outgoing transfer and drops the incoming one with its temporary file |
| FileTransferObjects.FileTransferManager.Handle | addon/globalPlugins/remoteClient/file_transfer.py:714-739 | Each message reaches the transfer of its identifier only, and does there what the atomic step does |
| XorMask.XorSplits | addon/globalPlugins/remoteClient/lib32/websocket/_abnf.py:51 | The exclusive or of two integers, defined bit by bit, keeps any number of low bits apart from the others |
| XorMask.MaskIsBytewise | addon/globalPlugins/remoteClient/lib32/websocket/_abnf.py:45-51 | For data of any length and either byte order, one exclusive or of two big integers gives octet i xor key octet i mod 4 (section 5.3 of RFC 6455) |
| XorMask.MaskUndoesItself | addon/globalPlugins/remoteClient/lib32/websocket/_abnf.py:281-302 | Masking twice with the same key restores the data, even between machines of different byte order |
| Utf8.CharacterIsRead | addon/globalPlugins/remoteClient/lib32/websocket/_utils.py:419-427 | From ACCEPT, the bytes of any scalar value lead back to ACCEPT with that value as code point, through states that are neither ACCEPT nor REJECT |
| Utf8.AcceptMeansWellFormed | addon/globalPlugins/remoteClient/lib32/websocket/_utils.py:48-427 | The automaton is in ACCEPT exactly when the bytes so far are well-formed (section 4 of RFC 3629), and then holds the last scalar value |
| Utf8.Validate | addon/globalPlugins/remoteClient/lib32/websocket/_utils.py:429-437 | The loop says yes exactly when some continuation makes the bytes well-formed |
| Utf8.ValidatesExactlyPrefixes | addon/globalPlugins/remoteClient/lib32/websocket/_utils.py:429-437 | The checker accepts exactly the prefixes of well-formed strings |
| Utf8.VerdictIsRightExactlyUnlessCutShort | addon/globalPlugins/remoteClient/lib32/websocket/_utils.py:440-446 | The documented verdict is given exactly unless the last character is cut short |
| Utf8.LoneFirstByteIsValidated | addon/globalPlugins/remoteClient/lib32/websocket/_utils.py:440-446 | A lone 0xC3 is accepted though it is not well-formed |
| WebSocketFrames.ValidateFrame | addon/globalPlugins/remoteClient/lib32/websocket/_abnf.py:170-211 | The branches raise exactly for reserved bits, unknown opcodes, fragmented pings, and closes whose length, text or status is not allowed |
| WebSocketFrames.LengthFieldReadsBack | addon/globalPlugins/remoteClient/lib32/websocket/_abnf.py:256-264 | The mask bit and every length below 2^63 are read back from the length field, which has exactly its size |
| WebSocketFrames.LengthFieldIsMinimal | addon/globalPlugins/remoteClient/lib32/websocket/_abnf.py:256-264 | No shorter length field stands for the same length |
| WebSocketFrames.FormatReadsBack | addon/globalPlugins/remoteClient/lib32/websocket/_abnf.py:238-279 | A frame is printed if and only if its flags are bits, its opcode one of the six and its length below 2^63; followed by anything, it then parses to the same flags, opcode, mask bit and payload, and exactly its bytes are consumed, for every key and byte order at either end |
| WebSocketFrames.ParsedFramePrintsAgain | addon/globalPlugins/remoteClient/lib32/websocket/_abnf.py:238-279 | Every frame that was parsed and valid, of a length below 2^63, prints again, to no more bytes than it was read from, and parses to itself |
| WebSocketFrames.LayoutIsParsed | addon/globalPlugins/remoteClient/lib32/websocket/_abnf.py:328-405 | Whatever is laid out as section 5.2 of RFC 6455 has it, with any opcode and in any form of its length, shortest or not, is parsed to its flags, opcode and unmasked payload, and exactly its bytes are consumed; any part of it cut short is not parsed yet |
| FrameBuffer.FrameBuffer.RecvStrict | addon/globalPlugins/remoteClient/lib32/websocket/_abnf.py:407-433 | Gives exactly the bytes asked for, in order, or the socket's exception with every byte kept |
| FrameBuffer.FrameBuffer.RecvHeader | addon/globalPlugins/remoteClient/lib32/websocket/_abnf.py:328-340 | The header stage keeps the input of the frame, finished or interrupted |
| FrameBuffer.FrameBuffer.RecvLength | addon/globalPlugins/remoteClient/lib32/websocket/_abnf.py:351-363 | The length stage, with its three forms, keeps the input of the frame, finished or interrupted |
| FrameBuffer.FrameBuffer.RecvMask | addon/globalPlugins/remoteClient/lib32/websocket/_abnf.py:368-369 | The mask stage keeps the input of the frame, finished or interrupted |
| FrameBuffer.FrameBuffer.RecvFrame | addon/globalPlugins/remoteClient/lib32/websocket/_abnf.py:371-405 | However the socket cuts the stream, the frame or error is that of one parse of the whole input and exactly its bytes are gone; it raises just when the socket does, and then no byte is gone |
| FrameBuffer.StagesParse | addon/globalPlugins/remoteClient/lib32/websocket/_abnf.py:371-405 | What the stages kept, with a payload of the length they found, is the frame the one-go parser finds in the same bytes |
| FrameBuffer.FrameBuffer.RecvRepeatedly | addon/globalPlugins/remoteClient/lib32/websocket/_abnf.py:371-433 | Over any cutting and any timeouts, repeated calls give the frames of one parse of the concatenated stream, each once and in order |
| WebSocketMessages.ContinuousFrame.Add | addon/globalPlugins/remoteClient/lib32/websocket/_abnf.py:452-461 | A fragment extends the data and the expected opcode as the pure assembly says |
| WebSocketMessages.ContinuousFrame.Extract | addon/globalPlugins/remoteClient/lib32/websocket/_abnf.py:466-482 | The assembled data is taken out once; without any it raises, and so does text that no continuation makes well-formed, which is gone all the same |
| WebSocketMessages.WebSocket.RecvDataFrame | addon/globalPlugins/remoteClient/lib32/websocket/_core.py:426-475 | One call returns or raises what one reading of the whole input gives, with the same answers sent; after an exception of the socket the rest of the input still gives it |
| WebSocketReassembly.AssemblyIsTheUnfinishedMessage | addon/globalPlugins/remoteClient/lib32/websocket/_abnf.py:436-482 | In every run of frames, errors included, the continuation state is exactly the unfinished message: first opcode and concatenated payloads |
| WebSocketReassembly.BothSetOrNeither | addon/globalPlugins/remoteClient/lib32/websocket/_abnf.py:436-482 | recving_frames is set exactly when cont_data is, if and only if fragments are not handed over one by one or no message is open |
| WebSocketReassembly.DeliveredIsTheConcatenation | addon/globalPlugins/remoteClient/lib32/websocket/_core.py:443-459 | In every run, what is delivered is the concatenated payload of a first fragment and its continuations, under the first opcode; a fragment raises exactly when it does not fit or completes text that no continuation makes well-formed |
| WebSocketReassembly.FragmentsAreHandedOver | addon/globalPlugins/remoteClient/lib32/websocket/_abnf.py:436-482 | With fire_cont_frame, in every run, each fragment that fits is returned at once as it is, and any other raises |
| WebSocketReassembly.MessageIsReassembled | addon/globalPlugins/remoteClient/lib32/websocket/_core.py:443-475 | From printed bytes, of any frames with bits for flags and lengths below 2^63: however a message is fragmented and whatever pings and pongs come in between, one call answers the pings in order, delivers it once and leaves what follows (section 5.4 of RFC 6455) |
| WebSocketReassembly.WellFormedTextIsDelivered | addon/globalPlugins/remoteClient/lib32/websocket/_abnf.py:466-482 | Well-formed text is always delivered, also when a fragment ends inside a character |
| WebSocketReassembly.AnswersReadBack | addon/globalPlugins/remoteClient/lib32/websocket/_core.py:460-475 | Every pong and close the client answers with is printable, and the peer reads back that frame and finds it valid; a pong carries the data of its ping |
| WebSocketControl.FramesAreValidExactly | addon/globalPlugins/remoteClient/lib32/websocket/_abnf.py:170-211 | A frame is let through if and only if no reserved bit is set, the opcode is one of the six, a ping is no fragment, and a close is empty or has a status that may be sent and at most 123 octets of text some continuation makes well-formed (sections 5.5 and 7.4 of RFC 6455) |
| WebSocketControl.CloseIsEchoedExactlyWhenAllowed | addon/globalPlugins/remoteClient/lib32/websocket/_core.py:463-465 | From printed bytes: a close ends the call with its payload and is answered by a final, masked close with status 1000, if and only if it is one that may be sent; otherwise the call raises and nothing is sent |
| WebSocketControl.PingIsAnsweredExactlyWhenAllowed | addon/globalPlugins/remoteClient/lib32/websocket/_core.py:466-475 | From printed bytes: an unfragmented ping of at most 125 octets is answered by a final, masked pong with its data, any other raises; a pong sends nothing; the call ends there if and only if control frames were asked for |
| WebSocketControl.SentFrameReadsBack | addon/globalPlugins/remoteClient/lib32/websocket/_abnf.py:215-279 | Whatever the client sends, of any kind and any length below 2^63, is printed, and the peer parses one final, masked frame that holds it |
| Der.EncodeOid | addon/globalPlugins/remoteClient/certificate.py:50-59 | The nested loops build the base-128 arcs, most significant digit first, and raise on too few or too large first arcs |
| Der.LengthReadsBack | addon/globalPlugins/remoteClient/certificate.py:30-34 | Every length is read back and what follows is untouched (section 8.1.3 of ITU-T X.690) |
| Der.LengthIsMinimal | addon/globalPlugins/remoteClient/certificate.py:30-34 | No fewer octets stand for the same length (section 10.1 of ITU-T X.690) |
| Der.EncodedReadsBack | addon/globalPlugins/remoteClient/certificate.py:37-38 | Tag, content and remainder are recovered from an encoded value |
| Der.RowReadsBack | addon/globalPlugins/remoteClient/certificate.py:37-38 | Values nested to any depth are recovered |
| Der.IntegerContentReadsBack | addon/globalPlugins/remoteClient/certificate.py:41-47 | Unsigned bytes, with any leading zeros, become content octets of the same two's complement value |
| Der.IntegerContentIsMinimal | addon/globalPlugins/remoteClient/certificate.py:41-47 | No fewer content octets hold the same number (section 8.3.2 of ITU-T X.690) |
| Der.IntegerReadsBack | addon/globalPlugins/remoteClient/certificate.py:41-47 | Every natural number is read back from its encoding |
| Der.OidReadsBackExactlyWhenFirstArcsAreSmall | addon/globalPlugins/remoteClient/certificate.py:50-59 | A valid identifier is read back if and only if its first two arcs fit seven bits; it is an error for them not to fit a byte |
| Der.OidTwoFortyEightIsMisread | addon/globalPlugins/remoteClient/certificate.py:50-59 | 2.48 is valid, encoded, and not read back |
| Der.ArcIsMinimal | addon/globalPlugins/remoteClient/certificate.py:52-58 | No arc starts with a needless octet (section 8.19.2 of ITU-T X.690) |
| Certificate.CertificateReadsBack | addon/globalPlugins/remoteClient/certificate.py:71-89 | A reader of any basic encoding finds one value and nothing else, and it is the certificate of section 4.1 of RFC 5280 with every tag: version 3, the serial number, sha256WithRSAEncryption inside and outside, the common name as UTF-8 text twice, both dates as UTC times, rsaEncryption and the two numbers of the key in a bit string, and the signature |
| Certificate.SignedOctetsReadBack | addon/globalPlugins/remoteClient/certificate.py:71-89 | The octets that were signed are exactly the first value within the certificate, header included |
| Certificate.NameReadsBack | addon/globalPlugins/remoteClient/certificate.py:62-64 | A name is read as a sequence of one set of one pair of 2.5.4.3 and its text as a UTF-8 string |
| Certificate.AlgorithmArcs | addon/globalPlugins/remoteClient/certificate.py:26-27 | The ready-made algorithms are what the encoder of identifiers writes for 1.2.840.113549.1.1 and one more arc |
| Certificate.ReadyMadeNameType | addon/globalPlugins/remoteClient/certificate.py:62-64 | The encoder of identifiers gives 55 04 03 for 2.5.4.3 |
| AudioSequence.SequenceTracker.Accept | addon/globalPlugins/remoteClient/audio_protocol.py:184-199 | Parameters out of range raise and change nothing; otherwise the fields and the verdict are those of the pure tracker |
| AudioSequence.ClassifyRefines | addon/globalPlugins/remoteClient/audio_protocol.py:184-203 | For a group that starts less than 2^31 from what is expected, verdict, missing count and new expectation modulo 2^32 are those of an unbounded tracker |
| AudioSequence.ClassifyIsRightExactlyWhenJudgeable | addon/globalPlugins/remoteClient/audio_protocol.py:184-199 | For every group, early or late: it is judged as the unbounded tracker judges it if and only if it starts less than 2^31 ahead, or its number seems at most 2^31 behind and is not, by wrapping around, that of the group before what is expected |
| AudioSequence.TrackerRefinesTheCount | addon/globalPlugins/remoteClient/audio_protocol.py:173-203 | The refinement holds along every run, across any number of wrap-arounds |
| AudioSequence.NoFrameIsTakenTwice | addon/globalPlugins/remoteClient/audio_protocol.py:173-203 | The groups taken cover disjoint, increasing ranges of true frame numbers |
| AudioShare.Publisher.OnOpusBlock | addon/globalPlugins/remoteClient/audio_share.py:380-441 | The sequence advances by every full group; a message goes out just when a session is active, something sounds, the queue is short and the encoder works; the bitrate controller sees the depth, as dropped when the queue is long, unless the encoder is missing or fails |
| AudioShare.ValidateOpusData | addon/globalPlugins/remoteClient/audio_protocol.py:132-165 | The branches raise exactly on a wrong stream, sequence, frame duration, rate, channel count, number of packets, or a packet that does not decode to 1 to 4000 bytes |
| AudioShare.Viewer.HandleOpusData | addon/globalPlugins/remoteClient/audio_share.py:729-798 | Invalid, repeated and old data feed nothing; short gaps are concealed, long ones reset the stream; a decoder that raises stops the feed where it does |
| AudioShare.Viewer.FeedAll | addon/globalPlugins/remoteClient/audio_share.py:779-787 | Feeding stops exactly when the decoder raises, with all before it fed |
| AudioSessions.SoundIsSentExactly | addon/globalPlugins/remoteClient/audio_share.py:380-421 | In every run, a full group is sent if and only if the session is active, one of its blocks is not all zeros, at most twenty messages wait and the encoder works; then with its number, the format of the session and its own packets |
| AudioSessions.PressureIsHeardExactly | addon/globalPlugins/remoteClient/audio_share.py:387-441 | The controller hears of a drop exactly when sound is given up for a queue of more than twenty, of the queue alone when a group is sent or silent, and of nothing when idle or without an encoder |
| AudioSessions.MessagesAreValidExactly | addon/globalPlugins/remoteClient/audio_protocol.py:132-165 | A message is taken if and only if it is of the stream of the session, numbered below 2^32, of 20 ms, of 48 kHz and two channels where it says so, with one or two packets of 1 to 4000 bytes |
| AudioSessions.ForeignMessagesChangeNothing | addon/globalPlugins/remoteClient/audio_share.py:729-760 | Wherever messages that are not of the session come in between, the listener is where its own messages take it |
| AudioSessions.FedIsAsFarAsItGoes | addon/globalPlugins/remoteClient/audio_share.py:760-798 | A decoder that raises was fed exactly the first blocks of those that one that does not is fed, without a player nothing is; the stream is followed alike |
| AudioTimeline.SenderNumbersEveryGroup | addon/globalPlugins/remoteClient/audio_share.py:380-421 | For every run of blocks, sent, silent or abandoned, each message carries the true number of its first frame modulo 2^32 and the packets of its own blocks |
| AudioTimeline.FedIsTheCapturedTimeline | addon/globalPlugins/remoteClient/audio_share.py:748-787 | With losses, repetitions and late messages, what was fed since the last reset is the captured timeline frame for frame with exactly the missing groups concealed, and resets are exactly the gaps above three frames |
| BitrateControl.BitrateController.Create | addon/globalPlugins/remoteClient/audio_protocol.py:53-70 | Only the four levels are accepted as initial bitrate |
| BitrateControl.BitrateController.ObserveDepth | addon/globalPlugins/remoteClient/audio_protocol.py:72-92 | Returns the new level just when it changes; a negative depth raises and changes nothing |
| BitrateControl.TargetFallsWithPressure | addon/globalPlugins/remoteClient/audio_protocol.py:94-102 | More pressure never asks for a higher level, and each level is asked for exactly between its thresholds |
| BitrateControl.ControllerFollowsTheHistory | addon/globalPlugins/remoteClient/audio_protocol.py:72-92 | Over every run, the candidate and its count are the trailing run of observations since the last change, so the level moves exactly when the history says so |
| BitrateControl.EveryChangeIsBacked | addon/globalPlugins/remoteClient/audio_protocol.py:85-92 | Each change follows the required number of observations in a row for the new level, all of them after the change before, and the interval since that one |
| BitrateControl.ThreeToLowerAndTenToRaise | addon/globalPlugins/remoteClient/audio_protocol.py:53-92 | With the settings in use, a fall follows three observations in a row that ask for the lower level, a rise ten for the higher one, all since the change before, which is at least five seconds ago |
| BitrateControl.SpanOfChanges | addon/globalPlugins/remoteClient/audio_protocol.py:86-89 | Changes i and j are at least j - i intervals apart, whatever the clock does |
| BitrateControl.ConstantTargetIsReached | addon/globalPlugins/remoteClient/audio_protocol.py:72-92 | Under a constant target the level is there as soon as enough observations came and the interval is over |
| BitrateControl.ReachedLevelStays | addon/globalPlugins/remoteClient/audio_protocol.py:77-80 | A level asked for all the time is never left |
| PlaybackBuffer.TimedAudioBuffer.Create | addon/globalPlugins/remoteClient/audio_playback.py:30-45 | Raises exactly when the durations do not fit together |
| PlaybackBuffer.TimedAudioBuffer.PutBlock | addon/globalPlugins/remoteClient/audio_playback.py:61-70 | The loop drops exactly the oldest blocks in excess and counts them; a closed buffer takes nothing |
| PlaybackBuffer.TimedAudioBuffer.Wait | addon/globalPlugins/remoteClient/audio_playback.py:72-83 | Playing starts exactly when the buffer is open and holds the prebuffer |
| PlaybackBuffer.TimedAudioBuffer.GetBlock | addon/globalPlugins/remoteClient/audio_playback.py:85-94 | The oldest block is returned, and running dry while playing is an underrun |
| PlaybackBuffer.NoBlockIsLostOrReordered | addon/globalPlugins/remoteClient/audio_playback.py:61-106 | In every run the accepted blocks are those that left, in order, and then those buffered: exactly the last ones accepted |
| PlaybackBuffer.BlocksAddUp | addon/globalPlugins/remoteClient/audio_playback.py:61-106 | Accepted = returned + dropped + discarded + buffered, and the counter of dropped blocks is right |
| PlaybackBuffer.PlayingIsAccountedFor | addon/globalPlugins/remoteClient/audio_playback.py:61-106 | In every run starts = underruns + resets while playing + 1 if still playing, an open buffer that plays is not empty and a closed one is |
| PlaybackBuffer.BufferedTimeIsBounded | addon/globalPlugins/remoteClient/audio_playback.py:30-70 | In every run the buffered time is at most the ceiling in milliseconds |
| PlaybackPlace.BufferIsAPlace | addon/globalPlugins/remoteClient/audio_playback.py:61-106 | In every run the buffer is the row of accepted blocks from a place on: a get returns the block there and moves it by one, a put moves it until the rest fits the ceiling in milliseconds, a reset or close to the end; it plays and has run dry exactly as the operations say |
| PlaybackPlace.FatesAreTheMoves | addon/globalPlugins/remoteClient/audio_playback.py:61-106 | Blocks are dropped by puts, returned by gets and discarded by resets and closes only, as many as the place was moved by them |
| PlaybackPlace.DurationsFitExactly | addon/globalPlugins/remoteClient/audio_playback.py:30-45 | Durations are accepted if and only if they are positive, the ceiling is not below the target, and some number of frames lasts as long as the prebuffer and no longer than the ceiling |
| AudioCapture.DownmixConcat | addon/globalPlugins/remoteClient/audio_capture.py:707-720 | A whole number of output frames can be reduced on its own: reduction distributes over such cuts |
| AudioCapture.DownmixAveragesOneFrameInThree | addon/globalPlugins/remoteClient/audio_capture.py:707-720 | Output sample k is the average, rounded down, of the two channels of input frame 3k |
| AudioCapture.Source.FeedBlock | addon/globalPlugins/remoteClient/audio_capture.py:550-566 | The block is joined to the rest, its whole output frames are reduced and buffered, and the oldest sound in excess is dropped |
| AudioCapture.Source.TakeBlock | addon/globalPlugins/remoteClient/audio_capture.py:568-576 | Hands over the oldest bytes, as many as asked for, filled up with silence, and only these leave; nothing when there are none |
| AudioCapture.StreamingEqualsBatch | addon/globalPlugins/remoteClient/audio_capture.py:537-576 | For every way of cutting the captured bytes, what was taken, dropped and is buffered is, in order, the reduction of all whole output frames at once; less than one waits |
| AudioCapture.BufferStaysAligned | addon/globalPlugins/remoteClient/audio_capture.py:562-576 | With block-sized takes the buffer stays a whole number of output frames within 25 blocks, across drops |
| AudioCursor.SourceIsAPlaceInTheSound | addon/globalPlugins/remoteClient/audio_capture.py:550-576 | In every run a source is a place in the reduction of all it was fed: a take hands over the bytes that follow, padded with zeros, and moves it by them, nothing at the end; a feed moves it only to leave half a second at most |
| AudioCursor.SoundIsWhatWasCaptured | addon/globalPlugins/remoteClient/audio_capture.py:550-566 | That reduction is what was captured in stereo, and else the average of the channels of each third frame, rounded down |
| AudioMixer.Summed | addon/globalPlugins/remoteClient/audio_capture.py:676-690 | The accumulating loops compute the clipped sum of every sample |
| AudioMixer.ShortcutsAgree | addon/globalPlugins/remoteClient/audio_capture.py:672-675 | Silence for no block and the block itself for one are what the formula gives |
| AudioMixer.MixOfPresent | addon/globalPlugins/remoteClient/audio_capture.py:669-671 | Leaving exhausted sources out gives the clipped sum with them as silence |
| AudioMixer.MixIgnoresOrder | addon/globalPlugins/remoteClient/audio_capture.py:666-690 | The mix does not depend on the order of the sources |
| AudioMixer.Mixer.Mix | addon/globalPlugins/remoteClient/audio_capture.py:666-690 | For any number of sources, every source gives up one block and the mix is the clipped sum with exhausted ones as silence |
| AudioCursor.MixIsOfTheSounds | addon/globalPlugins/remoteClient/audio_capture.py:666-690 | After any runs of any number of sources, each sample of the next 20 ms is the sample nearest to the sum of those that follow the places of all sources |
| AudioCursor.LoneSourceIsHeard | addon/globalPlugins/remoteClient/audio_capture.py:666-675 | The next mix of a source on its own is what follows its place |
| AudioCursor.FirstBlockIsHeard | addon/globalPlugins/remoteClient/audio_capture.py:550-576 | A block fed to a new source that makes one output block is, reduced, the next mix |
| KeyForwarding.KeyForwarder.HandleRawKeys | addon/globalPlugins/remoteClient/__init__.py:1982-2015 | Each event is kept, passed on or sent, and the recorded modifiers follow what is sent; which of them is in `KeyPlaces.EveryKeyGoesToOnePlace` |
| KeyForwarding.KeyForwarder.ReleaseRemoteKeys | addon/globalPlugins/remoteClient/__init__.py:1334-1355 | Every recorded modifier is released once, in the order of the set, after the reserved key pair when the release could act on its own |
| KeyForwarding.KeyForwarder.ReturnToLocalControl | addon/globalPlugins/remoteClient/__init__.py:1363-1385 | Control comes back with the key state cleared and, when asked for, the modifiers released |
| KeyForwarding.KeyForwarder.SwitchToRemoteControl | addon/globalPlugins/remoteClient/__init__.py:1954-1969 | The keys of the gesture are remembered so that their release stays local |
| KeyForwarding.KeyForwarder.ScriptSendKeys | addon/globalPlugins/remoteClient/__init__.py:1930-1952 | The toggling script, with the link up or down; a controlled computer only asks for the keyboard |
| KeyForwarding.KeyForwarder.OpenAudioSources | addon/globalPlugins/remoteClient/__init__.py:1117-1131 | The keyboard is lent back for the dialog and resumed only while the link is up |
| KeyPlaces.EveryKeyGoesToOnePlace | addon/globalPlugins/remoteClient/__init__.py:1982-2015 | In every run, an event that was not injected is told, as it is, passed on here, or kept for a script, and only one of these; told if and only if the keyboard is away, the link up, its release not awaited here and no script takes it, all read off the past alone |
| KeyRuns.ReturnReleasesEverything | addon/globalPlugins/remoteClient/__init__.py:1334-1385 | A return with release that is heard takes exactly the recorded modifiers up, with or without the masking pair |
| KeyRuns.ReleaseIsMaskedExactlyWhenItCouldAct | addon/globalPlugins/remoteClient/__init__.py:1334-1355 | The reserved key goes down and up first if and only if held modifiers could act on their own; nothing is sent while the relay is gone, or by a return without release |
| KeyRuns.DownAreTheRecordedAndTheLost | addon/globalPlugins/remoteClient/__init__.py:1310-1385 | In every run, with the link and the controlled computer coming and going, the modifiers it was told are down are exactly those recorded and those lost, which are disjoint; none is stuck if and only if none was lost, and nothing is recorded while the keyboard is local |
| KeyRuns.HeldModifierIsLost | addon/globalPlugins/remoteClient/__init__.py:1573-1579 | A run in which one is lost: the connection goes while it is held |
| KeyRuns.NoStuckModifier | addon/globalPlugins/remoteClient/__init__.py:1982-2015 | In every run with the link and the controlled computer up, the modifiers told down are exactly the recorded ones, and none is down whenever the keyboard is local |
| KeyRuns.ReleasedStaysDownExactlyWhenAwaited | addon/globalPlugins/remoteClient/__init__.py:1993-2005 | After any run, a modifier pressed and released while the link and the controlled computer stay up and the keyboard stays with it, with anything about other keys in between, is still down there if and only if an earlier release of it was awaited here when it was pressed |
| KeyRuns.HeldGestureModifierStaysDown | addon/globalPlugins/remoteClient/__init__.py:1962-1966 | A run in which it happens, for every modifier held in the toggling gesture |

## Left out

- File transfer: the legacy message, dialogs, size limits, free space and the save dialog are one answer, given in the same step as the start message; SHA-256 is an uninterpreted function, Base64 text is its data or nothing, time is the input that says a wait expired.
- File transfer: the receiver's runs have no operating system error while a chunk is written or the file is closed; what follows from one is in `FileTransferFifo.FailedWriteIsAnnouncedUnlessClosingRaises` and `ReceiverIsLeftBusyExactly`.
- FileTransferSafety.TransfersEndSilently: an abort that was sent may arrive too early or be lost; what it does for the receiver is said on a reliable link only.
- WebSocket: text payloads given as `str`, the optional compiled routines of wsaccel, tracing, and the `lib64` copies, which are the same code.
- WebSocket: an error or a short count of the sending side of the socket; sent frames are recorded as made, before they are printed.
- FrameBuffer.FrameBuffer.RecvStrict: a `recv` that returns something other than bytes, and one that returns more than was asked for, because the socket does neither.
- Utf8.Validate: the table is written as the ranges it holds, not entry by entry.
- Certificate.CertificateReadsBack: the signature, the clock and the random serial number are inputs; RSA, PEM and the file are not modelled.
- AudioShare.Publisher.OnOpusBlock: setting the chosen bitrate on the encoder, whose failure is only logged; the encoder is some function of blocks at each moment, and its state is not followed.
- AudioShare.ValidateOpusData: values of another type than the expected one, and the length of the Base64 text itself.
- AudioTimeline.FedIsTheCapturedTimeline: a decoder that raises; what it is fed instead is in `AudioSessions.FedIsAsFarAsItGoes`.
- PlaybackBuffer.TimedAudioBuffer.Wait: other threads while it waits come before it; one consumer.
- AudioMixer.Mixer.Mix: the clock of the mixer, adding and removing sources, and locks; every tick is one step.
- Mu-law companding, audio devices and the negotiation of audio and screen sessions.
- KeyForwarding.KeyForwarder.HandleRawKeys: the keep-awake key, the script of a gesture and what counts as a modifier are inputs; keys that are not modifiers are not followed; the equivalent hook of older screen reader versions is not modelled separately.
- KeyForwarding.KeyForwarder.ReturnToLocalControl: braille, muting, session lock registration and the hook thread.
