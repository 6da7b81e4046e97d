# BLDC inverter serial stack — a Dafny model

This project models the serial protocol stack of a desktop GUI for a BLDC
motor inverter, and proves properties of that model. The stack has four
layers:

- **Codec.** A message is three bytes: an id byte `(type << 6) | (index & 0x3F)`
  and a big-endian 16-bit payload. A frame is seven bytes:
  `0x3A | message | XOR of the message bytes | 0x3B | 0x0A`. Decoding checks
  the index against an enumeration and clears a validity flag that is never
  set again. The repository carries two copies of the codec, which differ
  only in their enumerations. The model writes the codec once, over an
  `IndexTables` value, and each copy supplies its own tables
  (`UartDefines.MainTables`, `ModelsUartDefines.ModelsTables`).
- **Signal registry.** Each signal is a named value with fixed scaling and
  scheduling settings. It has a small state machine:
  - `write` remembers a pending value;
  - `update` takes a received wire value unless a write is pending;
  - `retransmit` re-arms the last write;
  - `getRaw` unscales the pending value.

  The catalog fixes 17 signals in declaration order. An older registry with
  16 signals and no state machine is what the application is written
  against.
- **Transport helper.** This layer covers:
  - one pass of the receiver's frame-extraction loop over its byte buffer;
  - one tick of the cyclic scheduler;
  - the FIFO of received messages;
  - `send` behind a port-open flag;
  - the read-request sweep, and `connect`.
- **Application glue.** `readUART` applies a RESPONSE to the first signal
  with the same index and logs STATUS messages. `guiCallback` turns a GUI
  action into one WRITE_REQUEST.

Objects whose fields the source changes in place are classes:
`UartMessage`, `MessageFrame`, `CyclicSend`, `Signal`, `UartHelper`,
`ModelsSignal` and `App`. Each method's postcondition ties the new state to
a specification function, and the properties are proved about those
functions:

- `Written`, `Updated` and `Retransmitted` for the signal state machine;
- `ScanAsWritten` and `Scan` for the receiver pass;
- `TickSpec` for the scheduler tick;
- `FirstMatch`, `ResponseValue` and `CallbackOutcomeOf` for the application.

Bytes are `bv8`. Numbers the Python code holds as `int | float` are `real`,
and a whole real stands for a Python `int`. A `struct.pack` that raises is
an `Option` that is `None`. Clock readings are parameters: `now` for one tick or one handler call, and one reading per signal, `nows[i]`, for a read-request sweep, which reads the clock once per signal.

Files: `wrappers.dfy` (Option), `uart_defines.dfy`,
`models_uart_defines.dfy`, `data_classes.dfy`, `models_data_classes.dfy`,
`uart_helper.dfy` and `app.dfy`.

`Signale.__eq__` compares only the index. It is the predicate
`DataClasses.Signal.Equals`, and the catalog lemmas show that each index
names exactly one signal.

## Model

| member | source | states |
|---|---|---|
| UartDefines.IdByte | moduls/uartDefines.py:226 | the id byte is `type * 64 + index mod 64`, as `(type << 6) \| (index & 0x3F)` gives |
| UartDefines.TypeOfId | moduls/uartDefines.py:203 | the type is the id byte's two high bits |
| UartDefines.IndexOfId | moduls/uartDefines.py:206-208 | the index candidate is the id byte's low six bits, in 0..63 |
| UartDefines.IdByteSplits | moduls/uartDefines.py:203-226 | splitting the id byte gives back the type and `index mod 64` |
| UartDefines.UnpackUnsigned | moduls/uartDefines.py:175-183 | `'>H'`: a value in 0..65535, high byte first; 0 for the empty payload |
| UartDefines.UnpackSigned | moduls/uartDefines.py:185-193 | `'>h'`: a value in -32768..32767; mod 65536 it equals the unsigned reading of the same bytes; 0 for the empty payload |
| UartDefines.PackUnsigned | moduls/uartDefines.py:159-165 | packs exactly the values 0..65535, and unpacking gives the value back |
| UartDefines.PackSigned | moduls/uartDefines.py:167-173 | packs exactly -32768..32767; the signed reading gives the value back, the unsigned one gives it mod 65536 |
| UartDefines.WholeNumber | moduls/uartDefines.py:159-173 | a number is accepted by `struct` exactly when it is whole, and then it is that integer |
| UartDefines.PackNumber | moduls/uartDefines.py:159-173 | a packed payload is two bytes and reads back as the number; every whole number in range packs |
| UartDefines.PayloadBytes | moduls/uartDefines.py:227 | `'2s'` writes two bytes that read like the payload; the empty payload becomes two zero bytes |
| UartDefines.EncodeMessage | moduls/uartDefines.py:213-227 | three bytes: the id byte, then the payload high byte first, keeping both readings |
| UartDefines.DecodeMessage | moduls/uartDefines.py:195-211 | the type and payload come from the bytes; the index changes only when the enumeration knows it; the new flag is the old flag and "index known" |
| UartDefines.NewMessage | moduls/uartDefines.py:134-148 | a constructed message is valid and reads its payload back; payload 0 keeps `b''` |
| UartDefines.MessageRoundTrip | moduls/uartDefines.py:195-227 | decoding an encoded message whose index is in its enumeration recovers type, index and both payload readings, and leaves the flag as it was |
| UartDefines.ConstructedRoundTrip | moduls/uartDefines.py:134-148 | the same round trip for `UART_Message(type, index, payload)` with payload in -32768..32767 |
| UartDefines.DecodeClearsOnUnknownIndex | moduls/uartDefines.py:204-211 | an unknown index clears the flag, and no later decode sets it again |
| UartDefines.UartMessage.constructor | moduls/uartDefines.py:134-148 | the object holds `NewMessage(type, index, payload)` |
| UartDefines.UartMessage.SetPayloadUnsigned | moduls/uartDefines.py:159-165 | on success only the payload changes, to the packed value; on failure nothing changes |
| UartDefines.UartMessage.SetPayloadSigned | moduls/uartDefines.py:167-173 | the same for the signed packing |
| UartDefines.UartMessage.Decode | moduls/uartDefines.py:195-211 | the object's new state is `DecodeMessage` of its old state |
| UartDefines.UartMessage.Encode | moduls/uartDefines.py:213-227 | the id byte splits back into the object's type and index mod 64; the payload bytes read like the object's payload |
| UartDefines.XorAllOfThree | moduls/uartDefines.py:279-282 | the checksum of a message is the XOR of its three bytes |
| UartDefines.Crc8 | moduls/uartDefines.py:270-282 | the accumulator loop computes the left fold of XOR over the data |
| UartDefines.EncodeFrame | moduls/uartDefines.py:294-309 | seven bytes: 0x3A, the message, the XOR of its bytes, 0x3B, 0x0A; the frame passes the window checks |
| UartDefines.SingleBitFlipDetected | moduls/uartDefines.py:311-318 | flipping any one bit of the message bytes or the checksum byte fails the check |
| UartDefines.DoubleBitFlipUndetected | moduls/uartDefines.py:311-318 | flipping the same bits in two message bytes passes the check (the XOR checksum's blind spot) |
| UartDefines.MessageFrame.constructor | moduls/uartDefines.py:256-262 | every field None, no new message, the given message object |
| UartDefines.MessageFrame.Decode | moduls/uartDefines.py:284-292 | the fields are the seven bytes in order; the embedded message is decoded; a new message is flagged |
| UartDefines.MessageFrame.Encode | moduls/uartDefines.py:294-309 | only the None fields get their defaults; the checksum is always recomputed; the output is the five fields in order, and a fresh frame encodes to `EncodeFrame` of its message |
| UartDefines.MessageFrame.IsValide | moduls/uartDefines.py:311-318 | true exactly when start is 0x3A, end is 0x3B, the checksum matches and the message flag is set; EOL is not looked at |
| UartDefines.MessageFrame.IsAvailable | moduls/uartDefines.py:320-329 | reports a new valid message once and then clears the new-message flag; nothing else changes |
| UartDefines.DecodedFrameValidity | moduls/uartDefines.py:311-318 | after `decode`, validity holds exactly when the window checks pass, the object's flag was set and the index is in the enumeration |
| UartDefines.EncodedFrameIsValid | moduls/uartDefines.py:294-318 | every frame `encode` builds from a message with a known index passes the window checks and decodes into a valid message object with the flag still set |
| UartDefines.CyclicSend.constructor | moduls/uartDefines.py:345-347 | `lastSend` starts at 0 |
| UartDefines.CyclicSend.IsTime | moduls/uartDefines.py:352-361 | true exactly when the first clock reading `now` satisfies `now - lastSend >= interval * 1000000`, and then `lastSend` becomes the second, later reading `later`; otherwise nothing changes |
| ModelsUartDefines.ModelsIndexKnown | moduls/models/uartDefines.py:154-166 | the older codec knows data indices 0x00..0x0F and the status indices 0x00, 0x01, 0x3E and 0x3F, and no others |
| ModelsUartDefines.ModelsRejectsHighParamIndex | moduls/models/uartDefines.py:24-50 | a data message with index 0x10 or above decodes as invalid and keeps the old index |
| ModelsUartDefines.ModelsRoundTrip | moduls/models/uartDefines.py:154-178 | decode after encode recovers type, index and both payload readings for enumeration members |
| ModelsUartDefines.ModelsTablesWithinMain | moduls/models/uartDefines.py:24-50 | whatever the older codec accepts, the main one accepts too |
| DataClasses.Written | moduls/dataClasses.py:96-108 | an equal value changes nothing; otherwise the value becomes pending and written, and `value` changes only for persistent signals |
| DataClasses.Updated | moduls/dataClasses.py:110-124 | `lastReceived := now` always; the value changes only when the wire value differs from the stored one and nothing is pending, and then it is the scaled wire value |
| DataClasses.Retransmitted | moduls/dataClasses.py:126-134 | only `valueWritten` changes; it is set when a pending value exists and the signal does not opt out, and otherwise stays as it was; persistence is not consulted |
| DataClasses.Trunc | moduls/dataClasses.py:145 | `int()` truncates toward zero |
| DataClasses.RawOf | moduls/dataClasses.py:137-146 | the raw pending value for raw signals, else `(newValue - offset) / factor` truncated toward zero |
| DataClasses.RawOfInvertsScaled | moduls/dataClasses.py:117-146 | `getRaw` undoes the scaling `update` applies, for every wire value |
| DataClasses.PendingWriteWinsOverUpdate | moduls/dataClasses.py:103-124 | after a write, `update` keeps the written state and the pending value |
| DataClasses.UpdateAppliesWhenIdle | moduls/dataClasses.py:117-123 | without a pending write, a differing wire value is taken, scaled |
| DataClasses.Signal.constructor | moduls/dataClasses.py:61-76 | a new signal holds its value with nothing pending and zero timestamps |
| DataClasses.Signal.Write | moduls/dataClasses.py:96-108 | the object's new state is `Written` of its old state |
| DataClasses.Signal.Update | moduls/dataClasses.py:110-124 | the object's new state is `Updated` of its old state |
| DataClasses.Signal.Retransmit | moduls/dataClasses.py:126-134 | the object's new state is `Retransmitted` of its old state |
| DataClasses.Signal.GetRaw | moduls/dataClasses.py:137-146 | a raw signal returns the pending value itself; any other returns a whole number |
| DataClasses.Signal.Equals | moduls/dataClasses.py:78-82 | a signal equals exactly the numbers equal to its index |
| DataClasses.Catalog | moduls/dataClasses.py:187-437 | seventeen signals, each with a non-zero factor and a zero offset |
| DataClasses.CatalogIndexList | moduls/dataClasses.py:193-437 | the catalog's indices in declaration order |
| DataClasses.CatalogPositionInverts | moduls/dataClasses.py:193-437 | the position function and the index list invert each other on 0x00..0x10 |
| DataClasses.CatalogIndicesAreAPermutation | moduls/dataClasses.py:193-437 | the indices are pairwise distinct and are exactly MSG_INDEX_PARAM (0x00..0x10) |
| DataClasses.CatalogEnds | moduls/dataClasses.py:439-444 | iteration starts with Bat Voltage and ends with Remote PWM |
| DataClasses.CatalogNoRetransmit | moduls/dataClasses.py:193-437 | `noRetransmit` is set exactly for Bat Voltage, Motor Temp, Enable and Remote PWM |
| DataClasses.UartSignals.constructor | moduls/dataClasses.py:187-437 | one fresh signal per catalog entry, in order, with value 0 and nothing pending |
| ModelsDataClasses.ModelsSignal.constructor | moduls/models/dataClasses.py:12-25 | the settings and value given, `lastReceived` 0 |
| ModelsDataClasses.ModelsSignal.Equals | moduls/models/dataClasses.py:28-29 | a signal equals exactly the numbers equal to its index |
| ModelsDataClasses.ModelsCatalog | moduls/models/dataClasses.py:42-58 | sixteen signals, every offset zero |
| ModelsDataClasses.ModelsCatalogIndexList | moduls/models/dataClasses.py:43-58 | the older catalog's indices in declaration order |
| ModelsDataClasses.ModelsCatalogPositionInverts | moduls/models/dataClasses.py:43-58 | the position function and the index list invert each other on 0x00..0x0F |
| ModelsDataClasses.ModelsCatalogIndicesAreAPermutation | moduls/models/dataClasses.py:43-58 | the indices are pairwise distinct and are exactly the older MSG_INDEX_PARAM (0x00..0x0F) |
| UartHelper.FindStart | moduls/uartHelper.py:300 | -1 or the position of a start byte |
| UartHelper.FindStartIsFirst | moduls/uartHelper.py:300-302 | `find` returns the first start byte, and -1 exactly when there is none |
| UartHelper.ScanAsWritten | moduls/uartHelper.py:293-320 | the inner loop as written, one shared message decoding every window: it stops only where the loop breaks, and leaves at most the buffer it started with |
| UartHelper.Scan | moduls/uartHelper.py:299-320 | the pass as evidently intended, each window judged on its own: it stops only where the loop breaks, and leaves at most the buffer it started with |
| UartHelper.ScanAsWrittenProperties | moduls/uartHelper.py:299-320 | the pass ends only where the loop breaks; it queues only flagged messages; once the shared flag is clear nothing more is queued |
| UartHelper.ScanProperties | moduls/uartHelper.py:299-320 | the intended pass ends where the loop breaks and delivers only messages with enumerated indices |
| UartHelper.ScanStep | moduls/uartHelper.py:304-320 | for the intended pass: with a complete candidate, an accepted window is emitted and skipped whole, a rejected one is dropped one byte past its start (the as-written steps are ScanAsWrittenAccepts and ScanAsWrittenRejects) |
| UartHelper.ScanAsWrittenStops | moduls/uartHelper.py:299-306 | a buffer shorter than 7, without a start byte, or with too few bytes after it is kept unchanged and yields nothing |
| UartHelper.ScanAsWrittenAccepts | moduls/uartHelper.py:315-317 | a window that passes is queued and the buffer drops through its end |
| UartHelper.ScanAsWrittenRejects | moduls/uartHelper.py:318-320 | a window that fails queues nothing and the buffer drops only through its start byte |
| UartHelper.ScanRestIsSuffix | moduls/uartHelper.py:299-320 | what the intended pass leaves is the unread end of the buffer |
| UartHelper.ScanAsWrittenRestIsSuffix | moduls/uartHelper.py:299-320 | the same for the pass as written |
| UartHelper.FindStartAfterGarbage | moduls/uartHelper.py:300 | bytes without a start byte in front of a buffer only shift where `find` looks |
| UartHelper.ScanFromFirstStart | moduls/uartHelper.py:300-320 | the intended pass skips whatever precedes the first start byte |
| UartHelper.ScanAsWrittenFromFirstStart | moduls/uartHelper.py:300-320 | the pass as written skips whatever precedes the first start byte, whatever the shared message holds |
| UartHelper.ScanSameFromStart | moduls/uartHelper.py:300-320 | the intended pass scans two buffers that agree from their first start byte on alike |
| UartHelper.ScanAsWrittenSameFromStart | moduls/uartHelper.py:300-320 | the same for the pass as written, from the same shared message |
| UartHelper.ScanSkipsLeadingGarbage | moduls/uartHelper.py:300-320 | for the intended pass, garbage without a start byte in front of a complete candidate changes nothing |
| UartHelper.ScanAsWrittenSkipsLeadingGarbage | moduls/uartHelper.py:300-320 | the same for the pass as written, from the same shared message |
| UartHelper.ScanResyncsByOneByte | moduls/uartHelper.py:318-320 | the intended pass gives a failing window up one byte past its start, emitting nothing, so a start byte inside it is retried (as written: ScanAsWrittenRejects) |
| UartHelper.ScanFrameThen | moduls/uartHelper.py:315-317 | for the intended pass, an encoded frame in front of a buffer comes out first, then whatever the buffer yields |
| UartHelper.ScanAsWrittenFrameThen | moduls/uartHelper.py:315-317 | the same for the pass as written while the shared flag is set |
| UartHelper.ScanOfStream | moduls/uartHelper.py:299-320 | a stream of encoded frames with enumerated indices yields their messages in stream order and leaves nothing |
| UartHelper.ScanAsWrittenOfStream | moduls/uartHelper.py:299-320 | the as-written pass agrees with that on such a stream while the shared flag is set |
| UartHelper.CorruptedThenValidFrame | moduls/uartHelper.py:318-320 | for the intended pass, a corrupted frame (bad markers, checksum or index) that holds no start byte past its first, followed by a good one, yields exactly the good frame's message and leaves nothing |
| UartHelper.CorruptedThenValidFrameAsWritten | moduls/uartHelper.py:309-320 | as written, while the shared flag is set, a frame with bad markers or checksum but an enumerated index and no start byte past its first, followed by a good frame, yields exactly the good frame's message, leaves nothing, and leaves that message shared |
| UartHelper.StrayByteThenRpmReadRequest | moduls/uartHelper.py:299-320 | for the intended pass, a READ_REQUEST for VALUE_RPM behind any one stray byte, a stray start byte included, comes out alone and intact |
| UartHelper.StrayByteThenRpmReadRequestAsWritten | moduls/uartHelper.py:299-320 | as written, for any stray byte and any shared message: the request comes out alone and nothing is left exactly when the shared flag is set and a stray start byte, read as the id byte 0x3A, carries a known index; otherwise nothing is delivered and the frame's last six bytes stay |
| UartHelper.StrayStartBytePoisonsReceiver | moduls/uartHelper.py:299-320 | one stray 0x3A whose id reading is an unknown index, then an RPM READ_REQUEST: as written nothing is delivered, the intended pass delivers the request |
| UartHelper.InnerStartByteSpoofsFrame | moduls/uartHelper.py:318-320 | a corrupted frame holding a second start byte can make the one-byte resync accept a window spanning it and the next frame: a request never sent comes out and the good frame after it is lost |
| UartHelper.NoiseWindowPoisonsReceiver | moduls/uartHelper.py:309-320 | seven noise bytes with an unknown index, then a good frame: as written nothing is delivered, the intended pass delivers the frame |
| UartHelper.WritePayload | moduls/uartHelper.py:331-333 | the payload a pending write packs to reads back as `getRaw()`; it fails exactly when `getRaw()` is not a whole number in -32768..32767 |
| UartHelper.TickOne | moduls/uartHelper.py:331-340 | one signal's step keeps the "pending has a value" invariant |
| UartHelper.Due | moduls/uartHelper.py:337 | a cyclic signal is due when `lastTransmitted + cycleTime * 1000000 < now`, strictly |
| UartHelper.TickUpTo | moduls/uartHelper.py:330-340 | after n iterations at most n signals have had their turn, the tick has failed exactly when fewer than n have, and every signal from the first without a turn on keeps its state |
| UartHelper.TickSpec | moduls/uartHelper.py:330-340 | the whole tick: one state per signal, at most one turn per signal, failed exactly when some signal did not get its turn, and on a failure the failing signal and every later one keep their states |
| UartHelper.TickStaysFailed | moduls/uartHelper.py:330-336 | once `struct` has raised, the later signals change nothing |
| UartHelper.TickUpToAt | moduls/uartHelper.py:330-340 | each position's state and message after the loop are that signal's own step, taken from its state before the tick |
| UartHelper.WritePreemptsCyclicRead | moduls/uartHelper.py:331-336 | a pending write is sent as a WRITE_REQUEST carrying `getRaw()` signed, clears `valueWritten` and stamps the signal, even when a read is due |
| UartHelper.CyclicReadWhenDue | moduls/uartHelper.py:337-340 | without a pending write, a READ_REQUEST goes out exactly when the signal is cyclic and `lastTransmitted + cycleTime * 1000000 < now`; otherwise nothing changes |
| UartHelper.TickFailsAtFirstUnpackableWrite | moduls/uartHelper.py:332-333 | the tick fails exactly when some pending write cannot be packed, and stops at the first one |
| UartHelper.FrameOf | moduls/uartHelper.py:194-207 | one written message per message sent |
| UartHelper.SweepMessages | moduls/uartHelper.py:279-282 | one READ_REQUEST with an empty payload per signal, in catalog order |
| UartHelper.Stamped | moduls/uartHelper.py:279-283 | the sweep sets signal `i`'s `lastTransmitted` to its own reading `nows[i]` and changes nothing else |
| UartHelper.LaterSweepOverwrites | moduls/uartHelper.py:160-164 | after `connect`'s two sweeps only the second sweep's readings remain |
| UartHelper.SweepDefersCyclicRead | moduls/uartHelper.py:281-283 | after a sweep a signal is due exactly when it is cyclic and one period has passed since its own reading |
| UartHelper.SweepStaggersDeadlines | moduls/uartHelper.py:279-283 | with readings that increase along the sweep (the 10 ms sleep), a signal swept earlier falls due no later than a later one with an equal or longer period |
| UartHelper.UartHelper.constructor | moduls/uartHelper.py:113-126 | a closed port, an empty queue, nothing written, the main tables |
| UartHelper.UartHelper.Send | moduls/uartHelper.py:194-207 | a no-op on a closed port; otherwise the message is written once |
| UartHelper.UartHelper.GetMessage | moduls/uartHelper.py:209-218 | removes and returns the oldest queued message, or None for an empty queue |
| UartHelper.UartHelper.ReadWindow | moduls/uartHelper.py:304-320 | one iteration keeps the loop's relation to `ScanAsWritten` and strictly shortens the buffer |
| UartHelper.UartHelper.ReadPass | moduls/uartHelper.py:299-320 | the loop leaves the buffer `ScanAsWritten` leaves, appends its messages to the queue in order, and leaves the shared message as it says |
| UartHelper.UartHelper.TickSignal | moduls/uartHelper.py:331-340 | the signal's new state and what it writes are those of `TickOne` |
| UartHelper.UartHelper.TickStep | moduls/uartHelper.py:330-340 | one iteration of the tick loop extends the part that agrees with `TickUpTo` by one signal |
| UartHelper.UartHelper.TickFinished | moduls/uartHelper.py:330-340 | after the last signal, or after a failure, the states and written messages are those of `TickSpec` |
| UartHelper.UartHelper.SendCyclicTick | moduls/uartHelper.py:328-341 | one tick leaves the states, the failure and the written messages that `TickSpec` gives |
| UartHelper.UartHelper.UpdateSignals | moduls/uartHelper.py:272-283 | on an open port signal `i` is stamped with `nows[i]` and a READ_REQUEST per signal is written in catalog order; on a closed port nothing changes |
| UartHelper.UartHelper.RequestRead | moduls/uartHelper.py:280-282 | one iteration stamps the signal and writes its READ_REQUEST |
| UartHelper.UartHelper.SweepAfterOpen | moduls/uartHelper.py:160-164 | an extra sweep at readings `early` when `updateSignals` is set, then the unconditional sweep at readings `nows`: twice the requests, and the second sweep's stamps |
| UartHelper.UartHelper.Connect | moduls/uartHelper.py:136-165 | refuses an already open port; fails without change if the port does not open; otherwise the sweeps above, with their own clock readings |
| App.FirstMatch | moduls/app.py:89-90 | -1 or a position whose signal has the message's index |
| App.FirstMatchIsFirst | moduls/app.py:89-98 | the loop stops at the first signal with the index, and finds none exactly when there is none |
| App.ResponseValue | moduls/app.py:91-96 | a raw signal without negatives takes the unsigned payload, in 0..65535; at unit scale and zero offset an unsigned signal reads the payload whether raw or not |
| App.SignedReadingDiffersOnlyAboveTopBit | moduls/app.py:91-96 | for a scaled signal, the signed and unsigned readings agree exactly when the payload is below 0x8000, and differ by 65536 steps otherwise |
| App.StatusEventOf | moduls/app.py:103-114 | the two error statuses carry the payload read signed, in -32768..32767 |
| App.StatusTableCoversModelsStatuses | moduls/app.py:102-114 | a status is logged exactly when it belongs to the older MSG_INDEX_STATUS; the error codes carry the signed payload |
| App.NewerStatusesAreUnknown | moduls/app.py:112-114 | REMOTE_READY and the STOP codes, known only to the main codec, take the "unknown index" branch |
| App.MatchedSignal | moduls/app.py:88-98 | only a RESPONSE selects a signal, and the selected signal has its index |
| App.GuiEntriesOf | moduls/app.py:86-114 | a RESPONSE or STATUS message produces exactly one entry, a GUI line or an error; None and requests produce none |
| App.ErrorsOf | moduls/app.py:112-114 | an error is only ever an unknown-index report for a STATUS message outside the older MSG_INDEX_STATUS |
| App.CatalogRoutesResponses | moduls/app.py:88-98 | in the older catalog every known index reaches its own signal, and VALUE_REMOTE_PWM reaches none |
| App.RequestsAreIgnored | moduls/app.py:86-114 | a WRITE_REQUEST or READ_REQUEST changes no signal and logs nothing |
| App.RequestFor | moduls/app.py:32-75 | exactly the eight known actions make a request; its index is in the older MSG_INDEX_PARAM and names that action back |
| App.CallbackOutcomeOf | moduls/app.py:32-77 | only an unknown action is ignored; a sent message is a valid WRITE_REQUEST with a two-byte payload and the action's index |
| App.CallbackIndexRoundTrip | moduls/app.py:32-72 | every sent message is a WRITE_REQUEST that the older codec decodes back to an index naming this action and no other |
| App.CallbackPayloadRoundTrip | moduls/app.py:36-71 | the device decodes the action's number: unsigned for PWM, commutation and control mode, signed for START and RPM, signed `int(value*1000)` for P/I/D |
| App.RequestRoundTrip | moduls/app.py:34-36 | a packable request reaches the device with its index and its number |
| App.CallbackSendsWhenPackable | moduls/app.py:32-75 | an unknown action is ignored; a known one sends exactly when its number is whole and in range for its payload kind |
| App.TargetIsWhatIsSent | moduls/app.py:37-72 | the action's own target field becomes the number its request carries, every other action's field is unchanged, and recording it again changes nothing |
| App.Retargeted | moduls/app.py:37-72 | an action leaves the target fields of every other action as they were |
| App.App.constructor | moduls/app.py:19-24 | the older catalog's signals, zero targets, empty logs |
| App.App.ApplyResponse | moduls/app.py:89-98 | only the first matching signal gets `ResponseValue` and `lastReceived := now`; the others are unchanged |
| App.App.ApplyTo | moduls/app.py:91-97 | the matched signal's value and reception time change, and no other signal's do |
| App.App.SetFromResponse | moduls/app.py:91-97 | signed and scaled if negatives are allowed, else raw unsigned, else unsigned and scaled; then `lastReceived := now` |
| App.App.ReadUart | moduls/app.py:84-114 | None changes nothing; a RESPONSE updates its first match and always logs a data update; a STATUS logs its event or reports an unknown index |
| App.App.Prepare | moduls/app.py:34-36 | sets type and index, then the payload, which may fail |
| App.App.Dispatch | moduls/app.py:32-75 | the outcome is `CallbackOutcomeOf`; the target changes only when the message is built; an unknown action is reported |
| App.App.GuiCallback | moduls/app.py:28-77 | a built message is logged once and handed to `send`; nothing is logged or written otherwise |

## Left out

- Threads are left out: `_start_reading`, `_stop_reading`, `_start_cyclic_send`, `_stop_cyclic_send`, the `reading` and `isSending` flags, and the surrounding `while` loops. Only single passes and single ticks are modelled.
- The serial device is left out: `serial.Serial`, `open`, `close`, `read`, `in_waiting`, `listInstances` and `disconnect`. The port is the boolean `portOpen`, and `connect` gets the result of `open` as the parameter `opens`.
- `UartHelper.UartHelper.written` records the message of each frame handed to `ser.write`, not the bytes; `EncodeFrame` gives the bytes of such a frame.
- Reading from the port is left out: `ReadPass` takes the accumulated buffer as a parameter and returns what is left.
- `time.time_ns` and `time.sleep` are left out; clock readings are parameters, one per call of `time_ns` (`CyclicSend.IsTime` takes the two it reads).
- Floating point is replaced by exact reals: values, factors, offsets and `value * 1000`. `Trunc` models `int()`, and no rounding behaviour is claimed.
- The model does not distinguish a Python `int` from a `float` with a whole value. `struct` refuses any float; the model refuses only non-whole numbers.
- `addCyclicSend`, the `_cyclicSend` list and `CyclicSend` messages are left out of the tick, because `_send_cyclic` never reads them. `CyclicSend.isTime` is modelled on its own.
- `__str__`, `__len__`, `__iter__` of a single signal, logging and `deepcopy` are left out. Queued messages are values, so they are copies by construction.
- An unknown message type in `decode` is not modelled, because `MSG_Type(id >> 6)` cannot fail for a two-bit value.
- `App.App.GuiCallback` takes the action as the datatype `GuiAction`, and the code `CommutationsType[value]` looks up as the separate number `commutation`. `GuiAction` and `CommutationsType` are not defined in the repository's files; only `CommutationsTypeValues` exists. A lookup miss (`KeyError`) is not modelled.
- The message `readUART` handles is a parameter of `App.App.ReadUart`. The method it calls (`getMassage`) does not exist on `UartHelper`, which only has `getMessage`.
- `App.App.ReadUart` compares types and indices as integers. In the source, `app.py` compares members of the older module's enums with messages decoded by the main codec's enums. Python enums of different classes never compare equal, so as written no comparison in `readUART` could succeed. The model follows the evident intent.
- CorruptedThenValidFrame: promises the resync only for a corrupted frame with no start byte after its first. The one-byte resync of uartHelper.py:318-320 gives no more: `InnerStartByteSpoofsFrame` shows a corrupted frame with a second 0x3A that yields a request never sent and loses the good frame after it.
- CorruptedThenValidFrameAsWritten: the same restriction to corrupted frames without an inner start byte, for the same reason.
- App.App.constructor: does not tie the application's `signals` to the transport helper's `uart.signals`. In app.py:20 both are the same older table of `Signale` objects. The model gives the helper the newer `Signal` objects, so `readUART` updates do not reach the scheduler. As written, the sharing hands `_send_cyclic` signals that have no `valueWritten` field: its first read of it (uartHelper.py:331) raises `AttributeError` and ends the cyclic-send thread.
- The GUI is left out: `moduls/guiHelper.py`, windows, plots and the `run` loop. Its `writeLog` and `updateData` calls are recorded in `App.App.guiLog`, and the error logger's lines in `App.App.errorLog`.
- The `SystemData` fields other than the eight targets `guiCallback` assigns are left out.
- An exception raised by `struct.pack` inside `guiCallback` is the outcome `PackFailed`. The source lets it propagate to the GUI toolkit; the model ends the call without logging or sending.
- A failed `_send_cyclic` tick is the result `failed`. In the source the exception ends the cyclic-send thread.
- `main.py`, `moduls/timing.py` and the App constructor's GUI start-up are left out.

## Findings

| source | as written | input that shows it | evidently intended | confidence | as-written member | corrected member |
|---|---|---|---|---|---|---|
| moduls/uartHelper.py:293-320 | the receiver decodes every candidate window into one reused message object, whose `isValide` flag `decode` clears on an unknown index and never sets again; from then on every window is rejected | the buffer `3A 3F 00 00 00 00 00` followed by any correct frame: the first window carries the RESPONSE index 0x3F, which is not in MSG_INDEX_PARAM, and the correct frame after it is never queued | each window is judged by its own markers, checksum and index, so the correct frame is delivered | not executed | UartHelper.NoiseWindowPoisonsReceiver | UartHelper.ScanOfStream |
| moduls/uartHelper.py:299-320 | the same shared flag is cleared by a lone stray start byte: the window it opens decodes the next frame's start byte 0x3A as an id byte, a RESPONSE with index 0x3A that no table holds | the buffer `3A 3A C7 00 00 C7 3B 0A`: one stray 0x3A, then an RPM READ_REQUEST frame, which is never queued | a stray byte is skipped and the frame behind it is delivered | not executed | UartHelper.StrayStartBytePoisonsReceiver | UartHelper.StrayByteThenRpmReadRequest |
